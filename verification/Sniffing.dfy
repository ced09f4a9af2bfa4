/** handle_radio_sniffer of measures_handler.c: captured packets in ZEP format, stamped in NTP time
    (section 6 of RFC 5905). */
module Sniffing {
  import opened Bytes
  import opened Dict
  import opened CommandTable
  import opened TimeRef
  import opened Measures

  const JAN_1970 := 2_208_988_800
  const FRAC := 0x1_0000_0000

  const ZEP_CHANNEL := 4
  const ZEP_LQI := 8
  const ZEP_MSB := 9
  const ZEP_LSB := 13
  const ZEP_RSSI := 23
  const ZEP_LEN := 31

  datatype SnifferRow = SnifferRow(time: Time, channel: byte, rssi: int, lqi: byte, length: nat)

  // ----- NTP time -------------------------------------------------------------------------------

  /** The (uint32_t) cast of a 64-bit difference. */
  function UnixSeconds(msb: nat): (s: nat)
    ensures s < FRAC
  {
    (msb - JAN_1970) % FRAC
  }

  function Microseconds(lsb: nat): (us: nat)
    requires lsb < FRAC
    ensures us < MICRO
  {
    lsb * MICRO / FRAC
  }

  /** The NTP seconds of a Unix time, in an era of 2^32 seconds. */
  function NtpSeconds(s: nat): (msb: nat)
    ensures msb < FRAC
  {
    (s + JAN_1970) % FRAC
  }

  /** Every 32-bit second comes back, whichever era it falls in, and so does every 32-bit NTP second. */
  lemma SecondsRoundTrip(s: nat)
    requires s < FRAC
    ensures UnixSeconds(NtpSeconds(s)) == s && NtpSeconds(UnixSeconds(s)) == s
  {
  }

  lemma MicrosecondsMonotone(a: nat, b: nat)
    requires a <= b < FRAC
    ensures Microseconds(a) <= Microseconds(b)
  {
    assert a * MICRO <= b * MICRO;
  }

  /** A fraction rounded down loses at most one microsecond, one rounded up loses none. */
  lemma MicrosecondsRoundTrip(us: nat)
    requires us < MICRO
    ensures us * FRAC / MICRO < FRAC && us - 1 <= Microseconds(us * FRAC / MICRO) <= us
    ensures (us * FRAC + MICRO - 1) / MICRO < FRAC && Microseconds((us * FRAC + MICRO - 1) / MICRO) == us
  {
  }

  /** Rounding down is exact just when the fraction is exact: multiples of 5^6 microseconds. */
  lemma FloorIsExact(us: nat)
    requires us < MICRO
    ensures us * FRAC / MICRO < FRAC && (Microseconds(us * FRAC / MICRO) == us <==> us % 15625 == 0)
  {
    FloorRemainder(us);
    Divides(us);
  }

  /** The two roundings agree with the true value exactly when nothing was rounded. */
  lemma FloorRemainder(us: nat)
    requires us < MICRO
    ensures us * FRAC / MICRO < FRAC && (Microseconds(us * FRAC / MICRO) == us <==> us * FRAC % MICRO == 0)
  {
  }

  /** 10^6 is 64 * 15625 and 2^26 has an inverse modulo 15625. */
  lemma Divides(us: nat)
    ensures us * FRAC % MICRO == 0 <==> us % 15625 == 0
  {
    if us * FRAC % MICRO == 0 {
      var q := us * FRAC / MICRO;
      assert us * FRAC == MICRO * q;
      Invert(us, q);
    }
    if us % 15625 == 0 {
      var k := us / 15625;
      assert us * FRAC == MICRO * (k * 0x400_0000);
      Multiple(k * 0x400_0000);
    }
  }

  lemma Multiple(n: nat)
    ensures MICRO * n % MICRO == 0
  {
  }

  lemma Invert(us: nat, q: nat)
    requires us * FRAC == MICRO * q
    ensures us % 15625 == 0
  {
    assert us * 0x400_0000 == 15625 * q;
    assert us == 15625 * (12659 * q - 54369991 * us);
  }

  // ----- The packet -----------------------------------------------------------------------------

  /** ntohl of four bytes. */
  function BigEndian32(data: seq<byte>, at: nat): (n: nat)
    requires at + 4 <= |data|
    ensures n < FRAC
  {
    var a: int, b: int, c: int, d: int := data[at], data[at + 1], data[at + 2], data[at + 3];
    ((a * 256 + b) * 256 + c) * 256 + d
  }

  function ToBigEndian32(n: nat): (r: seq<byte>)
    requires n < FRAC
    ensures |r| == 4
  {
    [n / 256 / 256 / 256, n / 256 / 256 % 256, n / 256 % 256, n % 256]
  }

  lemma BigEndianRoundTrip(n: nat)
    requires n < FRAC
    ensures BigEndian32(ToBigEndian32(n), 0) == n
  {
  }

  /** The two length tests. */
  predicate SnifferLengthOk(data: seq<byte>, len: nat)
    requires |data| >= ZEP_LEN + 2
  {
    len >= ZEP_LEN + 2 && len == ZEP_LEN + 2 + data[1 + ZEP_LEN]
  }

  function SnifferRowOf(zep: seq<byte>): (r: SnifferRow)
    requires |zep| > ZEP_LEN
  {
    SnifferRow(Time(UnixSeconds(BigEndian32(zep, ZEP_MSB)), Microseconds(BigEndian32(zep, ZEP_LSB))),
               zep[ZEP_CHANNEL], Signed8(zep[ZEP_RSSI]), zep[ZEP_LQI], (zep[ZEP_LEN] - 2) % FRAC)
  }

  /** The row, and the bytes handed to the sniffer server: they start after the frame's type but are as many
      as the whole frame, so the last one is not part of it. */
  method HandleRadioSniffer(data: seq<byte>, len: nat) returns (r: Option<(SnifferRow, seq<byte>)>)
    requires |data| == PKT_CAPACITY && len <= 255
    ensures r.Some? <==> SnifferLengthOk(data, len)
    ensures r.Some? ==> r.value.0 == SnifferRowOf(data[1..len]) && r.value.1 == data[1..len] + [data[len]]
  {
    var rlen: nat := 1 + (ZEP_LEN + 1);
    if len < rlen {
      return None;
    }
    var pktLen := data[1 + ZEP_LEN];
    rlen := rlen + pktLen;
    if len != rlen {
      return None;
    }
    var zep := data[1..];
    var forwarded := zep[..len];
    assert forwarded == data[1..len] + [data[len]];
    var time := Time(UnixSeconds(BigEndian32(zep, ZEP_MSB)), Microseconds(BigEndian32(zep, ZEP_LSB)));
    var row := SnifferRow(time, zep[ZEP_CHANNEL], Signed8(zep[ZEP_RSSI]), zep[ZEP_LQI], (pktLen - 2) % FRAC);
    return Some((row, forwarded));
  }

  /** A captured packet as the device describes it; `id`, `gap` and `rest` are fields nobody reads here. */
  datatype Capture = Capture(magic: seq<byte>, channel: byte, id: seq<byte>, lqi: byte, unix: nat, frac: nat,
                             gap: seq<byte>, rssi: int, rest: seq<byte>, payload: seq<byte>)
  {
    predicate Valid()
    {
      && |magic| == 4 && |id| == 3 && |gap| == 6 && |rest| == 7 && |payload| <= 222
      && unix < FRAC && frac < FRAC && -128 <= rssi < 128
    }
  }

  function Zep(c: Capture): (r: seq<byte>)
    requires c.Valid()
    ensures |r| == ZEP_LEN + 1 + |c.payload|
  {
    c.magic + [c.channel] + c.id + [c.lqi] + ToBigEndian32(NtpSeconds(c.unix)) + ToBigEndian32(c.frac)
    + c.gap + [c.rssi % 256] + c.rest + [|c.payload|] + c.payload
  }

  /** Every capture comes out with its own fields, whatever follows it in the buffer. */
  lemma SnifferRoundTrip(c: Capture, junk: seq<byte>)
    requires c.Valid()
    ensures var frame := [RADIO_SNIFFER_FRAME] + Zep(c);
            && SnifferLengthOk(frame + junk, |frame|)
            && SnifferRowOf((frame + junk)[1..|frame|])
               == SnifferRow(Time(c.unix, Microseconds(c.frac)), c.channel, c.rssi, c.lqi, (|c.payload| - 2) % FRAC)
  {
    var zep := Zep(c);
    var frame := [RADIO_SNIFFER_FRAME] + zep;
    assert (frame + junk)[1..|frame|] == zep;
    assert zep[ZEP_MSB..ZEP_MSB + 4] == ToBigEndian32(NtpSeconds(c.unix));
    assert zep[ZEP_LSB..ZEP_LSB + 4] == ToBigEndian32(c.frac);
    BigEndianRoundTrip(NtpSeconds(c.unix));
    BigEndianRoundTrip(c.frac);
    SecondsRoundTrip(c.unix);
  }
}
