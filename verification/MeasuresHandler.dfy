/** The stateful part of measures_handler.c: acknowledgements rewrite the configuration under which the
    consumption frames that follow are read. */
module MeasuresHandler {
  import opened Bytes
  import opened Bits
  import opened Dict
  import opened CommandTable
  import opened TimeRef
  import opened Measures
  import opened Sniffing

  const SOURCE_MASK := 0x70

  /** What is printed or recorded for one packet. */
  datatype Effect =
    | Unhandled
    | TimeAck(sec: int, usec: int)
    | ConfigAck(what: string)
    | UnknownAck(kind: byte)
    | BadLength(what: string)
    | Rows(rows: seq<Row>)
    | Sniffed(row: SnifferRow, forwarded: seq<byte>)

  /** The configuration that an acknowledged configuration byte stands for. */
  function ConfigOf(config: byte): (g: Config)
    ensures g.Valid()
  {
    var p, v, c := And(config, 1) != 0, And(config, 2) != 0, And(config, 4) != 0;
    Config(p, v, c, And(config, SOURCE_MASK), 4 * (Flag(p) + Flag(v) + Flag(c)))
  }

  lemma SourceMask(x: nat)
    ensures And(x, SOURCE_MASK) == x / 16 % 8 * 16
  {
    AndShift(x, 56);
    AndShift(x / 2, 28);
    AndShift(x / 2 / 2, 14);
    AndShift(x / 2 / 2 / 2, 7);
    assert x / 2 / 2 / 2 / 2 == x / 16;
    LowMask(x / 16);
  }

  /** Which bits of the byte are the flags and the source. */
  lemma ConfigBits(config: byte)
    ensures var g := ConfigOf(config);
            && g.p == Bit(config, 0) && g.v == Bit(config, 1) && g.c == Bit(config, 2)
            && g.source == config / 16 % 8 * 16 && g.measLen == 4 * (Flag(g.p) + Flag(g.v) + Flag(g.c))
  {
    assert Pow2(0) == 1 && Pow2(1) == 2 && Pow2(2) == 4;
    AndBit(config, 0);
    AndBit(config, 1);
    AndBit(config, 2);
    SourceMask(config);
  }

  const UNCONFIGURED := Config(false, false, false, 0, 0)

  /** An acknowledgement of a consumption configuration; its bytes may be older than the packet. */
  predicate Configures(data: seq<byte>)
    requires |data| >= 3
  {
    data[0] == ACK_FRAME && data[1] == CONFIG_CONSUMPTION
  }

  function NextConfig(g: Config, data: seq<byte>): (h: Config)
    requires |data| >= 3
  {
    if Configures(data) then ConfigOf(data[2]) else g
  }

  predicate Buffer(p: Packet)
  {
    |p.data| == PKT_CAPACITY && p.len <= 255
  }

  predicate Buffers(packets: seq<Packet>)
  {
    forall i :: 0 <= i < |packets| ==> Buffer(packets[i])
  }

  function ConfigAfter(g: Config, packets: seq<Packet>): (h: Config)
    requires Buffers(packets)
    ensures g.Valid() ==> h.Valid()
    decreases packets
  {
    if packets == [] then g else ConfigAfter(NextConfig(g, packets[0].data), packets[1..])
  }

  lemma {:induction false} ConfigAfterConcat(g: Config, a: seq<Packet>, b: seq<Packet>)
    requires Buffers(a) && Buffers(b)
    ensures ConfigAfter(g, a + b) == ConfigAfter(ConfigAfter(g, a), b)
    decreases a
  {
    if a == [] {
      assert a + b == b;
    } else {
      ConfigAfterConcat(NextConfig(g, a[0].data), a[1..], b);
      assert (a + b)[1..] == a[1..] + b;
    }
  }

  lemma {:induction false} NoAckKeeps(g: Config, packets: seq<Packet>)
    requires Buffers(packets) && forall i :: 0 <= i < |packets| ==> !Configures(packets[i].data)
    ensures ConfigAfter(g, packets) == g
  {
    if packets != [] { NoAckKeeps(g, packets[1..]); }
  }

  /** Over every run: the configuration is that of the last acknowledgement, whatever else came. */
  lemma LastAckWins(g: Config, before: seq<Packet>, ack: Packet, after: seq<Packet>)
    requires Buffers(before) && Buffer(ack) && Buffers(after) && Configures(ack.data)
    requires forall i :: 0 <= i < |after| ==> !Configures(after[i].data)
    ensures Buffers(before + ([ack] + after))
    ensures ConfigAfter(g, before + ([ack] + after)) == ConfigOf(ack.data[2])
  {
    ConfigAfterConcat(g, before, [ack] + after);
    assert ([ack] + after)[1..] == after;
    NoAckKeeps(ConfigOf(ack.data[2]), after);
  }

  function KindOf(frame: byte): (k: Kind)
  {
    if frame == CONSUMPTION_FRAME then OfConsumption else OfRadio
  }

  function AckEffect(kind: byte, elapsed: int): (e: Effect)
  {
    if kind == SET_TIME then TimeAck(elapsed / MICRO, elapsed % MICRO)
    else if kind == CONFIG_CONSUMPTION then ConfigAck("config_consumption_measure")
    else if kind == CONFIG_RADIO_STOP then ConfigAck("config_radio_stop")
    else if kind == CONFIG_RADIO_MEAS then ConfigAck("config_radio_measure")
    else UnknownAck(kind)
  }

  function FrameName(k: Kind): (s: string)
  {
    match k case OfConsumption => "consumption" case OfRadio => "radio"
  }

  /** What one packet does under a configuration; `elapsed` is the time since set_time was sent. */
  function EffectOf(g: Config, elapsed: int, p: Packet): (e: Effect)
    requires g.Valid() && Buffer(p)
  {
    var kind := p.data[0];
    if kind == ACK_FRAME then AckEffect(p.data[1], elapsed)
    else if kind == RADIO_SNIFFER_FRAME then
      if SnifferLengthOk(p.data, p.len) then
        Sniffed(SnifferRowOf(p.data[1..p.len]), p.data[1..p.len] + [p.data[p.len]])
      else BadLength("sniff")
    else if kind == CONSUMPTION_FRAME || kind == RADIO_MEAS_FRAME then
      if LengthOk(p.data[1], p.len, MeasureSize(g, KindOf(kind))) then Rows(FrameRows(g, KindOf(kind), p.data, p.len))
      else BadLength(FrameName(KindOf(kind)))
    else Unhandled
  }

  /** An acknowledgement of set_time clears the time reference. */
  function NextRef(ref: (int, int), data: seq<byte>): (r: (int, int))
    requires |data| >= 3
  {
    if data[0] == ACK_FRAME && data[1] == SET_TIME then (0, 0) else ref
  }

  class Handler {
    var p: int
    var v: int
    var c: int
    var powerSource: int
    var measLen: nat
    const setTimeRef: Timeval

    ghost function Current(): (g: Config)
      reads this
    {
      Config(p != 0, v != 0, c != 0, powerSource, measLen)
    }

    ghost predicate Valid()
      reads this
    {
      (p == 0 || p == 1) && (v == 0 || v == 1) && (c == 0 || c == 1) && Current().Valid()
    }

    constructor (r: Timeval)
      ensures Valid() && Current() == UNCONFIGURED && setTimeRef == r
    {
      p, v, c, powerSource, measLen := 0, 0, 0, 0, 0;
      setTimeRef := r;
    }

    method ConfigConsumption(source: int, power: int, voltage: int, current: int)
      modifies this
      ensures Valid() && powerSource == source
      ensures (p != 0 <==> power != 0) && (v != 0 <==> voltage != 0) && (c != 0 <==> current != 0)
    {
      p, v, c, powerSource, measLen := 0, 0, 0, 0, 0;
      powerSource := source;
      measLen := 0;
      if power != 0 {
        p := 1;
        measLen := measLen + 4;
      }
      if voltage != 0 {
        v := 1;
        measLen := measLen + 4;
      }
      if current != 0 {
        c := 1;
        measLen := measLen + 4;
      }
    }

    /** An acknowledgement; `clock` is the time of day. Only the elapsed time of set_time depends on it. */
    method HandleAck(data: seq<byte>, clock: (int, int)) returns (e: Effect)
      requires Valid() && |data| >= 3 && data[0] == ACK_FRAME && 0 <= clock.1 < MICRO && setTimeRef.Normalised()
      modifies this, setTimeRef
      ensures Valid() && Current() == NextConfig(old(Current()), data)
      ensures e == AckEffect(data[1], Instant(clock) - old(setTimeRef.Total()))
      ensures setTimeRef.Pair() == NextRef(old(setTimeRef.Pair()), data) && setTimeRef.Normalised()
    {
      var ackType, config := data[1], data[2];
      if ackType == SET_TIME {
        var timeAck := new Timeval(clock.0, clock.1);
        var diff := new Timeval(0, 0);
        var negative := TimevalSubstract(diff, timeAck, setTimeRef);
        e := TimeAck(diff.sec, diff.usec);
        setTimeRef.Clear();
      } else if ackType == CONFIG_CONSUMPTION {
        e := ConfigAck("config_consumption_measure");
        ConfigConsumption(And(config, SOURCE_MASK), And(config, 1), And(config, 2), And(config, 4));
      } else if ackType == CONFIG_RADIO_STOP {
        e := ConfigAck("config_radio_stop");
      } else if ackType == CONFIG_RADIO_MEAS {
        e := ConfigAck("config_radio_measure");
      } else {
        e := UnknownAck(ackType);
      }
    }

    /** consumption_handler reads twelve bytes of the measure buffer, of which `measLen` are fresh. */
    method ConsumptionHandler(buf: array<byte>, time: Time) returns (row: Row)
      requires Valid() && buf.Length == 12
      ensures row == ConsumptionOf(Current(), time, buf[..])
    {
      var cons := buf[..];
      var i := 0;
      var power, voltage, current := None, None, None;
      if p != 0 {
        power := Some(cons[4 * i..4 * i + 4]);
        i := i + 1;
      }
      if v != 0 {
        voltage := Some(cons[4 * i..4 * i + 4]);
        i := i + 1;
      }
      if c != 0 {
        current := Some(cons[4 * i..4 * i + 4]);
        i := i + 1;
      }
      row := ConsumptionRow(time, power, voltage, current);
    }

    method CallHandler(kind: Kind, buf: array<byte>, time: Time) returns (row: Row)
      requires Valid() && buf.Length == 12
      ensures row == match kind case OfConsumption => ConsumptionOf(Current(), time, buf[..])
                                case OfRadio => RadioOf(time, buf[..])
    {
      match kind
      case OfConsumption => row := ConsumptionHandler(buf, time);
      case OfRadio => row := RadioRow(time, buf[0], Signed8(buf[1]));
    }

    /** One turn of the loop. */
    method HandleRecord(data: seq<byte>, ptr: nat, size: nat, ref: nat, buf: array<byte>, kind: Kind)
      returns (row: Row)
      requires Valid() && size == MeasureSize(Current(), kind) && ptr + Stride(size) <= |data| && buf.Length == 12
      modifies buf
      ensures row == RowOf(Current(), kind, ref, RecordAt(data, ptr, size))
    {
      var us := Word32(data, ptr);
      ExtractData(buf, data[ptr + 4..ptr + Stride(size)]);
      SameRow(Current(), kind, ref, RecordAt(data, ptr, size), buf[..]);
      row := CallHandler(kind, buf, TimeExtended(ref, us));
    }

    /** The loop of handle_oml_measure. */
    method HandleRecords(data: seq<byte>, num: nat, size: nat, ref: nat, buf: array<byte>, kind: Kind)
      returns (rows: seq<Row>)
      requires Valid() && size == MeasureSize(Current(), kind) && buf.Length == 12
      requires Room(data, HEADER, num, size)
      modifies buf
      ensures rows == RowsFrom(Current(), kind, ref, data, HEADER, num)
    {
      var ptr: nat, left: nat := HEADER, num;
      rows := [];
      ghost var g := Current();
      ghost var all := RowsFrom(g, kind, ref, data, ptr, left);
      while left > 0
        invariant Room(data, ptr, left, size) && Current() == g
        invariant rows + RowsFrom(g, kind, ref, data, ptr, left) == all
      {
        var row := HandleRecord(data, ptr, size, ref, buf, kind);
        Associates(rows, [row], RowsFrom(g, kind, ref, data, ptr + Stride(size), left - 1));
        rows := rows + [row];
        ptr := ptr + Stride(size);
        left := left - 1;
      }
    }

    /** handle_oml_measure: the rows depend on the frame alone, not on what the buffers held before. */
    method HandleOmlMeasure(data: seq<byte>, len: nat, buf: array<byte>, kind: Kind) returns (ok: bool, rows: seq<Row>)
      requires Valid() && 2 <= |data| && len <= |data| && buf.Length == 12
      modifies buf
      ensures ok <==> LengthOk(data[1], len, MeasureSize(Current(), kind))
      ensures rows == FrameRows(Current(), kind, data, len)
    {
      var size := if kind.OfConsumption? then measLen else 2;
      var num: nat := data[1];
      ok, rows := false, [];
      if len == HEADER + num * Stride(size) {
        RoomIs(data, HEADER, num, size);
        rows := HandleRecords(data, num, size, Word32(data, 2), buf, kind);
        RowsFromVia(Current(), kind, Word32(data, 2), data, HEADER, num);
        ok := true;
      }
    }

    /** handle_measure_pkt, with the measure buffer it declares. */
    method HandleMeasurePkt(p: Packet, clock: (int, int), buf: array<byte>) returns (ret: int, e: Effect)
      requires Valid() && Buffer(p) && buf.Length == 12 && 0 <= clock.1 < MICRO && setTimeRef.Normalised()
      modifies this, setTimeRef, buf
      ensures Valid() && setTimeRef.Normalised() && Current() == NextConfig(old(Current()), p.data)
      ensures e == EffectOf(old(Current()), Instant(clock) - old(setTimeRef.Total()), p)
      ensures setTimeRef.Pair() == NextRef(old(setTimeRef.Pair()), p.data)
      ensures ret == if e == Unhandled then -1 else 0
    {
      var kind := p.data[0];
      ret := 0;
      if kind == ACK_FRAME {
        e := HandleAck(p.data, clock);
      } else if kind == RADIO_SNIFFER_FRAME {
        var r := HandleRadioSniffer(p.data, p.len);
        e := if r.Some? then Sniffed(r.value.0, r.value.1) else BadLength("sniff");
      } else if kind == CONSUMPTION_FRAME || kind == RADIO_MEAS_FRAME {
        var ok, rows := HandleOmlMeasure(p.data, p.len, buf, KindOf(kind));
        e := if ok then Rows(rows) else BadLength(FrameName(KindOf(kind)));
      } else {
        ret, e := -1, Unhandled;
      }
    }
  }

  /** The rows of the records still to be read, one by one. */
  function RowsFrom(g: Config, kind: Kind, ref: nat, data: seq<byte>, ptr: nat, left: nat): (rows: seq<Row>)
    requires g.Valid() && Room(data, ptr, left, MeasureSize(g, kind))
    decreases left
  {
    if left == 0 then []
    else [RowOf(g, kind, ref, RecordAt(data, ptr, MeasureSize(g, kind)))]
         + RowsFrom(g, kind, ref, data, ptr + Stride(MeasureSize(g, kind)), left - 1)
  }

  /** The same by way of the list of records. */
  function RowsVia(g: Config, kind: Kind, ref: nat, data: seq<byte>, ptr: nat, left: nat): (rows: seq<Row>)
    requires g.Valid() && Room(data, ptr, left, MeasureSize(g, kind))
  {
    RowsOf(g, kind, ref, ReadRecords(data, ptr, left, MeasureSize(g, kind)))
  }

  lemma RowsCons(g: Config, kind: Kind, ref: nat, r: Record, rest: seq<Record>)
    requires g.Valid() && |r.value| == MeasureSize(g, kind)
    requires forall i :: 0 <= i < |rest| ==> |rest[i].value| == MeasureSize(g, kind)
    ensures RowsOf(g, kind, ref, [r] + rest) == [RowOf(g, kind, ref, r)] + RowsOf(g, kind, ref, rest)
  {
    assert ([r] + rest)[1..] == rest;
  }

  lemma RowsStep(g: Config, kind: Kind, ref: nat, data: seq<byte>, ptr: nat, left: nat, size: nat)
    requires g.Valid() && size == MeasureSize(g, kind) && left > 0 && Room(data, ptr, left, size)
    ensures RowsVia(g, kind, ref, data, ptr, left)
         == [RowOf(g, kind, ref, RecordAt(data, ptr, size))] + RowsVia(g, kind, ref, data, ptr + Stride(size), left - 1)
  {
    var r, rest := RecordAt(data, ptr, size), ReadRecords(data, ptr + Stride(size), left - 1, size);
    assert ReadRecords(data, ptr, left, size) == [r] + rest;
    RowsCons(g, kind, ref, r, rest);
  }

  lemma {:induction false} RowsFromVia(g: Config, kind: Kind, ref: nat, data: seq<byte>, ptr: nat, left: nat)
    requires g.Valid() && Room(data, ptr, left, MeasureSize(g, kind))
    ensures RowsFrom(g, kind, ref, data, ptr, left) == RowsVia(g, kind, ref, data, ptr, left)
    decreases left
  {
    if left > 0 {
      RowsStep(g, kind, ref, data, ptr, left, MeasureSize(g, kind));
      RowsFromVia(g, kind, ref, data, ptr + Stride(MeasureSize(g, kind)), left - 1);
    }
  }

  /** extract_data into the measure buffer: the bytes after the measure stay as they were. */
  method ExtractData(buf: array<byte>, value: seq<byte>)
    requires |value| <= buf.Length
    modifies buf
    ensures buf[..] == value + old(buf[..])[|value|..]
  {
    var i := 0;
    while i < |value|
      invariant 0 <= i <= |value|
      invariant forall k :: 0 <= k < i ==> buf[k] == value[k]
      invariant forall k :: i <= k < buf.Length ==> buf[k] == old(buf[k])
    {
      buf[i] := value[i];
      i := i + 1;
    }
  }

  /** The handler sees the record, whatever follows it in its buffer. */
  lemma SameRow(g: Config, kind: Kind, ref: nat, r: Record, buf: seq<byte>)
    requires g.Valid() && |r.value| == MeasureSize(g, kind) && r.value <= buf && |buf| == 12
    ensures RowOf(g, kind, ref, r) == match kind case OfConsumption => ConsumptionOf(g, TimeExtended(ref, r.us), buf)
                                                 case OfRadio => RadioOf(TimeExtended(ref, r.us), buf)
  {
    if kind.OfConsumption? {
      assert forall k :: 0 <= k < g.Values() ==> FloatAt(r.value, k) == FloatAt(buf, k);
    }
  }
}
