/** What a command payload means to the control node: an independent reading of the bytes, with the
    bit fields of constants.h. */
module Device {
  import opened Bytes
  import opened Bits
  import opened Dict
  import opened Channels
  import opened CommandTable
  import opened CommandReader
  import opened Protocol

  datatype Meaning =
    | SetPower(on: bool, alim: string)
    | SetClock(sec: nat, usec: nat)
    | SetNode(archi: string, num: int)
    | SetLed(blink: bool)
    | ConsumptionOff
    | ConsumptionOn(source: string, period: int, average: int, power: bool, voltage: bool, current: bool)
    | RadioOff
    | RadioRssi(channels: seq<int>, period: int, num: int)
    | RadioSniff(channels: seq<int>, period: int)
    | Unknown

  /** The channels whose bit is set, in increasing order. */
  function MaskChannels(flag: nat, from: int): (r: seq<int>)
    requires from >= 0
    decreases LAST_CHANNEL + 1 - from, flag
  {
    if from > LAST_CHANNEL then []
    else (if Bit(flag, from) then [from] else []) + MaskChannels(flag, from + 1)
  }

  function DecodePower(on: bool, alim: byte): (m: Meaning)
  {
    match KeyOf(ALIM_D, alim)
    case Some(s) => SetPower(on, s)
    case None => Unknown
  }

  function DecodeNode(id: nat): (m: Meaning)
  {
    if id / 4096 > 255 then Unknown
    else match KeyOf(ARCHI_D, id / 4096)
      case Some(s) => SetNode(s, id % 4096)
      case None => Unknown
  }

  /** start | source and measures | period and average */
  function DecodeConsumption(state: byte, config0: byte, config1: byte): (m: Meaning)
  {
    if state == STOP then ConsumptionOff
    else if state != START then Unknown
    else
      var source := KeyOf(POWER_SOURCE_D, config0 / 16 * 16);
      if source.None? || config1 % 16 >= 8 || config1 / 16 >= 8 then Unknown
      else ConsumptionOn(source.value, PERIODS[config1 % 16], AVERAGES[config1 / 16],
                         Bit(config0, 0), Bit(config0, 1), Bit(config0, 2))
  }

  function Decode(p: seq<byte>): (m: Meaning)
  {
    if p == [] then Unknown
    else if p[0] == OPEN_NODE_START && |p| == 2 then DecodePower(true, p[1])
    else if p[0] == OPEN_NODE_STOP && |p| == 2 then DecodePower(false, p[1])
    else if p[0] == SET_TIME && |p| == 9 then
      SetClock(FromLittleEndian(p[1..5]), FromLittleEndian(p[5..9]))
    else if p[0] == SET_NODE_ID && |p| == 3 then DecodeNode(FromLittleEndian(p[1..3]))
    else if p == [GREEN_LED_ON] then SetLed(false)
    else if p == [GREEN_LED_BLINK] then SetLed(true)
    else if p == [CONFIG_RADIO_STOP] then RadioOff
    else if p[0] == CONFIG_CONSUMPTION && |p| == 4 then DecodeConsumption(p[1], p[2], p[3])
    else if p[0] == CONFIG_RADIO_MEAS && |p| == 8 then
      RadioRssi(MaskChannels(FromLittleEndian(p[1..5]), FIRST_CHANNEL), FromLittleEndian(p[5..7]),
                FromLittleEndian(p[7..8]))
    else if p[0] == CONFIG_RADIO_SNIFFER && |p| == 7 then
      RadioSniff(MaskChannels(FromLittleEndian(p[1..5]), FIRST_CHANNEL), FromLittleEndian(p[5..7]))
    else Unknown
  }

  /** What a request asks for, read off the Python objects. */
  function Intended(req: Request, now: Now): (m: Meaning)
  {
    match req
    case Power(on, alim) => SetPower(on, alim)
    case Time => SetClock(now.sec, now.usec)
    case NodeNumber(archi, num) => SetNode(archi, num)
    case LedOn => SetLed(false)
    case LedBlink => SetLed(true)
    case Monitor(None) => ConsumptionOff
    case Monitor(Some(c)) =>
      if c.power == 0 && c.voltage == 0 && c.current == 0 then ConsumptionOff
      else ConsumptionOn(c.source, c.period, c.average, c.power != 0, c.voltage != 0, c.current != 0)
    case RadioConfig(None) => RadioOff
    case RadioConfig(Some(Rssi(channels, period, num))) =>
      RadioRssi(Sorted(ToSet(channels), FIRST_CHANNEL), period, num)
    case RadioConfig(Some(Sniffer(channels, period))) =>
      RadioSniff(Sorted(ToSet(channels), FIRST_CHANNEL), period)
  }

  // ----- Reading back single fields -------------------------------------------------------------

  lemma {:induction false} MaskIsSorted(flag: nat, s: set<int>, from: int)
    requires from >= 0 && forall c: nat :: Bit(flag, c) <==> c in s
    ensures MaskChannels(flag, from) == Sorted(s, from)
    decreases LAST_CHANNEL + 1 - from
  {
    if from <= LAST_CHANNEL {
      assert Bit(flag, from) <==> from in s;
      MaskIsSorted(flag, s, from + 1);
    }
  }

  /** A printed channel list, parsed into a mask, gives the channels back. */
  lemma MaskOfSet(s: set<int>)
    requires ChannelSet(s)
    ensures MaskChannels(ChannelsFlag(ListText(s)), FIRST_CHANNEL) == Sorted(s, FIRST_CHANNEL)
  {
    var flag := ChannelsFlag(ListText(s));
    forall c: nat
      ensures Bit(flag, c) <==> c in s
    {
      ChannelSetAsBitmask(s, c);
    }
    MaskIsSorted(flag, s, FIRST_CHANNEL);
  }

  lemma LowBits(x: nat)
    ensures Bit(x, 0) == (x % 2 == 1) && Bit(x, 1) == (x / 2 % 2 == 1) && Bit(x, 2) == (x / 4 % 2 == 1)
  {
    assert Bit(x, 2) == Bit(x / 2, 1) && Bit(x / 2, 1) == Bit(x / 2 / 2, 0);
  }

  lemma Or1(x: byte, y: byte)
    requires x % 2 == 0 && (y == 0 || y == 1)
    ensures Or8(x, y) == x + y
  {
    LowBits(x);
    OrZero(x);
    OrClearBit(x, 0);
  }

  lemma Or2(x: byte, y: byte)
    requires x / 2 % 2 == 0 && (y == 0 || y == 2)
    ensures Or8(x, y) == x + y
  {
    LowBits(x);
    OrZero(x);
    OrClearBit(x, 1);
  }

  lemma Or4(x: byte, y: byte)
    requires x / 4 % 2 == 0 && (y == 0 || y == 4)
    ensures Or8(x, y) == x + y
  {
    LowBits(x);
    OrZero(x);
    assert Pow2(2) == 4;
    OrClearBit(x, 2);
  }

  lemma FreeBits(source: byte, p: byte, v: byte)
    requires source == 0x10 || source == 0x20 || source == 0x40
    requires (p == 0 || p == 1) && (v == 0 || v == 2)
    ensures source % 2 == 0 && (source + p) / 2 % 2 == 0 && source + p + v < 256 && (source + p + v) / 4 % 2 == 0
  {
  }

  /** The measure flags and the power source share a byte without interfering. */
  lemma Config0Fields(source: byte, p: byte, v: byte, c: byte)
    requires source == 0x10 || source == 0x20 || source == 0x40
    requires (p == 0 || p == 1) && (v == 0 || v == 2) && (c == 0 || c == 4)
    ensures Or8(Or8(Or8(source, p), v), c) == source + p + v + c
  {
    FreeBits(source, p, v);
    Or1(source, p);
    Or2(source + p, v);
    Or4(source + p + v, c);
  }

  lemma Config1Fields(period: byte, average: byte)
    requires period < 8 && average < 8
    ensures Or8(Or8(0, period), 16 * average) == period + 16 * average
  {
    OrZero(period);
    assert Pow2(4) == 16;
    OrDisjoint(average, period, 4);
  }
}
