/** control_node_serial/src/measures_handler.c: length-checked records whose size is set by earlier
    acknowledgements. A float is its four raw bytes and NAN is None. */
module Measures {
  import opened Bytes
  import opened Dict
  import opened CommandTable
  import opened TimeRef

  // ----- Frames of records ----------------------------------------------------------------------

  /** One record: microseconds since the frame's time reference, and the raw measure. */
  datatype Record = Record(us: nat, value: seq<byte>)

  const HEADER := 6

  function Stride(size: nat): (n: nat)
  {
    4 + size
  }

  /** The length test of handle_oml_measure. */
  predicate LengthOk(num: byte, len: nat, size: nat)
  {
    len == HEADER + num * Stride(size)
  }

  function Word32(data: seq<byte>, at: nat): (n: nat)
    requires at + 4 <= |data|
  {
    FromLittleEndian(data[at..at + 4])
  }

  function RecordAt(data: seq<byte>, at: nat, size: nat): (r: Record)
    requires at + Stride(size) <= |data|
  {
    Record(Word32(data, at), data[at + 4..at + Stride(size)])
  }

  /** `num` records fit between `at` and the end of the buffer. */
  predicate Room(data: seq<byte>, at: nat, num: nat, size: nat)
    decreases num
  {
    if num == 0 then at <= |data| else at + Stride(size) <= |data| && Room(data, at + Stride(size), num - 1, size)
  }

  lemma {:induction false} RoomIs(data: seq<byte>, at: nat, num: nat, size: nat)
    ensures Room(data, at, num, size) <==> at + num * Stride(size) <= |data|
    decreases num
  {
    if num > 0 {
      RoomIs(data, at + Stride(size), num - 1, size);
      assert num * Stride(size) == Stride(size) + (num - 1) * Stride(size);
    }
  }

  /** The records read from position `at` on. */
  function ReadRecords(data: seq<byte>, at: nat, num: nat, size: nat): (r: seq<Record>)
    requires Room(data, at, num, size)
    ensures |r| == num
    ensures forall i :: 0 <= i < num ==> |r[i].value| == size
    decreases num
  {
    if num == 0 then []
    else [RecordAt(data, at, size)] + ReadRecords(data, at + Stride(size), num - 1, size)
  }

  /** What the device sends. */
  function WriteRecords(records: seq<Record>): (r: seq<byte>)
  {
    if records == [] then []
    else LittleEndian(records[0].us, 4) + records[0].value + WriteRecords(records[1..])
  }

  function WriteFrame(kind: byte, ref: nat, records: seq<Record>): (r: seq<byte>)
    requires |records| <= 255
  {
    [kind, |records|] + LittleEndian(ref, 4) + WriteRecords(records)
  }

  predicate Sized(records: seq<Record>, size: nat)
  {
    forall i :: 0 <= i < |records| ==> |records[i].value| == size && records[i].us < 0x1_0000_0000
  }

  lemma {:induction false} WrittenLength(records: seq<Record>, size: nat)
    requires Sized(records, size)
    ensures |WriteRecords(records)| == |records| * Stride(size)
  {
    if records != [] {
      WrittenLength(records[1..], size);
      assert |records| * Stride(size) == Stride(size) + (|records| - 1) * Stride(size);
    }
  }

  lemma Word32RoundTrip(x: nat)
    requires x < 0x1_0000_0000
    ensures FromLittleEndian(LittleEndian(x, 4)) == x
  {
    assert Pow256(4) == 256 * Pow256(3) && Pow256(3) == 256 * Pow256(2) && Pow256(2) == 65536;
    LittleEndianRoundTrip(x, 4);
  }

  lemma FirstRecord(data: seq<byte>, at: nat, r: Record, tail: seq<byte>)
    requires at <= |data| && r.us < 0x1_0000_0000 && data[at..] == LittleEndian(r.us, 4) + r.value + tail
    ensures at + Stride(|r.value|) <= |data| && data[at + Stride(|r.value|)..] == tail
    ensures RecordAt(data, at, |r.value|) == r
  {
    var s := data[at..];
    assert data[at..at + 4] == s[..4] == LittleEndian(r.us, 4);
    assert data[at + 4..at + Stride(|r.value|)] == s[4..Stride(|r.value|)] == r.value;
    assert data[at + Stride(|r.value|)..] == s[Stride(|r.value|)..];
    Word32RoundTrip(r.us);
  }

  /** Reading back written records, wherever they stand in the buffer. */
  lemma {:induction false} RecordsRoundTrip(data: seq<byte>, at: nat, records: seq<Record>, size: nat, post: seq<byte>)
    requires Sized(records, size) && at <= |data| && data[at..] == WriteRecords(records) + post
    ensures Room(data, at, |records|, size)
    ensures ReadRecords(data, at, |records|, size) == records
    decreases |records|
  {
    if records != [] {
      var tail := WriteRecords(records[1..]) + post;
      assert data[at..] == LittleEndian(records[0].us, 4) + records[0].value + tail;
      FirstRecord(data, at, records[0], tail);
      RecordsRoundTrip(data, at + Stride(size), records[1..], size, post);
    }
  }

  /** A written frame of at most 255 records passes the length test and reads back, whatever follows it in
      the buffer. */
  lemma FrameRoundTrip(kind: byte, ref: nat, records: seq<Record>, size: nat, junk: seq<byte>)
    requires |records| <= 255 && Sized(records, size) && ref < 0x1_0000_0000
    ensures var frame := WriteFrame(kind, ref, records);
            var data := frame + junk;
            && data[1] == |records| && LengthOk(data[1], |frame|, size)
            && Word32(data, 2) == ref
            && Room(data, HEADER, |records|, size)
            && ReadRecords(data, HEADER, |records|, size) == records
  {
    var data := WriteFrame(kind, ref, records) + junk;
    assert data[HEADER..] == WriteRecords(records) + junk;
    RecordsRoundTrip(data, HEADER, records, size, junk);
    WrittenLength(records, size);
    assert data[2..6] == LittleEndian(ref, 4);
    Word32RoundTrip(ref);
  }

  lemma Cancel(n: nat, a: nat, b: nat)
    requires n > 0
    ensures n * a == n * b <==> a == b
  {
    if a < b {
      Grows(n, a, b);
    } else if b < a {
      Grows(n, b, a);
    }
  }

  lemma Grows(n: nat, a: nat, b: nat)
    requires n > 0 && a < b
    ensures n * a < n * b
  {
  }

  /** A non-empty frame is accepted exactly under the record size it was written for. */
  lemma AcceptedSize(kind: byte, ref: nat, records: seq<Record>, size: nat, other: nat)
    requires 0 < |records| <= 255 && Sized(records, size)
    ensures LengthOk(|records|, |WriteFrame(kind, ref, records)|, other) <==> other == size
  {
    WrittenLength(records, size);
    Cancel(|records|, Stride(size), Stride(other));
  }

  // ----- Rows -----------------------------------------------------------------------------------

  datatype Time = Time(sec: nat, usec: nat)

  datatype Row =
    | ConsumptionRow(time: Time, power: Option<seq<byte>>, voltage: Option<seq<byte>>, current: Option<seq<byte>>)
    | RadioRow(time: Time, channel: byte, rssi: int)

  /** calculate_time_extended, with a 64-bit tv_sec. */
  function TimeExtended(ref: nat, us: nat): (t: Time)
    ensures t.usec < MICRO && t.sec * MICRO + t.usec == ref * MICRO + us
  {
    Time(ref + us / MICRO, us % MICRO)
  }

  /** int8_t from its byte. */
  function Signed8(b: byte): (n: int)
    ensures -128 <= n < 128 && n % 256 == b
  {
    if b < 128 then b else b - 256
  }

  function Flag(b: bool): (n: nat)
  {
    if b then 1 else 0
  }

  /** mh_state.consumption, as a value. */
  datatype Config = Config(p: bool, v: bool, c: bool, source: int, measLen: nat) {
    function Values(): (n: nat)
    {
      Flag(p) + Flag(v) + Flag(c)
    }

    predicate Valid()
    {
      measLen == 4 * Values()
    }
  }

  /** The k-th float of a measure. */
  function FloatAt(value: seq<byte>, k: nat): (f: seq<byte>)
    requires 4 * k + 4 <= |value|
  {
    value[4 * k..4 * k + 4]
  }

  /** Each enabled column takes the next float, the others are NAN. */
  function ConsumptionOf(g: Config, time: Time, value: seq<byte>): (r: Row)
    requires g.Valid() && |value| >= g.measLen
  {
    ConsumptionRow(time, if g.p then Some(FloatAt(value, 0)) else None,
                   if g.v then Some(FloatAt(value, Flag(g.p))) else None,
                   if g.c then Some(FloatAt(value, Flag(g.p) + Flag(g.v))) else None)
  }

  function RadioOf(time: Time, value: seq<byte>): (r: Row)
    requires |value| >= 2
  {
    RadioRow(time, value[0], Signed8(value[1]))
  }

  datatype Kind = OfConsumption | OfRadio

  function MeasureSize(g: Config, kind: Kind): (n: nat)
  {
    match kind case OfConsumption => g.measLen case OfRadio => 2
  }

  function RowOf(g: Config, kind: Kind, ref: nat, r: Record): (row: Row)
    requires g.Valid() && |r.value| == MeasureSize(g, kind)
  {
    match kind
    case OfConsumption => ConsumptionOf(g, TimeExtended(ref, r.us), r.value)
    case OfRadio => RadioOf(TimeExtended(ref, r.us), r.value)
  }

  function RowsOf(g: Config, kind: Kind, ref: nat, records: seq<Record>): (rows: seq<Row>)
    requires g.Valid() && forall i :: 0 <= i < |records| ==> |records[i].value| == MeasureSize(g, kind)
    ensures |rows| == |records|
    ensures forall i :: 0 <= i < |records| ==> rows[i] == RowOf(g, kind, ref, records[i])
  {
    if records == [] then [] else [RowOf(g, kind, ref, records[0])] + RowsOf(g, kind, ref, records[1..])
  }

  /** What a frame of `len` bytes at the head of the buffer produces: nothing unless its length is right. */
  function FrameRows(g: Config, kind: Kind, data: seq<byte>, len: nat): (rows: seq<Row>)
    requires g.Valid() && 2 <= |data| && len <= |data|
  {
    if !LengthOk(data[1], len, MeasureSize(g, kind)) then []
    else
      RoomIs(data, HEADER, data[1], MeasureSize(g, kind));
      RowsOf(g, kind, Word32(data, 2), ReadRecords(data, HEADER, data[1], MeasureSize(g, kind)))
  }

  /** A written frame gives the rows of its records, whatever follows it. */
  lemma RowsRoundTrip(g: Config, kind: Kind, frame: seq<byte>, code: byte, ref: nat, records: seq<Record>,
                      junk: seq<byte>)
    requires g.Valid() && |records| <= 255 && Sized(records, MeasureSize(g, kind)) && ref < 0x1_0000_0000
    requires frame == WriteFrame(code, ref, records)
    ensures FrameRows(g, kind, frame + junk, |frame|) == RowsOf(g, kind, ref, records)
  {
    FrameRoundTrip(code, ref, records, MeasureSize(g, kind), junk);
  }

  // ----- Samples: a round trip through the columns ----------------------------------------------

  /** What the device measured: the present values, four bytes each. */
  datatype Sample = Sample(us: nat, power: Option<seq<byte>>, voltage: Option<seq<byte>>, current: Option<seq<byte>>)

  predicate Float(f: Option<seq<byte>>, present: bool)
  {
    f.Some? == present && (f.Some? ==> |f.value| == 4)
  }

  /** The sample has the columns of the configuration. */
  predicate Fits(s: Sample, g: Config)
  {
    s.us < 0x1_0000_0000 && Float(s.power, g.p) && Float(s.voltage, g.v) && Float(s.current, g.c)
  }

  function Raw(f: Option<seq<byte>>): (r: seq<byte>)
  {
    match f case Some(b) => b case None => []
  }

  function RecordOf(s: Sample): (r: Record)
  {
    Record(s.us, Raw(s.power) + Raw(s.voltage) + Raw(s.current))
  }

  function RecordsOf(samples: seq<Sample>): (r: seq<Record>)
    ensures |r| == |samples| && forall i :: 0 <= i < |r| ==> r[i] == RecordOf(samples[i])
  {
    if samples == [] then [] else [RecordOf(samples[0])] + RecordsOf(samples[1..])
  }

  function SampleRow(ref: nat, s: Sample): (r: Row)
  {
    ConsumptionRow(TimeExtended(ref, s.us), s.power, s.voltage, s.current)
  }

  lemma SampleColumns(g: Config, s: Sample, time: Time)
    requires g.Valid() && Fits(s, g)
    ensures |RecordOf(s).value| == g.measLen
    ensures ConsumptionOf(g, time, RecordOf(s).value) == ConsumptionRow(time, s.power, s.voltage, s.current)
  {
    var value := RecordOf(s).value;
    assert g.p ==> FloatAt(value, 0) == s.power.value;
    assert g.v ==> FloatAt(value, Flag(g.p)) == s.voltage.value;
    assert g.c ==> FloatAt(value, Flag(g.p) + Flag(g.v)) == s.current.value;
  }

  /** Every frame of samples taken under the current configuration comes out as exactly those samples, in
      order, in their own columns, with their absolute time. */
  lemma SamplesRoundTrip(g: Config, ref: nat, samples: seq<Sample>, junk: seq<byte>)
    requires g.Valid() && ref < 0x1_0000_0000 && |samples| <= 255
    requires forall i :: 0 <= i < |samples| ==> Fits(samples[i], g)
    ensures var frame := WriteFrame(CONSUMPTION_FRAME, ref, RecordsOf(samples));
            var rows := FrameRows(g, OfConsumption, frame + junk, |frame|);
            && |rows| == |samples|
            && forall i :: 0 <= i < |samples| ==> rows[i] == SampleRow(ref, samples[i])
  {
    var records := RecordsOf(samples);
    forall i | 0 <= i < |samples|
      ensures |records[i].value| == g.measLen
      ensures ConsumptionOf(g, TimeExtended(ref, samples[i].us), records[i].value) == SampleRow(ref, samples[i])
    {
      SampleColumns(g, samples[i], TimeExtended(ref, samples[i].us));
    }
    RowsRoundTrip(g, OfConsumption, WriteFrame(CONSUMPTION_FRAME, ref, records), CONSUMPTION_FRAME, ref, records, junk);
  }

  /** A non-empty frame of samples with k values each is accepted iff the configuration has k values. */
  lemma SamplesAccepted(g: Config, taken: Config, ref: nat, samples: seq<Sample>)
    requires g.Valid() && taken.Valid() && 0 < |samples| <= 255
    requires forall i :: 0 <= i < |samples| ==> Fits(samples[i], taken)
    ensures var frame := WriteFrame(CONSUMPTION_FRAME, ref, RecordsOf(samples));
            LengthOk(|samples|, |frame|, g.measLen) <==> g.Values() == taken.Values()
  {
    forall i | 0 <= i < |samples|
      ensures |RecordsOf(samples)[i].value| == taken.measLen
    {
      SampleColumns(taken, samples[i], Time(0, 0));
    }
    AcceptedSize(CONSUMPTION_FRAME, ref, RecordsOf(samples), taken.measLen, g.measLen);
  }

  // ----- Radio measures -------------------------------------------------------------------------

  datatype RadioSample = RadioSample(us: nat, channel: byte, rssi: int)

  predicate RadioValid(s: RadioSample)
  {
    s.us < 0x1_0000_0000 && -128 <= s.rssi < 128
  }

  function RadioRecord(s: RadioSample): (r: Record)
    ensures |r.value| == 2
  {
    Record(s.us, [s.channel, s.rssi % 256])
  }

  function RadioRecords(samples: seq<RadioSample>): (r: seq<Record>)
    ensures |r| == |samples| && forall i :: 0 <= i < |r| ==> r[i] == RadioRecord(samples[i])
  {
    if samples == [] then [] else [RadioRecord(samples[0])] + RadioRecords(samples[1..])
  }

  function RadioSampleRow(ref: nat, s: RadioSample): (r: Row)
  {
    RadioRow(TimeExtended(ref, s.us), s.channel, s.rssi)
  }

  lemma RadioColumns(g: Config, ref: nat, s: RadioSample)
    requires g.Valid() && RadioValid(s)
    ensures RowOf(g, OfRadio, ref, RadioRecord(s)) == RadioSampleRow(ref, s)
  {
  }

  /** Radio samples come out with their channel and signed strength, under any configuration. */
  lemma RadioRoundTrip(g: Config, ref: nat, samples: seq<RadioSample>, junk: seq<byte>)
    requires g.Valid() && ref < 0x1_0000_0000 && |samples| <= 255
    requires forall i :: 0 <= i < |samples| ==> RadioValid(samples[i])
    ensures var frame := WriteFrame(RADIO_MEAS_FRAME, ref, RadioRecords(samples));
            var rows := FrameRows(g, OfRadio, frame + junk, |frame|);
            && |rows| == |samples|
            && forall i :: 0 <= i < |samples| ==> rows[i] == RadioSampleRow(ref, samples[i])
  {
    var records := RadioRecords(samples);
    forall i | 0 <= i < |samples|
      ensures RowOf(g, OfRadio, ref, RadioRecord(samples[i])) == RadioSampleRow(ref, samples[i])
    {
      RadioColumns(g, ref, samples[i]);
    }
    RowsRoundTrip(g, OfRadio, WriteFrame(RADIO_MEAS_FRAME, ref, records), RADIO_MEAS_FRAME, ref, records, junk);
  }
}
