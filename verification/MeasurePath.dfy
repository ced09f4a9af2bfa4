/** From a consumption profile to the rows of its measures, over the bytes that the device sends. */
module MeasurePath {
  import opened Bytes
  import opened Bits
  import opened Framing
  import opened FrameGrammar
  import opened Dict
  import opened CommandTable
  import opened CommandReader
  import opened Measures
  import opened EndToEnd
  import Scanf
  import MH = MeasuresHandler
  import PM = ProfileMeaning
  import P = Protocol
  import D = Device

  lemma ConsumptionFields(p: seq<byte>)
    requires D.Decode(p).ConsumptionOn?
    ensures |p| == 4
    ensures var m := D.Decode(p);
            && m.power == Bit(p[2], 0) && m.voltage == Bit(p[2], 1) && m.current == Bit(p[2], 2)
            && KeyOf(POWER_SOURCE_D, p[2] / 16 * 16) == Some(m.source)
  {
    assert |p| == 4 && p[0] == CONFIG_CONSUMPTION;
  }

  lemma SourceByte(v: byte)
    requires KeyOf(POWER_SOURCE_D, v).Some?
    ensures v < 128
  {
  }

  /** What the measure handler keeps of a configuration byte is what the device reads from it. */
  lemma DecodedConfig(p: seq<byte>)
    requires D.Decode(p).ConsumptionOn?
    ensures |p| == 4
    ensures var m, g := D.Decode(p), MH.ConfigOf(p[2]);
            && g.p == m.power && g.v == m.voltage && g.c == m.current
            && 0 <= g.source < 256 && KeyOf(POWER_SOURCE_D, g.source) == Some(m.source)
  {
    ConsumptionFields(p);
    SourceByte(p[2] / 16 * 16);
    SourceKept(p[2]);
    MH.ConfigBits(p[2]);
  }

  lemma SourceKept(config: byte)
    requires config / 16 * 16 < 128
    ensures config / 16 % 8 * 16 == config / 16 * 16
  {
  }

  /** A sample of the quantities that a profile asks for. */
  predicate Requested(s: Sample, c: P.Consumption)
  {
    s.us < 0x1_0000_0000 && Float(s.power, c.power != 0) && Float(s.voltage, c.voltage != 0)
    && Float(s.current, c.current != 0)
  }

  lemma IntendedOn(c: P.Consumption, req: P.Request, now: Now)
    requires req == P.Monitor(Some(c)) && !(c.power == 0 && c.voltage == 0 && c.current == 0)
    ensures var m := D.Intended(req, now);
            && m.ConsumptionOn? && m.power == (c.power != 0)
            && m.voltage == (c.voltage != 0) && m.current == (c.current != 0)
  {
  }

  lemma ConfigAsRequested(c: P.Consumption, req: P.Request, args: seq<Scanf.Arg>, now: Now, p: seq<byte>)
    requires P.ValidConsumption(c) && PM.FlagsKept(c) && !(c.power == 0 && c.voltage == 0 && c.current == 0)
    requires req == P.Monitor(Some(c)) && PM.Prints(args, req) && p == Compile(Scanf.Line(args), now).bytes
    ensures |p| == 4
    ensures var g := MH.ConfigOf(p[2]);
            g.p == (c.power != 0) && g.v == (c.voltage != 0) && g.c == (c.current != 0)
  {
    IntendedOn(c, req, now);
    PM.ConsumptionMeaning(req, args, now);
    DecodedConfig(p);
  }

  // ----- On the byte stream ---------------------------------------------------------------------

  lemma {:induction false} FramesConcat(a: seq<Item>, b: seq<Item>)
    ensures Frames(a + b) == Frames(a) + Frames(b)
  {
    if a == [] {
      assert a + b == b;
    } else {
      assert (a + b)[1..] == a[1..] + b;
      FramesConcat(a[1..], b);
    }
  }

  /** Frames that acknowledge no consumption configuration, whatever older bytes follow them in the buffer. */
  predicate NoConfig(payload: seq<byte>)
  {
    payload != [] && (payload[0] == ACK_FRAME ==> |payload| >= 2 && payload[1] != CONFIG_CONSUMPTION)
  }

  predicate NoConfigs(payloads: seq<seq<byte>>)
  {
    forall i :: 0 <= i < |payloads| ==> NoConfig(payloads[i])
  }

  lemma RowsEffect(g: Config, elapsed: int, p: Packet)
    requires g.Valid() && MH.Buffer(p) && p.data[0] == CONSUMPTION_FRAME && LengthOk(p.data[1], p.len, g.measLen)
    ensures MH.EffectOf(g, elapsed, p) == MH.Rows(FrameRows(g, OfConsumption, p.data, p.len))
  {
  }

  lemma Split(p: Packet, frame: seq<byte>) returns (junk: seq<byte>)
    requires MH.Buffer(p) && Payload(p) == frame
    ensures p.data == frame + junk && p.len == |frame|
  {
    junk := p.data[p.len..];
  }

  /** Rows of these samples. */
  predicate Yields(e: MH.Effect, ref: nat, samples: seq<Sample>)
  {
    && e.Rows? && |e.rows| == |samples|
    && forall i :: 0 <= i < |samples| ==> e.rows[i] == SampleRow(ref, samples[i])
  }

  /** A packet with a frame of samples is read in the current configuration. */
  lemma SamplesEffect(g: Config, elapsed: int, p: Packet, ref: nat, samples: seq<Sample>, frame: seq<byte>)
    requires g.Valid() && MH.Buffer(p) && ref < 0x1_0000_0000 && |samples| <= 255
    requires forall i :: 0 <= i < |samples| ==> Fits(samples[i], g)
    requires frame == WriteFrame(CONSUMPTION_FRAME, ref, RecordsOf(samples)) && Payload(p) == frame
    ensures Yields(MH.EffectOf(g, elapsed, p), ref, samples)
  {
    var junk := Split(p, frame);
    SamplesLength(g, ref, samples, junk);
    RowsEffect(g, elapsed, p);
    SamplesRoundTrip(g, ref, samples, junk);
  }

  lemma SamplesLength(g: Config, ref: nat, samples: seq<Sample>, junk: seq<byte>)
    requires g.Valid() && ref < 0x1_0000_0000 && |samples| <= 255
    requires forall i :: 0 <= i < |samples| ==> Fits(samples[i], g)
    ensures var frame := WriteFrame(CONSUMPTION_FRAME, ref, RecordsOf(samples));
            LengthOk((frame + junk)[1], |frame|, g.measLen)
  {
    forall i | 0 <= i < |samples|
      ensures |RecordsOf(samples)[i].value| == g.measLen
    {
      SampleColumns(g, samples[i], Time(0, 0));
    }
    FrameRoundTrip(CONSUMPTION_FRAME, ref, RecordsOf(samples), g.measLen, junk);
  }

  /** A run of packets: some, an acknowledgement of a configuration byte, and others that acknowledge none. */
  lemma ConfigFromPayloads(g: Config, packets: seq<Packet>, n: nat, config: byte)
    requires MH.Buffers(packets) && n < |packets| && Payload(packets[n]) == [ACK_FRAME, CONFIG_CONSUMPTION, config]
    requires forall i :: n < i < |packets| ==> NoConfig(Payload(packets[i]))
    ensures MH.ConfigAfter(g, packets) == MH.ConfigOf(config)
  {
    var ack, after := packets[n], packets[n + 1..];
    assert Payload(ack)[0] == ack.data[0] && Payload(ack)[1] == ack.data[1] && Payload(ack)[2] == ack.data[2];
    forall i | 0 <= i < |after|
      ensures !MH.Configures(after[i].data)
    {
      var p := Payload(packets[n + 1 + i]);
      assert NoConfig(p) && p[0] == after[i].data[0];
    }
    MH.LastAckWins(g, packets[..n], ack, after);
    assert packets == packets[..n] + ([ack] + after);
  }

  /** The packets of what the device sends. */
  lemma SentPackets(g: Config, packets: seq<Packet>, before: seq<Item>, config: byte, after: seq<Item>,
                    sample: seq<byte>)
    requires MH.Buffers(packets) && Payloads(packets) == Frames(Sent(before, config, after, sample))
    requires NoConfigs(Frames(after))
    ensures packets != [] && Payload(packets[|packets| - 1]) == sample
    ensures MH.ConfigAfter(g, packets[..|packets| - 1]) == MH.ConfigOf(config)
  {
    SentFrames(before, config, after, sample);
    SameLength(packets);
    var n, last := |Frames(before)|, |packets| - 1;
    forall i | 0 <= i < |packets|
      ensures Payload(packets[i]) == Payloads(packets)[i]
    {
      PayloadsAt(packets, i);
    }
    forall i | n < i < last
      ensures NoConfig(Payload(packets[i]))
    {
      assert Payloads(packets)[i] == Frames(after)[i - n - 1];
    }
    ConfigFromPayloads(g, packets[..last], n, config);
  }

  /** The device acknowledges a configuration, sends anything that acknowledges no other, and then a frame of samples
      taken under it. Whatever came before, whatever the noise and the chunks, the last packet handed to the measure
      handler yields exactly those samples. */
  lemma SamplesOnTheWire(g: Config, config: byte, before: seq<Item>, after: seq<Item>, ref: nat, samples: seq<Sample>,
                         sample: seq<byte>, s: Rx, chunks: seq<seq<byte>>, elapsed: int) returns (packets: seq<Packet>)
    requires g.Valid() && ref < 0x1_0000_0000 && |samples| <= 255
    requires forall i :: 0 <= i < |samples| ==> Fits(samples[i], MH.ConfigOf(config))
    requires sample == WriteFrame(CONSUMPTION_FRAME, ref, RecordsOf(samples))
    requires AllWellFormed(Sent(before, config, after, sample)) && NonEmpty(Sent(before, config, after, sample))
    requires NoConfigs(Frames(after)) && s.Valid() && s.phase == Idle && s.out == []
    requires Flatten(chunks) == Wire(Sent(before, config, after, sample))
    ensures packets == RunChunks(s, chunks).out && packets != [] && MH.Buffers(packets)
    ensures var last := |packets| - 1;
            Yields(MH.EffectOf(MH.ConfigAfter(g, packets[..last]), elapsed, packets[last]), ref, samples)
  {
    packets := Delivered(s, Sent(before, config, after, sample), chunks);
    SentPackets(g, packets, before, config, after, sample);
    SamplesEffect(MH.ConfigOf(config), elapsed, packets[|packets| - 1], ref, samples, sample);
  }

  /** The same for the configuration that a profile compiles to and samples of the quantities it asks for. */
  lemma RequestedMeasuresOnTheWire(c: P.Consumption, args: seq<Scanf.Arg>, now: Now, payload: seq<byte>, config: byte,
                                   g: Config, before: seq<Item>, after: seq<Item>, ref: nat, samples: seq<Sample>,
                                   sample: seq<byte>, s: Rx, chunks: seq<seq<byte>>, elapsed: int)
    returns (packets: seq<Packet>)
    requires P.ValidConsumption(c) && PM.FlagsKept(c) && !(c.power == 0 && c.voltage == 0 && c.current == 0)
    requires PM.Prints(args, P.Monitor(Some(c))) && payload == Compile(Scanf.Line(args), now).bytes
    requires |payload| == 4 ==> payload[2] == config
    requires g.Valid() && ref < 0x1_0000_0000 && |samples| <= 255
    requires forall i :: 0 <= i < |samples| ==> Requested(samples[i], c)
    requires sample == WriteFrame(CONSUMPTION_FRAME, ref, RecordsOf(samples))
    requires AllWellFormed(Sent(before, config, after, sample)) && NonEmpty(Sent(before, config, after, sample))
    requires NoConfigs(Frames(after)) && s.Valid() && s.phase == Idle && s.out == []
    requires Flatten(chunks) == Wire(Sent(before, config, after, sample))
    ensures packets == RunChunks(s, chunks).out && packets != [] && MH.Buffers(packets)
    ensures var last := |packets| - 1;
            Yields(MH.EffectOf(MH.ConfigAfter(g, packets[..last]), elapsed, packets[last]), ref, samples)
  {
    ConfigAsRequested(c, P.Monitor(Some(c)), args, now, payload);
    RequestedFit(c, MH.ConfigOf(config), samples);
    packets := SamplesOnTheWire(g, config, before, after, ref, samples, sample, s, chunks, elapsed);
  }

  lemma RequestedFit(c: P.Consumption, g: Config, samples: seq<Sample>)
    requires g.p == (c.power != 0) && g.v == (c.voltage != 0) && g.c == (c.current != 0)
    requires forall i :: 0 <= i < |samples| ==> Requested(samples[i], c)
    ensures forall i :: 0 <= i < |samples| ==> Fits(samples[i], g)
  {
    assert forall i :: 0 <= i < |samples| ==> Requested(samples[i], c) && Fits(samples[i], g);
  }

  lemma {:induction false} SameLength(packets: seq<Packet>)
    ensures |Payloads(packets)| == |packets|
  {
    if packets != [] { SameLength(packets[1..]); }
  }

  /** What the device sends. */
  function Sent(before: seq<Item>, config: byte, after: seq<Item>, sample: seq<byte>): (items: seq<Item>)
  {
    before + ([Frame([ACK_FRAME, CONFIG_CONSUMPTION, config])] + (after + [Frame(sample)]))
  }

  lemma SentFrames(before: seq<Item>, config: byte, after: seq<Item>, sample: seq<byte>)
    ensures Frames(Sent(before, config, after, sample))
         == Frames(before) + ([[ACK_FRAME, CONFIG_CONSUMPTION, config]] + (Frames(after) + [sample]))
  {
    var ack := Frame([ACK_FRAME, CONFIG_CONSUMPTION, config]);
    FramesConcat(before, [ack] + (after + [Frame(sample)]));
    FramesConcat([ack], after + [Frame(sample)]);
    FramesConcat(after, [Frame(sample)]);
    assert Frames([ack]) == [ack.payload] by { assert [ack][1..] == []; }
    assert Frames([Frame(sample)]) == [sample] by { assert [Frame(sample)][1..] == []; }
  }
}
