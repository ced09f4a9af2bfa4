/** Main results on the command path: which requests the C program accepts, and that the accepted ones mean
    to the device what the Python objects say. */
module ProfileMeaning {
  import opened Bytes
  import opened Bits
  import opened Dict
  import opened Text
  import opened Scanf
  import opened Channels
  import opened CommandTable
  import opened CommandReader
  import opened Selection
  import opened Compilation
  import P = Protocol
  import D = Device

  /** `args` is the command list of the request. */
  predicate Prints(args: seq<Arg>, req: P.Request)
  {
    |args| == |P.Args(req)| && forall i :: 0 <= i < |args| ==> args[i] == P.Args(req)[i]
  }

  lemma CompiledBy(args: seq<Arg>, k: nat, row: nat, val: byte, h: Handler, r: seq<Conv>, e: Encoded, now: Now)
    requires Ready(COMMANDS, args, k, h, r) && e == EncodeArgs(h, r, now)
    requires row < |COMMANDS_D| == 16 && COMMANDS_D[row].str == Show(args[0]) && COMMANDS_D[row].val == val
    requires ' ' !in Show(args[0]) && |Show(args[0])| <= 32
    ensures Compile(Line(args), now) == Encoded(e.ok, [val] + e.bytes)
  {
    RowNamed(Show(args[0]), row, val);
    CompileReady(COMMANDS, COMMANDS_D, args, k, val, h, r, e, now);
  }

  // ----- Power ----------------------------------------------------------------------------------

  /** The supply dictionary through "%8s": "dc_charge", nine characters long, can never be found. */
  lemma AlimLookup(w: string)
    ensures Found(ALIM_D, Cut(w, 8)) <==> w == "dc" || w == "battery"
    ensures w == "dc" || w == "battery" ==> KeyOf(ALIM_D, Val(ALIM_D, w)) == Some(w) && Cut(w, 8) == w
  {
    SmallTablesAreUnique();
    var c := Cut(w, 8);
    assert ALIM_D[0] == Entry("dc", 2) && ALIM_D[1] == Entry("dc_charge", 1) && ALIM_D[2] == Entry("battery", 0);
    if Found(ALIM_D, c) {
      assert Entry(c, Val(ALIM_D, c)) in ALIM_D;
    }
    Inverse(ALIM_D, "dc", 2);
    Inverse(ALIM_D, "battery", 0);
  }

  lemma PowerRow(on: bool)
    ensures |COMMANDS_D| == 16
    ensures var name := if on then "start" else "stop";
            && COMMANDS_D[if on then 1 else 2] == Entry(name, if on then OPEN_NODE_START else OPEN_NODE_STOP)
            && ' ' !in name && |name| <= 32
  {
  }

  lemma PowerCompiles(args: seq<Arg>, on: bool, w: string, e: Encoded, now: Now)
    requires |args| == 2 && args[0] == W(if on then "start" else "stop") && args[1] == W(w) && IsWord(w)
    requires e == EncodeLookup(ALIM_D, Cut(w, 8))
    ensures Compile(Line(args), now) == Encoded(e.ok, [if on then OPEN_NODE_START else OPEN_NODE_STOP] + e.bytes)
  {
    PowerReady(args, on);
    PowerRow(on);
    CompiledBy(args, if on then 0 else 1, if on then 1 else 2,
               if on then OPEN_NODE_START else OPEN_NODE_STOP, Alim, [L, S(Cut(w, 8))], e, now);
  }

  lemma PowerDecodes(on: bool, w: string, p: seq<byte>)
    requires w == "dc" || w == "battery"
    requires p == [if on then OPEN_NODE_START else OPEN_NODE_STOP, Val(ALIM_D, w)]
    ensures D.Decode(p) == D.SetPower(on, w)
  {
    AlimLookup(w);
  }

  lemma PowerMeaning(req: P.Request, args: seq<Arg>, now: Now)
    requires req.Power? && IsWord(req.alim) && Prints(args, req)
    ensures Compile(Line(args), now).ok <==> req.alim == "dc" || req.alim == "battery"
    ensures Compile(Line(args), now).ok ==> D.Decode(Compile(Line(args), now).bytes) == D.Intended(req, now)
  {
    var e := EncodeLookup(ALIM_D, Cut(req.alim, 8));
    PowerCompiles(args, req.on, req.alim, e, now);
    AlimLookup(req.alim);
    if e.ok {
      PowerDecodes(req.on, req.alim, Compile(Line(args), now).bytes);
    }
  }

  // ----- Commands without arguments -------------------------------------------------------------

  /** The rows of the names of these commands. */
  lemma BareRow(name: string, row: nat)
    requires || (row == 3 && name == "set_time")
             || (row == 5 && name == "green_led_on")
             || (row == 6 && name == "green_led_blink")
             || (row == 7 && name == "config_radio_stop")
    ensures |COMMANDS_D| == 16 && COMMANDS_D[row].str == name && ' ' !in name && |name| <= 32
    ensures COMMANDS_D[row].val == match row case 3 => SET_TIME case 5 => GREEN_LED_ON
                                             case 6 => GREEN_LED_BLINK case _ => CONFIG_RADIO_STOP
  {
  }

  lemma NothingEncoded(h: Handler, r: seq<Conv>, now: Now)
    requires h.NoArgs?
    ensures EncodeArgs(h, r, now) == Encoded(true, [])
  {
  }

  lemma LedOnCompiles(h: Handler, args: seq<Arg>, now: Now)
    requires h.NoArgs? && |args| == 1 && args[0] == W("green_led_on")
    ensures Compile(Line(args), now) == Encoded(true, [GREEN_LED_ON])
  {
    BareRow(args[0].word, 5);
    var r := LedOnReady(args);
    NothingEncoded(h, r, now);
    CompiledBy(args, 9, 5, GREEN_LED_ON, h, r, Encoded(true, []), now);
  }

  lemma LedBlinkCompiles(h: Handler, args: seq<Arg>, now: Now)
    requires h.NoArgs? && |args| == 1 && args[0] == W("green_led_blink")
    ensures Compile(Line(args), now) == Encoded(true, [GREEN_LED_BLINK])
  {
    BareRow(args[0].word, 6);
    var r := LedBlinkReady(args);
    NothingEncoded(h, r, now);
    CompiledBy(args, 10, 6, GREEN_LED_BLINK, h, r, Encoded(true, []), now);
  }

  lemma RadioStopCompiles(h: Handler, args: seq<Arg>, now: Now)
    requires h.NoArgs? && |args| == 1 && args[0] == W("config_radio_stop")
    ensures Compile(Line(args), now) == Encoded(true, [CONFIG_RADIO_STOP])
  {
    BareRow(args[0].word, 7);
    var r := RadioStopReady(args);
    NothingEncoded(h, r, now);
    CompiledBy(args, 6, 7, CONFIG_RADIO_STOP, h, r, Encoded(true, []), now);
  }

  lemma BareDecodes()
    ensures D.Decode([GREEN_LED_ON]) == D.SetLed(false) && D.Decode([GREEN_LED_BLINK]) == D.SetLed(true)
    ensures D.Decode([CONFIG_RADIO_STOP]) == D.RadioOff
  {
  }

  lemma LedMeaning(req: P.Request, args: seq<Arg>, now: Now)
    requires (req.LedOn? || req.LedBlink?) && Prints(args, req)
    ensures Compile(Line(args), now).ok
    ensures D.Decode(Compile(Line(args), now).bytes) == D.Intended(req, now)
  {
    BareDecodes();
    if req.LedOn? { LedOnCompiles(NoArgs, args, now); } else { LedBlinkCompiles(NoArgs, args, now); }
  }

  lemma RadioStopMeaning(req: P.Request, args: seq<Arg>, now: Now)
    requires req.RadioConfig? && req.radio.None? && Prints(args, req)
    ensures Compile(Line(args), now).ok
    ensures D.Decode(Compile(Line(args), now).bytes) == D.Intended(req, now)
  {
    assert |args| == 1 && args[0] == W("config_radio_stop");
    BareDecodes();
    RadioStopCompiles(NoArgs, args, now);
  }

  lemma TimeEncodes(h: Handler, r: seq<Conv>, now: Now)
    requires h.SetTime?
    ensures EncodeArgs(h, r, now) == Encoded(true, LittleEndian(now.sec, 4) + LittleEndian(now.usec, 4))
  {
  }

  lemma TimeCompiles(h: Handler, args: seq<Arg>, e: Encoded, now: Now)
    requires h.SetTime? && |args| == 1 && args[0] == W("set_time")
    requires e == Encoded(true, LittleEndian(now.sec, 4) + LittleEndian(now.usec, 4))
    ensures Compile(Line(args), now) == Encoded(true, [SET_TIME] + e.bytes)
  {
    BareRow(args[0].word, 3);
    var r := TimeReady(args);
    TimeEncodes(h, r, now);
    CompiledBy(args, 7, 3, SET_TIME, h, r, e, now);
  }

  lemma TimeDecodes(now: Now, p: seq<byte>)
    requires p == [SET_TIME] + (LittleEndian(now.sec, 4) + LittleEndian(now.usec, 4)) && now.usec < 1_000_000
    ensures D.Decode(p) == D.SetClock(now.sec, now.usec) <==> now.sec < 0x1_0000_0000
  {
    assert p[1..5] == LittleEndian(now.sec, 4) && p[5..9] == LittleEndian(now.usec, 4);
    Width32();
    LittleEndianRoundTrip(now.usec, 4);
    FromLittleEndianBound(LittleEndian(now.sec, 4));
    if now.sec < 0x1_0000_0000 { LittleEndianRoundTrip(now.sec, 4); }
  }

  /** The clock is sent exactly as long as the seconds fit in 32 bits. */
  lemma TimeMeaning(req: P.Request, args: seq<Arg>, now: Now)
    requires req.Time? && now.usec < 1_000_000 && Prints(args, req)
    ensures Compile(Line(args), now).ok
    ensures D.Decode(Compile(Line(args), now).bytes) == D.Intended(req, now) <==> now.sec < 0x1_0000_0000
  {
    var e := Encoded(true, LittleEndian(now.sec, 4) + LittleEndian(now.usec, 4));
    TimeDecodes(now, [SET_TIME] + e.bytes);
    assert D.Intended(req, now) == D.SetClock(now.sec, now.usec);
    TimeCompiles(SetTime, args, e, now);
  }

  // ----- Node number ----------------------------------------------------------------------------

  lemma NodeRow(name: string)
    requires name == "set_node_id"
    ensures |COMMANDS_D| == 16 && COMMANDS_D[4].str == name && COMMANDS_D[4].val == SET_NODE_ID
    ensures ' ' !in name && |name| <= 32
  {
  }

  lemma NodeCompiles(args: seq<Arg>, r: seq<Conv>, e: Encoded, now: Now)
    requires |args| == 3 && args[0] == W("set_node_id") && args[1].W? && args[2].N?
    requires IsWord(args[1].word) && |args[1].word| <= 8
    requires r == [L, S(args[1].word), I(ToInt32(args[2].num))] && e == EncodeArgs(SetNodeId, r, now)
    ensures Compile(Line(args), now) == Encoded(e.ok, [SET_NODE_ID] + e.bytes)
  {
    NodeRow(args[0].word);
    NodeReady(args);
    CompiledBy(args, 8, 4, SET_NODE_ID, SetNodeId, r, e, now);
  }

  lemma ArchiLookup(w: string)
    requires w == "m3" || w == "a8"
    ensures IsWord(w) && |w| == 2 && Found(ARCHI_D, w) && Val(ARCHI_D, w) < 16
    ensures KeyOf(ARCHI_D, Val(ARCHI_D, w)) == Some(w)
  {
    SmallTablesAreUnique();
    assert ARCHI_D[0] == Entry("m3", 3) && ARCHI_D[1] == Entry("a8", 8);
    Inverse(ARCHI_D, "m3", 3);
    Inverse(ARCHI_D, "a8", 8);
  }

  lemma NodeDecodes(id: nat, p: seq<byte>)
    requires id < 65536 && p == [SET_NODE_ID] + LittleEndian(id, 2)
    ensures D.Decode(p) == D.DecodeNode(id)
  {
    TailOfThree(p, SET_NODE_ID, LittleEndian(id, 2));
    LittleEndianTruncates16(id);
  }

  lemma TailOfThree(p: seq<byte>, x: byte, s: seq<byte>)
    requires |s| == 2 && p == [x] + s
    ensures |p| == 3 && p[0] == x && p[1..3] == s
  {
  }

  lemma NodeIdParts(archi: byte, n: nat)
    requires archi < 16
    ensures NodeId(archi, n) / 4096 == archi && NodeId(archi, n) % 4096 == n % 4096
  {
  }

  lemma LowTwelveBits(num: nat)
    ensures ToInt32(num) % 0x1_0000_0000 % 65536 % 4096 == num <==> num < 4096
  {
  }

  lemma NodeIdFields(w: string, num: nat)
    requires w == "m3" || w == "a8"
    ensures var id := NodeId(Val(ARCHI_D, w), ToInt32(num) % 0x1_0000_0000 % 65536);
            D.DecodeNode(id) == D.SetNode(w, num) <==> num < 4096
  {
    ArchiLookup(w);
    NodeIdParts(Val(ARCHI_D, w), ToInt32(num) % 0x1_0000_0000 % 65536);
    LowTwelveBits(num);
  }

  /** The node number is sent exactly when it fits in 12 bits. */
  lemma NodeMeaning(req: P.Request, args: seq<Arg>, now: Now)
    requires req.NodeNumber? && (req.archi == "m3" || req.archi == "a8") && Prints(args, req)
    ensures Compile(Line(args), now).ok
    ensures D.Decode(Compile(Line(args), now).bytes) == D.Intended(req, now) <==> req.num < 4096
  {
    var r := [L, S(req.archi), I(ToInt32(req.num))];
    var e := EncodeNodeId(r);
    ArchiLookup(req.archi);
    NodeCompiles(args, r, e, now);
    NodeIdFields(req.archi, req.num);
    NodeDecodes(NodeId(Val(ARCHI_D, req.archi), ToInt32(req.num) % 0x1_0000_0000 % 65536),
                [SET_NODE_ID] + e.bytes);
  }

  // ----- Radio ----------------------------------------------------------------------------------

  lemma RadioRow(name: string, row: nat)
    requires (row == 8 && name == "config_radio_measure") || (row == 9 && name == "config_radio_sniffer")
    ensures |COMMANDS_D| == 16 && COMMANDS_D[row].str == name && ' ' !in name && |name| <= 32
    ensures COMMANDS_D[row].val == if row == 8 then CONFIG_RADIO_MEAS else CONFIG_RADIO_SNIFFER
  {
  }

  lemma MeasureCompiles(args: seq<Arg>, r: seq<Conv>, e: Encoded, now: Now)
    requires |args| == 4 && args[0] == W("config_radio_measure") && args[1].W? && args[2].N? && args[3].N?
    requires IsWord(args[1].word) && |args[1].word| <= 256
    requires r == [L, S(args[1].word), I(ToInt32(args[2].num)), I(ToInt32(args[3].num))]
    requires e == EncodeArgs(RadioMeasure, r, now)
    ensures Compile(Line(args), now) == Encoded(e.ok, [CONFIG_RADIO_MEAS] + e.bytes)
  {
    RadioRow(args[0].word, 8);
    RadioMeasureReady(args);
    CompiledBy(args, 4, 8, CONFIG_RADIO_MEAS, RadioMeasure, r, e, now);
  }

  lemma SnifferCompiles(args: seq<Arg>, r: seq<Conv>, e: Encoded, now: Now)
    requires |args| == 3 && args[0] == W("config_radio_sniffer") && args[1].W? && args[2].N?
    requires IsWord(args[1].word) && |args[1].word| <= 256
    requires r == [L, S(args[1].word), I(ToInt32(args[2].num))] && e == EncodeArgs(RadioSniffer, r, now)
    ensures Compile(Line(args), now) == Encoded(e.ok, [CONFIG_RADIO_SNIFFER] + e.bytes)
  {
    RadioRow(args[0].word, 9);
    RadioSnifferReady(args);
    CompiledBy(args, 5, 9, CONFIG_RADIO_SNIFFER, RadioSniffer, r, e, now);
  }

  lemma Slices(t: byte, a: seq<byte>, b: seq<byte>, c: seq<byte>, p: seq<byte>)
    requires p == [t] + (a + b + c) && |a| == 4 && |b| == 2
    ensures p[0] == t && |p| == 7 + |c| && p[1..5] == a && p[5..7] == b && p[7..] == c
  {
  }

  /** Reading back a radio measure payload. */
  lemma MeasureDecodes(flag: nat, period: nat, num: nat, p: seq<byte>)
    requires flag < Pow256(4) && num < 256
    requires p == [CONFIG_RADIO_MEAS] + (LittleEndian(flag, 4) + LittleEndian(period, 2) + LittleEndian(num, 1))
    ensures D.Decode(p) == D.RadioRssi(D.MaskChannels(flag, FIRST_CHANNEL), period % 65536, num)
  {
    Slices(CONFIG_RADIO_MEAS, LittleEndian(flag, 4), LittleEndian(period, 2), LittleEndian(num, 1), p);
    LittleEndianRoundTrip(flag, 4);
    LittleEndianTruncates16(period);
    LittleEndianRoundTrip(num, 1);
    assert p[7..8] == p[7..];
  }

  lemma SnifferDecodes(flag: nat, period: nat, p: seq<byte>)
    requires flag < Pow256(4)
    requires p == [CONFIG_RADIO_SNIFFER] + (LittleEndian(flag, 4) + LittleEndian(period, 2))
    ensures D.Decode(p) == D.RadioSniff(D.MaskChannels(flag, FIRST_CHANNEL), period % 65536)
  {
    assert p == [CONFIG_RADIO_SNIFFER] + (LittleEndian(flag, 4) + LittleEndian(period, 2) + []);
    Slices(CONFIG_RADIO_SNIFFER, LittleEndian(flag, 4), LittleEndian(period, 2), [], p);
    LittleEndianRoundTrip(flag, 4);
    LittleEndianTruncates16(period);
  }

  /** The facts about the channel list of a request that its encoding needs. */
  lemma ChannelFacts(channels: seq<int>)
    requires channels != [] && AllChannels(channels)
    ensures var s := P.ToSet(channels);
            var flag := ChannelsFlag(ListText(s));
            && IsWord(ListText(s)) && |ListText(s)| <= 256
            && 0 < flag < Pow256(4)
            && D.MaskChannels(flag, FIRST_CHANNEL) == Sorted(s, FIRST_CHANNEL)
            && (TwoBits(flag) <==> |s| > 1)
  {
    var s := P.ToSet(channels);
    assert channels[0] in s;
    ListTextIsWord(s);
    ChannelSetAsBitmask(s, 0);
    Width32();
    D.MaskOfSet(s);
    SeveralChannels(s);
  }

  lemma LowHalfKept(x: int)
    ensures ToUint32(x) % 65536 == x <==> 0 <= x < 65536
  {
  }

  lemma MeasureFields(list: string, period: int, num: int, e: Encoded)
    requires e == EncodeRadioMeasure([L, S(list), I(ToInt32(period)), I(ToInt32(num))])
    ensures e.ok <==> ChannelsFlag(list) != 0 && ToUint32(period) % 65536 != 0 && ToUint32(num) <= 255
    ensures e.bytes == LittleEndian(ChannelsFlag(list), 4) + LittleEndian(ToUint32(period), 2)
                       + LittleEndian(ToUint32(num), 1)
  {
  }

  lemma RssiEncoded(s: set<int>, list: string, period: int, num: int, e: Encoded, p: seq<byte>)
    requires 0 < ChannelsFlag(list) < Pow256(4)
    requires D.MaskChannels(ChannelsFlag(list), FIRST_CHANNEL) == Sorted(s, FIRST_CHANNEL)
    requires e == EncodeRadioMeasure([L, S(list), I(ToInt32(period)), I(ToInt32(num))])
    requires p == [CONFIG_RADIO_MEAS] + e.bytes
    ensures e.ok <==> ToUint32(period) % 65536 != 0 && ToUint32(num) <= 255
    ensures e.ok ==> D.Decode(p) == D.RadioRssi(Sorted(s, FIRST_CHANNEL), ToUint32(period) % 65536, ToUint32(num))
  {
    MeasureFields(list, period, num, e);
    if e.ok {
      MeasureDecodes(ChannelsFlag(list), ToUint32(period), ToUint32(num), p);
    }
  }

  /** An RSSI request with any period: the C check only looks at the low 16 bits of the period, so it
      accepts larger periods and sends them truncated. */
  lemma RssiMeaning(req: P.Request, args: seq<Arg>, now: Now)
    requires req.RadioConfig? && req.radio.Some? && req.radio.value.Rssi? && Prints(args, req)
    requires req.radio.value.channels != [] && AllChannels(req.radio.value.channels)
    ensures var radio, c := req.radio.value, Compile(Line(args), now);
            && (c.ok <==> ToUint32(radio.period) % 65536 != 0 && ToUint32(radio.num) <= 255)
            && (c.ok ==> (D.Decode(c.bytes) == D.Intended(req, now)
                          <==> 1 <= radio.period < 65536 && 0 <= radio.num < 256))
  {
    var radio := req.radio.value;
    var s := P.ToSet(radio.channels);
    var list := ListText(s);
    ChannelFacts(radio.channels);
    var r := [L, S(list), I(ToInt32(radio.period)), I(ToInt32(radio.num))];
    var e := EncodeRadioMeasure(r);
    RssiEncoded(s, list, radio.period, radio.num, e, [CONFIG_RADIO_MEAS] + e.bytes);
    LowHalfKept(radio.period);
    LowHalfKept(radio.num);
    MeasureCompiles(args, r, e, now);
  }

  lemma SnifferFields(list: string, period: int, e: Encoded)
    requires e == EncodeRadioSniffer([L, S(list), I(ToInt32(period))])
    ensures e.ok <==> ChannelsFlag(list) != 0 && if TwoBits(ChannelsFlag(list))
                      then ToUint32(period) % 65536 != 0 else ToUint32(period) == 0
    ensures e.bytes == LittleEndian(ChannelsFlag(list), 4) + LittleEndian(ToUint32(period), 2)
  {
  }

  lemma SnifferEncoded(s: set<int>, list: string, period: int, e: Encoded, p: seq<byte>)
    requires 0 < ChannelsFlag(list) < Pow256(4) && (TwoBits(ChannelsFlag(list)) <==> |s| > 1)
    requires D.MaskChannels(ChannelsFlag(list), FIRST_CHANNEL) == Sorted(s, FIRST_CHANNEL)
    requires e == EncodeRadioSniffer([L, S(list), I(ToInt32(period))]) && p == [CONFIG_RADIO_SNIFFER] + e.bytes
    ensures e.ok <==> if |s| > 1 then ToUint32(period) % 65536 != 0 else ToUint32(period) == 0
    ensures D.Decode(p) == D.RadioSniff(Sorted(s, FIRST_CHANNEL), ToUint32(period) % 65536)
  {
    SnifferFields(list, period, e);
    SnifferDecodes(ChannelsFlag(list), ToUint32(period), p);
  }

  lemma SnifferRequest(req: P.Request, now: Now, r: seq<Conv>, e: Encoded)
    requires req.RadioConfig? && req.radio.Some? && req.radio.value.Sniffer?
    requires req.radio.value.channels != [] && AllChannels(req.radio.value.channels)
    requires r == [L, S(ListText(P.ToSet(req.radio.value.channels))), I(ToInt32(req.radio.value.period))]
    requires e == EncodeRadioSniffer(r)
    ensures var radio := req.radio.value;
            && IsWord(r[1].str) && |r[1].str| <= 256
            && (e.ok <==> if |P.ToSet(radio.channels)| > 1 then ToUint32(radio.period) % 65536 != 0
                          else ToUint32(radio.period) == 0)
            && (D.Decode([CONFIG_RADIO_SNIFFER] + e.bytes) == D.Intended(req, now) <==> 0 <= radio.period < 65536)
  {
    var radio := req.radio.value;
    ChannelFacts(radio.channels);
    SnifferEncoded(P.ToSet(radio.channels), r[1].str, radio.period, e, [CONFIG_RADIO_SNIFFER] + e.bytes);
    LowHalfKept(radio.period);
  }

  /** A sniffer request is accepted by the C program exactly when the number of distinct channels agrees
      with the period; what is accepted is sent exactly when the period fits in 16 bits. */
  lemma SnifferMeaning(req: P.Request, args: seq<Arg>, now: Now)
    requires req.RadioConfig? && req.radio.Some? && req.radio.value.Sniffer? && Prints(args, req)
    requires req.radio.value.channels != [] && AllChannels(req.radio.value.channels)
    ensures var radio, c := req.radio.value, Compile(Line(args), now);
            && (c.ok <==> if |P.ToSet(radio.channels)| > 1 then ToUint32(radio.period) % 65536 != 0
                          else ToUint32(radio.period) == 0)
            && (c.ok ==> (D.Decode(c.bytes) == D.Intended(req, now) <==> 0 <= radio.period < 65536))
  {
    var radio := req.radio.value;
    var r := [L, S(ListText(P.ToSet(radio.channels))), I(ToInt32(radio.period))];
    var e := EncodeRadioSniffer(r);
    SnifferRequest(req, now, r, e);
    SnifferCompiles(args, r, e, now);
  }

  // ----- Consumption ----------------------------------------------------------------------------

  lemma ConsumptionRow(name: string)
    requires name == "config_consumption_measure"
    ensures |COMMANDS_D| == 16 && COMMANDS_D[10].str == name && ' ' !in name && |name| <= 32
    ensures COMMANDS_D[10].val == CONFIG_CONSUMPTION
  {
  }

  lemma ShortCompiles(args: seq<Arg>, r: seq<Conv>, e: Encoded, now: Now)
    requires |args| == 2 && args[0] == W("config_consumption_measure")
    requires args[1].W? && IsWord(args[1].word) && |args[1].word| <= 8
    requires r == [L, S(args[1].word)] && e == EncodeArgs(Consumption, r, now)
    ensures Compile(Line(args), now) == Encoded(e.ok, [CONFIG_CONSUMPTION] + e.bytes)
  {
    ConsumptionRow(args[0].word);
    ShortReady(args);
    CompiledBy(args, 3, 10, CONFIG_CONSUMPTION, Consumption, r, e, now);
  }

  lemma LongCompiles(args: seq<Arg>, r: seq<Conv>, e: Encoded, now: Now)
    requires LongShape(args) && r == LongConvs(args) && e == EncodeArgs(Consumption, r, now)
    ensures Compile(Line(args), now) == Encoded(e.ok, [CONFIG_CONSUMPTION] + e.bytes)
  {
    ConsumptionRow(args[0].word);
    LongReady(args);
    CompiledBy(args, 2, 10, CONFIG_CONSUMPTION, Consumption, r, e, now);
  }

  lemma StateLookup(w: string)
    requires w == "start" || w == "stop"
    ensures IsWord(w) && Found(STATE_D, w) && Val(STATE_D, w) == if w == "start" then START else STOP
  {
    SmallTablesAreUnique();
    assert STATE_D[0] == Entry("start", START) && STATE_D[1] == Entry("stop", STOP);
    Inverse(STATE_D, "start", START);
    Inverse(STATE_D, "stop", STOP);
  }

  lemma StopEncodes(w: string, r: seq<Conv>, now: Now)
    requires w == "stop" && r == [L, S(w)]
    ensures EncodeArgs(Consumption, r, now) == Encoded(true, [STOP, 0, 0])
  {
    StateLookup(w);
  }

  lemma StopDecodes(p: seq<byte>)
    requires p == [CONFIG_CONSUMPTION] + [STOP, 0, 0]
    ensures D.Decode(p) == D.ConsumptionOff
  {
  }

  lemma StopMeaning(args: seq<Arg>, now: Now)
    requires |args| == 2 && args[0] == W("config_consumption_measure") && args[1] == W("stop")
    ensures Compile(Line(args), now).ok
    ensures D.Decode(Compile(Line(args), now).bytes) == D.ConsumptionOff
  {
    var r, e := [L, S(args[1].word)], Encoded(true, [STOP, 0, 0]);
    StopEncodes(args[1].word, r, now);
    StopDecodes([CONFIG_CONSUMPTION] + e.bytes);
    StateLookup(args[1].word);
    ShortCompiles(args, r, e, now);
  }

  lemma PrintsAs(n: nat, s: string)
    requires 1 <= |s| <= 4 && forall i :: 0 <= i < |s| ==> '0' <= s[i] <= '9'
    requires s[0] != '0' && n == Horner(s)
    ensures DecInt(n) == s
  {
    DecOfValue(s);
    ValueIsHorner(s);
  }

  lemma ValueIsHorner(s: string)
    requires 1 <= |s| <= 4
    ensures Value(s, 10) == Horner(s)
  {
    assert Value(s[..1], 10) == DigitVal(s[0]) by { assert s[..1][..0] == ""; }
    if |s| >= 2 { ValueSnoc(s, 1); }
    if |s| >= 3 { ValueSnoc(s, 2); }
    if |s| >= 4 { ValueSnoc(s, 3); }
    assert s[..|s|] == s;
  }

  lemma ValueSnoc(s: string, k: nat)
    requires k < |s|
    ensures Value(s[..k + 1], 10) == Value(s[..k], 10) * 10 + DigitVal(s[k])
  {
    assert s[..k + 1][..k] == s[..k];
  }

  function Horner(s: string): (n: nat)
    requires 1 <= |s| <= 4
  {
    match |s|
    case 1 => DigitVal(s[0])
    case 2 => 10 * DigitVal(s[0]) + DigitVal(s[1])
    case 3 => 100 * DigitVal(s[0]) + 10 * DigitVal(s[1]) + DigitVal(s[2])
    case _ => 1000 * DigitVal(s[0]) + 100 * DigitVal(s[1]) + 10 * DigitVal(s[2]) + DigitVal(s[3])
  }

  /** The period and average choices of the Python class are the rows of the C dictionaries. */
  lemma PeriodText(i: nat)
    requires i < 8
    ensures |P.PERIODS| == |PERIODS_D| == 8 && PERIODS_D[i].str == DecInt(P.PERIODS[i]) && PERIODS_D[i].val == i
    ensures |DecInt(P.PERIODS[i])| <= 4
  {
    PrintsAs(P.PERIODS[i], PERIODS_D[i].str);
  }

  lemma AverageText(i: nat)
    requires i < 8
    ensures |P.AVERAGES| == |AVERAGE_D| == 8 && AVERAGE_D[i].str == DecInt(P.AVERAGES[i])
    ensures AVERAGE_D[i].val == 16 * i && |DecInt(P.AVERAGES[i])| <= 4
  {
    PrintsAs(P.AVERAGES[i], AVERAGE_D[i].str);
  }

  lemma PeriodLookup(period: int) returns (i: nat)
    requires period in P.PERIODS
    ensures i < 8 == |P.PERIODS| && P.PERIODS[i] == period
    ensures ValOf(PERIODS_D, DecInt(period)) == Some(i) && |DecInt(period)| <= 8
  {
    i :| 0 <= i < |P.PERIODS| && P.PERIODS[i] == period;
    PeriodText(i);
    ScalesAreUnique();
    assert PERIODS_D[i] in PERIODS_D && PERIODS_D[i] == Entry(DecInt(period), i);
    Inverse(PERIODS_D, DecInt(period), i);
  }

  lemma AverageLookup(average: int) returns (i: nat)
    requires average in P.AVERAGES
    ensures i < 8 == |P.AVERAGES| && P.AVERAGES[i] == average
    ensures ValOf(AVERAGE_D, DecInt(average)) == Some(16 * i) && |DecInt(average)| <= 8
  {
    i :| 0 <= i < |P.AVERAGES| && P.AVERAGES[i] == average;
    AverageText(i);
    ScalesAreUnique();
    assert AVERAGE_D[i] in AVERAGE_D && AVERAGE_D[i] == Entry(DecInt(average), 16 * i);
    Inverse(AVERAGE_D, DecInt(average), 16 * i);
  }

  lemma SourceLookup(w: string)
    requires w == "3.3V" || w == "5V" || w == "BATT"
    ensures IsWord(w) && |w| <= 8 && Found(POWER_SOURCE_D, w)
    ensures var v := Val(POWER_SOURCE_D, w);
            (v == 0x10 || v == 0x20 || v == 0x40) && KeyOf(POWER_SOURCE_D, v) == Some(w)
  {
    SmallTablesAreUnique();
    var d := POWER_SOURCE_D;
    assert d[0] == Entry("3.3V", 0x10) && d[1] == Entry("5V", 0x20) && d[2] == Entry("BATT", 0x40);
    Inverse(d, "3.3V", 0x10);
    Inverse(d, "5V", 0x20);
    Inverse(d, "BATT", 0x40);
  }

  /** A flag survives "%i" and !! unless the long read by strtol() is a multiple of 2^32. */
  predicate FlagKept(flag: int)
  {
    || flag == 0
    || flag > 0x7fff_ffff_ffff_ffff
    || (flag > -0x8000_0000_0000_0000 && flag % 0x1_0000_0000 != 0)
  }

  lemma FlagKeptIsExact(flag: int)
    ensures FlagKept(flag) <==> (flag != 0 <==> ToInt32(flag) != 0)
  {
  }

  function Bool01(b: bool, v: byte): (r: byte)
  {
    if b then v else 0
  }

  /** Reading back a consumption configuration. */
  lemma ConfigDecodes(w: string, p: bool, v: bool, c: bool, i: nat, j: nat, bytes: seq<byte>)
    requires (w == "3.3V" || w == "5V" || w == "BATT") && i < 8 && j < 8
    requires |bytes| == 4 && bytes[0] == CONFIG_CONSUMPTION && bytes[1] == START && bytes[3] == i + 16 * j
    requires bytes[2] == Val(POWER_SOURCE_D, w) + Bool01(p, 1) + Bool01(v, 2) + Bool01(c, 4)
    ensures D.Decode(bytes) == D.ConsumptionOn(w, P.PERIODS[i], P.AVERAGES[j], p, v, c)
  {
    SourceLookup(w);
    var config := bytes[2];
    assert config / 16 * 16 == Val(POWER_SOURCE_D, w);
    D.LowBits(config);
    assert bytes[3] % 16 == i && bytes[3] / 16 == j;
  }

  lemma Config0Value(r: seq<Conv>, w: string, p: int, v: int, c: int)
    requires w == "3.3V" || w == "5V" || w == "BATT"
    requires StrAt(r, 2) == w && IntAt(r, 4) == p && IntAt(r, 6) == v && IntAt(r, 8) == c
    ensures Config0(r) == Val(POWER_SOURCE_D, w) + Bool01(p != 0, 1) + Bool01(v != 0, 2) + Bool01(c != 0, 4)
  {
    SourceLookup(w);
    D.Config0Fields(Val(POWER_SOURCE_D, w), Flag8(p, 1), Flag8(v, 2), Flag8(c, 4));
  }

  lemma Config1Value(r: seq<Conv>, i: nat, j: nat)
    requires i < 8 && j < 8
    requires ValOf(PERIODS_D, StrAt(r, 10)) == Some(i) && ValOf(AVERAGE_D, StrAt(r, 12)) == Some(16 * j)
    ensures Config1(r) == i + 16 * j
  {
    D.Config1Fields(i, j);
  }

  lemma LongEncodes(c: P.Consumption, r: seq<Conv>, e: Encoded, i: nat, j: nat)
    requires P.ValidConsumption(c) && StrAt(r, 1) == "start" && StrAt(r, 2) == c.source && i < 8 && j < 8
    requires ValOf(PERIODS_D, StrAt(r, 10)) == Some(i) && ValOf(AVERAGE_D, StrAt(r, 12)) == Some(16 * j)
    requires e == EncodeConsumption(r)
    ensures e.ok && |e.bytes| == 3 && e.bytes[0] == START && e.bytes[1] == Config0(r) && e.bytes[2] == Config1(r)
  {
    StateLookup(StrAt(r, 1));
    SourceLookup(c.source);
  }

  lemma ConsumptionBytes(c: P.Consumption, r: seq<Conv>, e: Encoded) returns (i: nat, j: nat)
    requires P.ValidConsumption(c) && StrAt(r, 1) == "start" && StrAt(r, 2) == c.source
    requires StrAt(r, 10) == DecInt(c.period) && StrAt(r, 12) == DecInt(c.average)
    requires e == EncodeConsumption(r)
    ensures i < 8 && j < 8 && |P.PERIODS| == |P.AVERAGES| == 8
    ensures P.PERIODS[i] == c.period && P.AVERAGES[j] == c.average
    ensures e.ok && |e.bytes| == 3 && e.bytes[0] == START && e.bytes[1] == Config0(r) && e.bytes[2] == i + 16 * j
  {
    i := PeriodLookup(c.period);
    j := AverageLookup(c.average);
    LongEncodes(c, r, e, i, j);
    Config1Value(r, i, j);
  }

  lemma BytesDecode(c: P.Consumption, bytes: seq<byte>, tail: seq<byte>, i: nat, j: nat, p: bool, v: bool, a: bool)
    requires P.ValidConsumption(c) && i < 8 && j < 8 && P.PERIODS[i] == c.period && P.AVERAGES[j] == c.average
    requires bytes == [CONFIG_CONSUMPTION] + tail && |tail| == 3 && tail[0] == START && tail[2] == i + 16 * j
    requires tail[1] == Val(POWER_SOURCE_D, c.source) + Bool01(p, 1) + Bool01(v, 2) + Bool01(a, 4)
    ensures D.Decode(bytes) == D.ConsumptionOn(c.source, c.period, c.average, p, v, a)
  {
    ConfigDecodes(c.source, p, v, a, i, j, bytes);
  }

  /** What the device understands of a consumption request: each flag after "%i". */
  lemma ConsumptionEncoded(c: P.Consumption, r: seq<Conv>, e: Encoded, p: int, v: int, a: int, bytes: seq<byte>)
    requires P.ValidConsumption(c) && StrAt(r, 1) == "start" && StrAt(r, 2) == c.source
    requires IntAt(r, 4) == p && IntAt(r, 6) == v && IntAt(r, 8) == a
    requires StrAt(r, 10) == DecInt(c.period) && StrAt(r, 12) == DecInt(c.average)
    requires e == EncodeConsumption(r) && bytes == [CONFIG_CONSUMPTION] + e.bytes
    ensures e.ok
    ensures D.Decode(bytes) == D.ConsumptionOn(c.source, c.period, c.average, p != 0, v != 0, a != 0)
  {
    Config0Value(r, c.source, p, v, a);
    var i, j := ConsumptionBytes(c, r, e);
    BytesDecode(c, bytes, e.bytes, i, j, p != 0, v != 0, a != 0);
  }

  /** The thirteen arguments of a start command. */
  predicate LongPrint(c: P.Consumption, args: seq<Arg>)
  {
    && |args| == 13 && args[0] == W("config_consumption_measure") && args[1] == W("start")
    && args[3] == W("p") && args[5] == W("v") && args[7] == W("c") && args[9] == W("-p") && args[11] == W("-a")
    && args[2] == W(c.source) && args[4] == N(c.power) && args[6] == N(c.voltage) && args[8] == N(c.current)
    && args[10] == N(c.period) && args[12] == N(c.average)
  }

  lemma LongPrinted(c: P.Consumption, req: P.Request, args: seq<Arg>)
    requires !(c.power == 0 && c.voltage == 0 && c.current == 0)
    requires req == P.Monitor(Some(c)) && Prints(args, req)
    ensures LongPrint(c, args)
  {
    assert LongPrint(c, P.Args(req));
  }

  lemma LongWords(c: P.Consumption)
    requires P.ValidConsumption(c)
    ensures IsWord(c.source) && |c.source| <= 8 && |DecInt(c.period)| <= 8 && |DecInt(c.average)| <= 8
  {
    SourceLookup(c.source);
    var i := PeriodLookup(c.period);
    var j := AverageLookup(c.average);
  }

  lemma LongArgs(c: P.Consumption, args: seq<Arg>)
    requires P.ValidConsumption(c) && LongPrint(c, args)
    ensures LongShape(args)
  {
    LongWords(c);
  }

  lemma LongValues(c: P.Consumption, args: seq<Arg>, r: seq<Conv>)
    requires LongPrint(c, args) && LongShape(args) && r == LongConvs(args)
    ensures StrAt(r, 1) == "start" && StrAt(r, 2) == c.source
    ensures IntAt(r, 4) == ToInt32(c.power) && IntAt(r, 6) == ToInt32(c.voltage) && IntAt(r, 8) == ToInt32(c.current)
    ensures StrAt(r, 10) == DecInt(c.period) && StrAt(r, 12) == DecInt(c.average)
  {
  }

  lemma StartMeaning(c: P.Consumption, args: seq<Arg>, m: D.Meaning, now: Now)
    requires P.ValidConsumption(c) && LongPrint(c, args)
    requires m == D.ConsumptionOn(c.source, c.period, c.average, ToInt32(c.power) != 0, ToInt32(c.voltage) != 0,
                                  ToInt32(c.current) != 0)
    ensures Compile(Line(args), now).ok && D.Decode(Compile(Line(args), now).bytes) == m
  {
    LongArgs(c, args);
    var r := LongConvs(args);
    var e := EncodeConsumption(r);
    LongValues(c, args, r);
    ConsumptionEncoded(c, r, e, ToInt32(c.power), ToInt32(c.voltage), ToInt32(c.current),
                       [CONFIG_CONSUMPTION] + e.bytes);
    LongCompiles(args, r, e, now);
  }

  predicate FlagsKept(c: P.Consumption)
  {
    FlagKept(c.power) && FlagKept(c.voltage) && FlagKept(c.current)
  }

  predicate AllOff(c: P.Consumption)
  {
    c.power == 0 && c.voltage == 0 && c.current == 0
  }

  lemma StopRequest(req: P.Request, args: seq<Arg>, now: Now)
    requires req.Monitor? && Prints(args, req) && (req.consumption.Some? ==> AllOff(req.consumption.value))
    ensures Compile(Line(args), now).ok
    ensures D.Decode(Compile(Line(args), now).bytes) == D.Intended(req, now)
  {
    StopMeaning(args, now);
  }

  /** What the device understands, and what was meant, when something is to be measured. */
  lemma StartIntends(c: P.Consumption, req: P.Request, now: Now, m: D.Meaning)
    requires !AllOff(c) && req == P.Monitor(Some(c))
    requires m == D.ConsumptionOn(c.source, c.period, c.average, ToInt32(c.power) != 0, ToInt32(c.voltage) != 0,
                                  ToInt32(c.current) != 0)
    ensures m == D.Intended(req, now) <==> FlagsKept(c)
  {
    FlagKeptIsExact(c.power);
    FlagKeptIsExact(c.voltage);
    FlagKeptIsExact(c.current);
  }

  lemma StartRequest(c: P.Consumption, req: P.Request, args: seq<Arg>, now: Now)
    requires P.ValidConsumption(c) && !AllOff(c) && req == P.Monitor(Some(c)) && Prints(args, req)
    ensures Compile(Line(args), now).ok
    ensures D.Decode(Compile(Line(args), now).bytes) == D.Intended(req, now) <==> FlagsKept(c)
  {
    var m := D.ConsumptionOn(c.source, c.period, c.average, ToInt32(c.power) != 0, ToInt32(c.voltage) != 0,
                             ToInt32(c.current) != 0);
    LongPrinted(c, req, args);
    StartMeaning(c, args, m, now);
    StartIntends(c, req, now, m);
  }

  /** Every valid consumption setting is accepted, and the device measures exactly what was asked for as
      long as no integer flag loses its truth value in 32 bits. */
  lemma ConsumptionMeaning(req: P.Request, args: seq<Arg>, now: Now)
    requires req.Monitor? && Prints(args, req) && (req.consumption.Some? ==> P.ValidConsumption(req.consumption.value))
    ensures Compile(Line(args), now).ok
    ensures D.Decode(Compile(Line(args), now).bytes) == D.Intended(req, now)
       <==> (req.consumption.Some? ==> FlagsKept(req.consumption.value))
  {
    if req.consumption.Some? && !AllOff(req.consumption.value) {
      StartRequest(req.consumption.value, req, args, now);
    } else {
      StopRequest(req, args, now);
    }
  }

  // ----- The radio test -------------------------------------------------------------------------

  lemma PowersDiffer(d: seq<Entry>)
    requires d == RADIO_POWER_D
    ensures |d| == 16 && forall i, j :: 0 <= i < j < |d| ==> d[i].val > d[j].val
  {
  }

  /** The byte of a power names it. */
  lemma PowerNamed(d: seq<Entry>, w: string)
    requires d == RADIO_POWER_D && Found(d, w)
    ensures KeyOf(d, Val(d, w)) == Some(w)
  {
    var e := Entry(w, Val(d, w));
    var i :| 0 <= i < |d| && d[i] == e;
    PowersDiffer(d);
    var k := KeyOf(d, e.val).value;
    var j :| 0 <= j < |d| && d[j] == Entry(k, e.val);
    assert i == j;
  }

  lemma PingPongStart(r: seq<Conv>, e: Encoded, channel: nat, d: seq<Entry>, power: string)
    requires StrAt(r, 1) == "start" && UintAt(r, 2) == channel && StrAt(r, 3) == power && d == RADIO_POWER_D
    requires e == EncodePingPong(r)
    ensures e.ok <==> 11 <= channel <= 26 && Found(d, power)
    ensures |e.bytes| == 3 && e.bytes[0] == START && e.bytes[1] == channel % 256 && e.bytes[2] == Val(d, power)
  {
    StateLookup(StrAt(r, 1));
    assert LittleEndian(channel, 1) == [channel % 256];
  }

  lemma PingPongRow(name: string)
    requires name == "test_radio_ping_pong"
    ensures |COMMANDS_D| == 16 && COMMANDS_D[11].str == name && ' ' !in name && |name| <= 32
    ensures COMMANDS_D[11].val == 0x73
  {
  }

  /** The printed command, for any channel number and power word. */
  lemma PingPongCompiles(h: Handler, args: seq<Arg>, r: seq<Conv>, e: Encoded, now: Now)
    requires |args| == 4 && args[0] == W("test_radio_ping_pong") && args[1] == W("start") && args[2].N?
    requires args[3].W? && IsWord(args[3].word) && |args[3].word| <= 8
    requires r == [L, S(args[1].word), I(ToInt32(args[2].num)), S(args[3].word)]
    requires h.RadioPingPong? && e == EncodeArgs(h, r, now)
    ensures Compile(Line(args), now) == Encoded(e.ok, [0x73] + e.bytes)
  {
    PingPongRow(args[0].word);
    PingPongReady(args);
    CompiledBy(args, 15, 11, 0x73, h, r, e, now);
  }

  lemma PingPongArgs(args: seq<Arg>, r: seq<Conv>)
    requires |args| == 4 && args[1] == W("start") && args[2].N? && args[3].W?
    requires r == [L, S(args[1].word), I(ToInt32(args[2].num)), S(args[3].word)]
    ensures StrAt(r, 1) == "start" && UintAt(r, 2) == ToUint32(args[2].num) && StrAt(r, 3) == args[3].word
  {
  }

  lemma ThreeBytes(s: seq<byte>, a: byte, b: byte, c: byte)
    requires |s| == 3 && s[0] == a && s[1] == b && s[2] == c
    ensures s == [a, b, c]
  {
  }

  lemma PingPongHandler(h: Handler, r: seq<Conv>, now: Now)
    requires h.RadioPingPong?
    ensures EncodeArgs(h, r, now) == EncodePingPong(r)
  {
  }

  lemma PingPongEncoded(h: Handler, r: seq<Conv>, channel: nat, d: seq<Entry>, power: string, v: byte, now: Now)
    returns (e: Encoded)
    requires h.RadioPingPong?
    requires StrAt(r, 1) == "start" && UintAt(r, 2) == channel && StrAt(r, 3) == power
    requires d == RADIO_POWER_D && v == Val(d, power)
    ensures e == EncodeArgs(h, r, now) && (e.ok <==> 11 <= channel <= 26 && Found(d, power))
    ensures e.bytes == [START, channel % 256, v]
  {
    e := EncodePingPong(r);
    PingPongStart(r, e, channel, d, power);
    ThreeBytes(e.bytes, START, channel % 256, v);
    PingPongHandler(h, r, now);
  }

  /** A started radio test, from its printed line: accepted iff the channel is within 11..26, in 32-bit arithmetic,
      and the power in the table; the frame carries both. */
  lemma PingPongMeaning(args: seq<Arg>, r: seq<Conv>, channel: nat, power: string, d: seq<Entry>, v: byte, now: Now,
                        c: Encoded)
    requires |args| == 4 && args[0] == W("test_radio_ping_pong") && args[1] == W("start") && args[2].N?
    requires args[3] == W(power) && IsWord(power) && |power| <= 8 && d == RADIO_POWER_D && v == Val(d, power)
    requires r == [L, S(args[1].word), I(ToInt32(args[2].num)), S(args[3].word)] && channel == ToUint32(args[2].num)
    requires c == Compile(Line(args), now)
    ensures c.ok <==> 11 <= channel <= 26 && Found(d, power)
    ensures c.bytes == [0x73] + [START, channel % 256, v] && (c.ok ==> KeyOf(d, v) == Some(power))
  {
    if Found(d, power) { PowerNamed(d, power); }
    PingPongArgs(args, r);
    var h := RadioPingPong;
    var e := PingPongEncoded(h, r, channel, d, power, v, now);
    PingPongCompiles(h, args, r, e, now);
  }
}
