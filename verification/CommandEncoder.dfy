/** The command buffer and the functions that fill it, statement by statement, proved against the
    encoding functions of CommandReader. */
module CommandEncoder {
  import opened Bytes
  import opened Bits
  import opened Dict
  import opened Scanf
  import opened Channels
  import opened CommandTable
  import opened CommandReader
  import opened FrameGrammar
  import opened Framing
  import opened TimeRef

  class CommandBuffer {
    ghost var Contents: seq<byte>
    var sync: byte
    var len: byte
    const payload: array<byte>

    ghost predicate Valid()
      reads this, payload
    {
      payload.Length == 256 && Contents == payload[..len]
    }

    constructor ()
      ensures Valid() && fresh(payload)
    {
      sync, len := 0, 0;
      payload := new byte[256](_ => 0);
      Contents := [];
    }

    method Init()
      requires Valid()
      modifies this, payload
      ensures Valid() && sync == SYNC_BYTE && Contents == []
    {
      sync := SYNC_BYTE;
      len := 0;
      forall i | 0 <= i < payload.Length {
        payload[i] := 0;
      }
      Contents := [];
    }

    method AppendData(data: seq<byte>)
      requires Valid() && |Contents| + |data| <= 255
      modifies this`len, this`Contents, payload
      ensures Valid() && Contents == old(Contents) + data
    {
      forall i | 0 <= i < |data| {
        payload[len + i] := data[i];
      }
      len := len + |data|;
      Contents := Contents + data;
    }

    method AppendThree(a: seq<byte>, b: seq<byte>, c: seq<byte>)
      requires Valid() && |Contents| + |a| + |b| + |c| <= 255
      modifies this`len, this`Contents, payload
      ensures Valid() && Contents == old(Contents) + (a + b + c)
    {
      AppendData(a);
      AppendData(b);
      AppendData(c);
    }

    /** The bytes passed to write(). */
    method Packet() returns (r: seq<byte>)
      requires Valid() && sync == SYNC_BYTE
      ensures |Contents| <= 255 && r == FrameBytes(Contents)
    {
      r := [sync, len] + payload[..len];
    }
  }

  /** cmd_alim and cmd_start_stop_args: one word, looked up in a dictionary. */
  method CmdLookup(d: seq<Entry>, arg: string, buf: CommandBuffer) returns (ret: int)
    requires buf.Valid() && |buf.Contents| <= 1
    modifies buf`len, buf`Contents, buf.payload
    ensures buf.Valid()
    ensures var e := EncodeLookup(d, arg);
            buf.Contents == old(buf.Contents) + e.bytes && (ret == 0 <==> e.ok)
  {
    var val;
    ret, val := GetVal(Some(arg), d, 0);
    buf.AppendData([val]);
  }

  /** The time is sent, and kept as the reference for the acknowledgement. */
  method CmdSetTime(now: Now, timeRef: Timeval, buf: CommandBuffer) returns (ret: int)
    requires buf.Valid() && |buf.Contents| <= 1
    modifies timeRef, buf`len, buf`Contents, buf.payload
    ensures buf.Valid() && ret == 0 && timeRef.Pair() == (now.sec, now.usec)
    ensures buf.Contents == old(buf.Contents) + (LittleEndian(now.sec, 4) + LittleEndian(now.usec, 4))
  {
    timeRef.sec, timeRef.usec := now.sec, now.usec;
    buf.AppendData(LittleEndian(now.sec, 4));
    buf.AppendData(LittleEndian(now.usec, 4));
    ret := 0;
  }

  method CmdSetNodeId(r: seq<Conv>, buf: CommandBuffer) returns (ret: int)
    requires buf.Valid() && |buf.Contents| <= 1
    modifies buf`len, buf`Contents, buf.payload
    ensures buf.Valid()
    ensures var e := EncodeNodeId(r);
            buf.Contents == old(buf.Contents) + e.bytes && (ret == 0 <==> e.ok)
  {
    var archi: int;
    var nodeNum := UintAt(r, 2) % 65536;
    ret, archi := GetVal(Some(StrAt(r, 1)), ARCHI_D, 0);
    var nodeId: int := archi % 16 * 4096;
    nodeId := nodeId + nodeNum % 4096;
    buf.AppendData(LittleEndian(nodeId, 2));
  }

  /** The two configuration bytes of cmd_consumption. */
  method ConsumptionConfig(r: seq<Conv>) returns (ret: int, config0: byte, config1: byte)
    ensures config0 == Config0(r) && config1 == Config1(r)
    ensures ret == 0 <==> Found(POWER_SOURCE_D, StrAt(r, 2)) && Found(PERIODS_D, StrAt(r, 10))
                          && Found(AVERAGE_D, StrAt(r, 12))
  {
    var ret1, val := GetVal(Some(StrAt(r, 2)), POWER_SOURCE_D, 0);
    config0 := val;
    config0 := Or8(config0, if IntAt(r, 4) != 0 then 1 else 0);
    config0 := Or8(config0, if IntAt(r, 6) != 0 then 2 else 0);
    config0 := Or8(config0, if IntAt(r, 8) != 0 then 4 else 0);

    config1 := 0;
    var ret2;
    ret2, val := GetVal(Some(StrAt(r, 10)), PERIODS_D, val);
    config1 := Or8(config1, val);
    var ret3;
    ret3, val := GetVal(Some(StrAt(r, 12)), AVERAGE_D, val);
    config1 := Or8(config1, val);
    ret := if ret1 != 0 then ret1 else if ret2 != 0 then ret2 else ret3;
  }

  method CmdConsumption(r: seq<Conv>, buf: CommandBuffer) returns (ret: int)
    requires buf.Valid() && |buf.Contents| <= 1
    modifies buf`len, buf`Contents, buf.payload
    ensures buf.Valid()
    ensures var e := EncodeConsumption(r);
            buf.Contents == old(buf.Contents) + e.bytes && (ret == 0 <==> e.ok)
  {
    var notFound, state := GetVal(Some(StrAt(r, 1)), STATE_D, 0);
    if notFound != 0 {
      return 1;
    }
    var config0, config1 := 0, 0;
    ret := 0;
    if state == START {
      ret, config0, config1 := ConsumptionConfig(r);
    }
    assert [state] + [config0] + [config1] == [state, config0, config1];
    buf.AppendThree([state], [config0], [config1]);
  }

  method CmdRadioMeasure(r: seq<Conv>, buf: CommandBuffer) returns (ret: int)
    requires buf.Valid() && |buf.Contents| <= 1
    modifies buf`len, buf`Contents, buf.payload
    ensures buf.Valid()
    ensures var e := EncodeRadioMeasure(r);
            buf.Contents == old(buf.Contents) + e.bytes && (ret == 0 <==> e.ok)
  {
    var period, numPerChannel := UintAt(r, 2), UintAt(r, 3);
    var flag := ParseChannelsList(StrAt(r, 1));
    ret := 0;
    if flag == 0 || period % 65536 == 0 || numPerChannel > 0xFF {
      ret := 1;
    }
    buf.AppendThree(LittleEndian(flag, 4), LittleEndian(period, 2), LittleEndian(numPerChannel, 1));
  }

  lemma SeveralChannelsTest(flag: nat)
    requires flag < 0x1_0000_0000
    ensures And(flag, (flag + 0xFFFF_FFFF) % 0x1_0000_0000) != 0 <==> TwoBits(flag)
  {
    if flag > 0 {
      assert (flag + 0xFFFF_FFFF) % 0x1_0000_0000 == flag - 1;
      SeveralBits(flag);
    } else if i: nat, j: nat :| BothSet(flag, i, j) {
      BitOfZero(i);
    }
  }

  method SnifferChecks(flag: nat, period: nat) returns (ret: int)
    requires flag < 0x1_0000_0000
    ensures ret == 0 <==> flag != 0 && (if TwoBits(flag) then period % 65536 != 0 else period == 0)
  {
    ret := if flag == 0 then 1 else 0;
    SeveralChannelsTest(flag);
    // flag & (flag - 1), in 32-bit arithmetic
    if And(flag, (flag + 0xFFFF_FFFF) % 0x1_0000_0000) != 0 {
      if period % 65536 == 0 { ret := 1; }
    } else {
      if period != 0 { ret := 1; }
    }
  }

  method CmdRadioSniffer(r: seq<Conv>, buf: CommandBuffer) returns (ret: int)
    requires buf.Valid() && |buf.Contents| <= 1
    modifies buf`len, buf`Contents, buf.payload
    ensures buf.Valid()
    ensures var e := EncodeRadioSniffer(r);
            buf.Contents == old(buf.Contents) + e.bytes && (ret == 0 <==> e.ok)
  {
    var period := UintAt(r, 2);
    var flag := ParseChannelsList(StrAt(r, 1));
    FlagFits(StrAt(r, 1));
    ret := SnifferChecks(flag, period);
    Associates(buf.Contents, LittleEndian(flag, 4), LittleEndian(period, 2));
    buf.AppendData(LittleEndian(flag, 4));
    buf.AppendData(LittleEndian(period, 2));
  }

  method CmdRadioPingPong(r: seq<Conv>, buf: CommandBuffer) returns (ret: int)
    requires buf.Valid() && |buf.Contents| <= 1
    modifies buf`len, buf`Contents, buf.payload
    ensures buf.Valid()
    ensures var e := EncodePingPong(r);
            buf.Contents == old(buf.Contents) + e.bytes && (ret == 0 <==> e.ok)
  {
    var channel := UintAt(r, 2);
    var state;
    ret, state := GetVal(Some(StrAt(r, 1)), STATE_D, 0);
    if state == START {
      if channel < 11 || channel > 26 { ret := 1; }
      var bad, aux := GetVal(Some(StrAt(r, 3)), RADIO_POWER_D, 0);
      if bad != 0 { ret := bad; }
      buf.AppendThree([state], LittleEndian(channel, 1), [aux]);
    } else {
      buf.AppendThree([state], [0], [0]);
    }
  }

  method CallHandler(h: Handler, r: seq<Conv>, now: Now, timeRef: Timeval, buf: CommandBuffer) returns (ret: int)
    requires buf.Valid() && |buf.Contents| <= 1
    modifies timeRef, buf`len, buf`Contents, buf.payload
    ensures buf.Valid() && timeRef.Pair() == if h.SetTime? then (now.sec, now.usec) else old(timeRef.Pair())
    ensures var e := EncodeArgs(h, r, now);
            buf.Contents == old(buf.Contents) + e.bytes && (ret == 0 <==> e.ok)
  {
    match h
    case Alim => ret := CmdLookup(ALIM_D, StrAt(r, 1), buf);
    case StartStop => ret := CmdLookup(STATE_D, StrAt(r, 1), buf);
    case NoArgs => ret := 0;
    case SetTime => ret := CmdSetTime(now, timeRef, buf);
    case SetNodeId => ret := CmdSetNodeId(r, buf);
    case Consumption => ret := CmdConsumption(r, buf);
    case RadioMeasure => ret := CmdRadioMeasure(r, buf);
    case RadioSniffer => ret := CmdRadioSniffer(r, buf);
    case RadioPingPong => ret := CmdRadioPingPong(r, buf);
  }

  /** The time reference after a line: that of the moment if the line selects set_time. */
  function RefAfter(table: seq<Description>, line: string, now: Now, ref: (int, int)): (r: (int, int))
    requires Formats(table)
  {
    match Select(line, table)
    case Some(d) => if d.handler.SetTime? then (now.sec, now.usec) else ref
    case None => ref
  }

  /** parse_cmd: a line that matches no entry leaves the buffer alone. */
  method ParseWith(table: seq<Description>, names: seq<Entry>, line: string, now: Now, timeRef: Timeval,
                   buf: CommandBuffer) returns (ret: int)
    requires buf.Valid() && Formats(table)
    modifies timeRef, buf, buf.payload
    ensures buf.Valid() && timeRef.Pair() == RefAfter(table, line, now, old(timeRef.Pair()))
    ensures var e := CompileWith(table, names, line, now);
            && (ret == 0 <==> e.ok)
            && (ret == 0 ==> buf.sync == SYNC_BYTE && buf.Contents == e.bytes)
  {
    var cmd := CommandParse(line, table);
    if cmd.None? {
      return 1;
    }
    buf.Init();
    var unknown, cmdType := GetVal(CStrTok(line), names, 0);
    buf.AppendData([cmdType]);
    ret := CallHandler(cmd.value.handler, Scan(line, cmd.value.fmt), now, timeRef, buf);
    if unknown != 0 {
      ret := unknown;
    }
  }

  method ParseCmd(line: string, now: Now, timeRef: Timeval, buf: CommandBuffer) returns (ret: int)
    requires buf.Valid()
    modifies timeRef, buf, buf.payload
    ensures buf.Valid() && Formats(COMMANDS)
    ensures timeRef.Pair() == RefAfter(COMMANDS, line, now, old(timeRef.Pair()))
    ensures ret == 0 <==> Compile(line, now).ok
    ensures ret == 0 ==> buf.sync == SYNC_BYTE && buf.Contents == Compile(line, now).bytes
  {
    CommandFormats();
    ret := ParseWith(COMMANDS, COMMANDS_D, line, now, timeRef, buf);
  }

  // ----- The command loop -----------------------------------------------------------------------

  /** A line as getline() returns it, its last character being the newline, and the time at that moment. */
  datatype Input = Input(raw: string, now: Now)

  function Chopped(raw: string): (line: string)
  {
    if raw == "" then "" else raw[..|raw| - 1]
  }

  /** The payloads of the accepted lines. */
  ghost function Accepted(t: seq<Description>, names: seq<Entry>, inputs: seq<Input>): (r: seq<seq<byte>>)
    requires Formats(t)
    ensures forall i :: 0 <= i < |r| ==> |r[i]| <= 9
  {
    if inputs == [] then []
    else
      var e := CompileWith(t, names, Chopped(inputs[0].raw), inputs[0].now);
      (if e.ok then [e.bytes] else []) + Accepted(t, names, inputs[1..])
  }

  /** What a sequence of payloads looks like on the wire. */
  function WireOf(payloads: seq<seq<byte>>): (r: seq<byte>)
    requires forall i :: 0 <= i < |payloads| ==> |payloads[i]| <= 255
  {
    if payloads == [] then [] else FrameBytes(payloads[0]) + WireOf(payloads[1..])
  }

  function RefAfterAll(t: seq<Description>, inputs: seq<Input>, ref: (int, int)): (r: (int, int))
    requires Formats(t)
  {
    if inputs == [] then ref
    else
      var last := inputs[|inputs| - 1];
      RefAfter(t, Chopped(last.raw), last.now, RefAfterAll(t, inputs[..|inputs| - 1], ref))
  }

  /** The bytes written for one line. */
  method ReadCommand(t: seq<Description>, names: seq<Entry>, input: Input, timeRef: Timeval, buf: CommandBuffer)
    returns (written: seq<byte>)
    requires buf.Valid() && Formats(t)
    modifies timeRef, buf, buf.payload
    ensures buf.Valid() && written == WireOf(Accepted(t, names, [input]))
    ensures timeRef.Pair() == RefAfter(t, Chopped(input.raw), input.now, old(timeRef.Pair()))
  {
    var ret := ParseWith(t, names, Chopped(input.raw), input.now, timeRef, buf);
    assert [input][1..] == [] && Accepted(t, names, []) == [];
    if ret == 0 {
      written := buf.Packet();
      assert WireOf([buf.Contents]) == FrameBytes(buf.Contents) + WireOf([]);
    } else {
      written := [];
    }
  }

  /** read_commands: everything written to the serial port is the frames of the accepted lines. */
  method ReadCommands(t: seq<Description>, names: seq<Entry>, inputs: seq<Input>, timeRef: Timeval,
                      buf: CommandBuffer) returns (written: seq<byte>)
    requires buf.Valid() && Formats(t)
    modifies timeRef, buf, buf.payload
    ensures written == WireOf(Accepted(t, names, inputs))
    ensures timeRef.Pair() == RefAfterAll(t, inputs, old(timeRef.Pair()))
  {
    ghost var ref := timeRef.Pair();
    written := [];
    var i := 0;
    while i < |inputs|
      invariant 0 <= i <= |inputs| && buf.Valid()
      invariant written == WireOf(Accepted(t, names, inputs[..i]))
      invariant timeRef.Pair() == RefAfterAll(t, inputs[..i], ref)
    {
      var bytes := ReadCommand(t, names, inputs[i], timeRef, buf);
      OneMoreLine(t, names, inputs, i);
      assert inputs[..i + 1][..i] == inputs[..i];
      written := written + bytes;
      i := i + 1;
    }
    assert inputs[..i] == inputs;
  }

  lemma OneMoreLine(t: seq<Description>, names: seq<Entry>, inputs: seq<Input>, i: nat)
    requires Formats(t) && i < |inputs|
    ensures WireOf(Accepted(t, names, inputs[..i + 1]))
         == WireOf(Accepted(t, names, inputs[..i])) + WireOf(Accepted(t, names, [inputs[i]]))
  {
    assert inputs[..i + 1] == inputs[..i] + [inputs[i]];
    AcceptedConcat(t, names, inputs[..i], [inputs[i]]);
    WireOfConcat(Accepted(t, names, inputs[..i]), Accepted(t, names, [inputs[i]]));
  }

  lemma {:induction false} AcceptedConcat(t: seq<Description>, names: seq<Entry>, a: seq<Input>, b: seq<Input>)
    requires Formats(t)
    ensures Accepted(t, names, a + b) == Accepted(t, names, a) + Accepted(t, names, b)
  {
    if a == [] {
      assert a + b == b;
    } else {
      assert (a + b)[1..] == a[1..] + b;
      AcceptedConcat(t, names, a[1..], b);
    }
  }

  lemma {:induction false} WireOfConcat(a: seq<seq<byte>>, b: seq<seq<byte>>)
    requires forall i :: 0 <= i < |a| ==> |a[i]| <= 255
    requires forall i :: 0 <= i < |b| ==> |b[i]| <= 255
    ensures WireOf(a + b) == WireOf(a) + WireOf(b)
  {
    if a == [] {
      assert a + b == b;
    } else {
      assert (a + b)[1..] == a[1..] + b;
      WireOfConcat(a[1..], b);
    }
  }

  function FrameItems(payloads: seq<seq<byte>>): (items: seq<Item>)
    ensures |items| == |payloads|
    ensures forall i :: 0 <= i < |payloads| ==> items[i] == Frame(payloads[i])
  {
    if payloads == [] then [] else [Frame(payloads[0])] + FrameItems(payloads[1..])
  }

  lemma {:induction false} WireOfFrames(payloads: seq<seq<byte>>)
    requires forall i :: 0 <= i < |payloads| ==> |payloads[i]| <= 255
    ensures AllWellFormed(FrameItems(payloads))
    ensures Wire(FrameItems(payloads)) == WireOf(payloads)
    ensures Frames(FrameItems(payloads)) == payloads
  {
    if payloads != [] {
      WireOfFrames(payloads[1..]);
      assert FrameItems(payloads)[1..] == FrameItems(payloads[1..]);
    }
  }

  lemma {:induction false} AcceptedNotEmpty(t: seq<Description>, names: seq<Entry>, inputs: seq<Input>)
    requires Formats(t)
    ensures forall i :: 0 <= i < |Accepted(t, names, inputs)| ==> Accepted(t, names, inputs)[i] != []
  {
    if inputs != [] { AcceptedNotEmpty(t, names, inputs[1..]); }
  }

  /** Whatever the commands, a parser that reads the written bytes, in any chunks, gets back exactly the
      payload of each accepted line, in order. */
  lemma WrittenFramesDecode(t: seq<Description>, names: seq<Entry>, inputs: seq<Input>, s: Rx,
                            chunks: seq<seq<byte>>)
    requires Formats(t) && s.Valid() && s.phase == Idle && s.out == []
    requires Flatten(chunks) == WireOf(Accepted(t, names, inputs))
    ensures Payloads(RunChunks(s, chunks).out) == Accepted(t, names, inputs)
    ensures RunChunks(s, chunks).phase == Idle
  {
    var payloads := Accepted(t, names, inputs);
    AcceptedNotEmpty(t, names, inputs);
    WireOfFrames(payloads);
    FramingRoundTrip(s, FrameItems(payloads), chunks);
    var u := RunChunks(s, chunks);
    assert u.out[|s.out|..] == u.out;
  }
}
