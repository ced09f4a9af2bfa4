/** control_node_serial/src/command_reader.c and command_parser.c: a text command selects the first entry
    of the table that it matches and is encoded into the payload of a frame. */
module CommandReader {
  import opened Bytes
  import opened Bits
  import opened Dict
  import opened Text
  import opened Scanf
  import opened Channels
  import opened CommandTable

  // ----- Selecting an entry: command_parse ------------------------------------------------------

  predicate Matches(line: string, d: Description)
    requires d.fmt != []
  {
    if d.count == 0 then d.fmt[0].Lit? && line == d.fmt[0].text
    else d.count <= 32 && Count(Scan(line, d.fmt)) == d.count
  }

  predicate Formats(table: seq<Description>)
  {
    forall i :: 0 <= i < |table| ==> table[i].fmt != []
  }

  /** The entry used for a line: the first that matches. */
  function Select(line: string, table: seq<Description>): (r: Option<Description>)
    requires Formats(table)
    ensures r.Some? ==> r.value in table && r.value.fmt != [] && Matches(line, r.value)
    ensures r.None? ==> forall i :: 0 <= i < |table| ==> !Matches(line, table[i])
  {
    if table == [] then None
    else if Matches(line, table[0]) then Some(table[0])
    else Select(line, table[1..])
  }

  lemma {:induction false} SelectFirst(line: string, table: seq<Description>, k: nat)
    requires Formats(table) && k < |table| && Matches(line, table[k])
    requires forall j :: 0 <= j < k ==> !Matches(line, table[j])
    ensures Select(line, table) == Some(table[k])
  {
    if k > 0 { SelectFirst(line, table[1..], k - 1); }
  }

  method CommandParse(line: string, table: seq<Description>) returns (r: Option<Description>)
    requires Formats(table)
    ensures r == Select(line, table)
  {
    var i := 0;
    while i < |table|
      invariant 0 <= i <= |table|
      invariant Select(line, table) == Select(line, table[i..])
    {
      var cur := table[i];
      assert table[i..][0] == cur && table[i..][1..] == table[i + 1..];
      if cur.count == 0 {
        if cur.fmt[0].Lit? && line == cur.fmt[0].text {
          return Some(cur);
        }
      } else if cur.count <= 32 {
        var ret := Count(Scan(line, cur.fmt));
        if ret == cur.count {
          return Some(cur);
        }
      }
      i := i + 1;
    }
    return None;
  }

  // ----- Encoding the arguments: the cmd_* functions --------------------------------------------

  /** What a handler appends to the command buffer, and whether it returns 0. */
  datatype Encoded = Encoded(ok: bool, bytes: seq<byte>)

  /** The seconds and microseconds that gettimeofday() would give. */
  datatype Now = Now(sec: nat, usec: nat)

  function StrAt(r: seq<Conv>, i: nat): (s: string)
  {
    if i < |r| && r[i].S? then r[i].str else ""
  }

  function IntAt(r: seq<Conv>, i: nat): (n: int)
  {
    if i < |r| && r[i].I? then r[i].val else 0
  }

  function UintAt(r: seq<Conv>, i: nat): (n: nat)
    ensures n < 0x1_0000_0000
  {
    IntAt(r, i) % 0x1_0000_0000
  }

  predicate Found(d: seq<Entry>, key: string)
  {
    ValOf(d, key).Some?
  }

  function Val(d: seq<Entry>, key: string): (v: byte)
  {
    if Found(d, key) then ValOf(d, key).value else 0xFF
  }

  function Or8(x: byte, y: byte): (r: byte)
  {
    assert Pow2(8) == 256;
    OrBound(x, y, 8);
    Or(x, y)
  }

  function EncodeLookup(d: seq<Entry>, key: string): (e: Encoded)
  {
    Encoded(Found(d, key), [Val(d, key)])
  }

  /** 0xf000 & (archi << 12) keeps four bits of the architecture, 0x0fff & num twelve of the number. */
  function NodeId(archi: byte, num: nat): (id: nat)
    ensures id < 65536
  {
    archi % 16 * 4096 + num % 4096
  }

  function EncodeNodeId(r: seq<Conv>): (e: Encoded)
  {
    var archi := Val(ARCHI_D, StrAt(r, 1));
    Encoded(Found(ARCHI_D, StrAt(r, 1)), LittleEndian(NodeId(archi, UintAt(r, 2) % 65536), 2))
  }

  function Flag8(flag: int, bit: byte): (v: byte)
  {
    if flag != 0 then bit else 0
  }

  function Config0(r: seq<Conv>): (v: byte)
  {
    Or8(Or8(Or8(Val(POWER_SOURCE_D, StrAt(r, 2)), Flag8(IntAt(r, 4), 1)), Flag8(IntAt(r, 6), 2)),
        Flag8(IntAt(r, 8), 4))
  }

  function Config1(r: seq<Conv>): (v: byte)
  {
    Or8(Or8(0, Val(PERIODS_D, StrAt(r, 10))), Val(AVERAGE_D, StrAt(r, 12)))
  }

  function EncodeConsumption(r: seq<Conv>): (e: Encoded)
  {
    if !Found(STATE_D, StrAt(r, 1)) then Encoded(false, [])
    else if Val(STATE_D, StrAt(r, 1)) == START then
      Encoded(Found(POWER_SOURCE_D, StrAt(r, 2)) && Found(PERIODS_D, StrAt(r, 10))
              && Found(AVERAGE_D, StrAt(r, 12)),
              [START, Config0(r), Config1(r)])
    else Encoded(true, [Val(STATE_D, StrAt(r, 1)), 0, 0])
  }

  function EncodeRadioMeasure(r: seq<Conv>): (e: Encoded)
  {
    var flag, period, num := ChannelsFlag(StrAt(r, 1)), UintAt(r, 2), UintAt(r, 3);
    Encoded(flag != 0 && period % 65536 != 0 && num <= 0xFF,
            LittleEndian(flag, 4) + LittleEndian(period, 2) + LittleEndian(num, 1))
  }

  ghost function EncodeRadioSniffer(r: seq<Conv>): (e: Encoded)
  {
    var flag, period := ChannelsFlag(StrAt(r, 1)), UintAt(r, 2);
    Encoded(flag != 0 && (if TwoBits(flag) then period % 65536 != 0 else period == 0),
            LittleEndian(flag, 4) + LittleEndian(period, 2))
  }

  function EncodePingPong(r: seq<Conv>): (e: Encoded)
  {
    var state := Val(STATE_D, StrAt(r, 1));
    if state == START then
      Encoded(Found(STATE_D, StrAt(r, 1)) && 11 <= UintAt(r, 2) <= 26 && Found(RADIO_POWER_D, StrAt(r, 3)),
              [state] + LittleEndian(UintAt(r, 2), 1) + [Val(RADIO_POWER_D, StrAt(r, 3))])
    else Encoded(Found(STATE_D, StrAt(r, 1)), [state, 0, 0])
  }

  ghost function EncodeArgs(h: Handler, r: seq<Conv>, now: Now): (e: Encoded)
    ensures |e.bytes| <= 8
  {
    match h
    case Alim => EncodeLookup(ALIM_D, StrAt(r, 1))
    case StartStop => EncodeLookup(STATE_D, StrAt(r, 1))
    case NoArgs => Encoded(true, [])
    case SetTime => Encoded(true, LittleEndian(now.sec, 4) + LittleEndian(now.usec, 4))
    case SetNodeId => EncodeNodeId(r)
    case Consumption => EncodeConsumption(r)
    case RadioMeasure => EncodeRadioMeasure(r)
    case RadioSniffer => EncodeRadioSniffer(r)
    case RadioPingPong => EncodePingPong(r)
  }

  // ----- A whole line: parse_cmd ----------------------------------------------------------------

  /** cstrtok(): the line up to its first space, unless that is longer than its 32-byte buffer. */
  function CStrTok(line: string): (r: Option<string>)
  {
    var w := Split(line, ' ')[0];
    if |w| > 32 then None else Some(w)
  }

  lemma CommandFormats()
    ensures Formats(COMMANDS)
  {
  }

  /** The byte of the command name, followed by the arguments. */
  function Assemble(names: seq<Entry>, token: Option<string>, args: Encoded): (e: Encoded)
    ensures |e.bytes| == 1 + |args.bytes|
  {
    match token
    case None => Encoded(false, [0] + args.bytes)
    case Some(w) => Encoded(Found(names, w) && args.ok, [Val(names, w)] + args.bytes)
  }

  ghost function CompileWith(table: seq<Description>, names: seq<Entry>, line: string, now: Now): (e: Encoded)
    requires Formats(table)
    ensures |e.bytes| <= 9
  {
    match Select(line, table)
    case None => Encoded(false, [])
    case Some(d) => Assemble(names, CStrTok(line), EncodeArgs(d.handler, Scan(line, d.fmt), now))
  }

  ghost function Compile(line: string, now: Now): (e: Encoded)
    ensures |e.bytes| <= 9
  {
    CommandFormats();
    CompileWith(COMMANDS, COMMANDS_D, line, now)
  }

  /** Any accepted line becomes a payload of 1 to 9 bytes that starts with the byte of its command name,
      which is never that of a measure frame. */
  lemma CompileIsWellFormed(line: string, now: Now)
    requires Compile(line, now).ok
    ensures var p := Compile(line, now).bytes;
            && 1 <= |p| <= 9
            && CStrTok(line).Some?
            && ValOf(COMMANDS_D, CStrTok(line).value) == Some(p[0])
            && p[0] / 16 != 0xF
  {
    CommandFormats();
    assert Select(line, COMMANDS).Some?;
    var w := CStrTok(line).value;
    NoCommandIsAsync(w, Val(COMMANDS_D, w));
  }
}
