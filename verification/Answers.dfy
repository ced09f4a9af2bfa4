/** The way back: decode.c and write_answer() turn packets into lines on the standard error of the C program,
    and cn_interface.py sorts those lines. */
module Answers {
  import opened Bytes
  import opened Dict
  import opened Text
  import opened CommandTable
  import opened TimeRef
  import opened Measures
  import MH = MeasuresHandler

  /** One printed line; the wording of diagnostics and measures does not matter here. */
  datatype Message =
    | Answer(cmd: string, arg: string)
    | ErrorFrame(code: int)
    | ConfigAck(what: string)
    | TimeAck(delay: string)
    | Diagnostic
    | Measure

  // ----- decode_pkt and write_answer ------------------------------------------------------------

  /** "%06lu" */
  function SixDigits(n: nat): (s: string)
    requires n < MICRO
    ensures |s| == 6 && NoBlank(s) && AllDigits(s)
  {
    [DigitChar(n / 100_000), DigitChar(n / 10_000 % 10), DigitChar(n / 1000 % 10), DigitChar(n / 100 % 10),
     DigitChar(n / 10 % 10), DigitChar(n % 10)]
  }

  predicate AllDigits(s: string)
  {
    s != "" && forall i :: 0 <= i < |s| ==> '0' <= s[i] <= '9'
  }

  /** Digits, a point, digits: a text that float() accepts. */
  predicate Decimal(s: string)
  {
    exists p :: 0 < p < |s| && s[p] == '.' && AllDigits(s[..p]) && AllDigits(s[p + 1..])
  }

  /** "%lu.%06lu": the seconds are printed as an unsigned 64-bit number. */
  function Delay(sec: int, usec: nat): (s: string)
    requires usec < MICRO
    ensures IsWord(s) && Decimal(s)
  {
    var whole := Dec(sec % 0x1_0000_0000_0000_0000);
    var s := whole + "." + SixDigits(usec);
    assert s[|whole|] == '.' && s[..|whole|] == whole && s[|whole| + 1..] == SixDigits(usec);
    s
  }

  function Copies(n: nat): (r: seq<Message>)
    ensures |r| == n && forall i :: 0 <= i < n ==> r[i] == Measure
  {
    seq(n, i => Measure)
  }

  function EffectMessages(e: MH.Effect, debug: bool): (r: seq<Message>)
    requires e.TimeAck? ==> 0 <= e.usec < MICRO
  {
    match e
    case TimeAck(sec, usec) => [TimeAck(Delay(sec, usec))]
    case ConfigAck(what) => [ConfigAck(what)]
    case Rows(rows) => if debug then Copies(|rows|) else []
    case Sniffed(_, _) => if debug then [Measure] else []
    case _ => [Diagnostic]
  }

  /** The messages of write_answer(), and of decode_pkt() when that fails. */
  function AnswerMessages(p: Packet): (r: seq<Message>)
    requires |p.data| >= 2
  {
    AnswerMessagesIn(COMMANDS_D, ACK_D, p)
  }

  function AnswerMessagesIn(names: seq<Entry>, words: seq<Entry>, p: Packet): (r: seq<Message>)
    requires |p.data| >= 2
  {
    var cmd, arg := KeyOf(names, p.data[0]), KeyOf(words, p.data[1]);
    if p.len != 2 then [Diagnostic]
    else if p.data[0] == LOGGER_FRAME then [ErrorFrame(Signed8(p.data[1]))]
    else if cmd.Some? && arg.Some? then [Answer(cmd.value, arg.value)]
    else [Diagnostic, Diagnostic]
  }

  /** (pkt_type & ASYNC_FRAME_MASK) == ASYNC_FRAME_MASK */
  predicate IsAsync(kind: byte)
  {
    kind / 16 == 0xF
  }

  function PacketMessages(g: Config, elapsed: int, debug: bool, p: Packet): (r: seq<Message>)
    requires g.Valid() && MH.Buffer(p)
  {
    if IsAsync(p.data[0]) then EffectMessages(MH.EffectOf(g, elapsed, p), debug) else AnswerMessages(p)
  }

  method WriteAnswer(p: Packet) returns (ret: int, messages: seq<Message>)
    requires |p.data| >= 2 && !IsAsync(p.data[0])
    ensures AnswerMessages(p) == messages + (if ret != 0 then [Diagnostic] else [])
  {
    if p.len != 2 {
      return -1, [];
    }
    var kind := p.data[0];
    var failed, cmd := GetKey(kind, COMMANDS_D);
    if kind == LOGGER_FRAME {
      CommandRow(0);
      return failed, [ErrorFrame(Signed8(p.data[1]))];
    }
    var unknown, arg := GetKey(p.data[1], ACK_D);
    if failed != 0 || unknown != 0 {
      return -3, [Diagnostic];
    }
    return 0, [Answer(cmd.value, arg.value)];
  }

  /** decode_pkt() at a time of day; `since` is the time since set_time was sent. */
  method DecodePkt(h: MH.Handler, p: Packet, clock: (int, int), buf: array<byte>, debug: bool)
    returns (messages: seq<Message>, ghost since: int)
    requires h.Valid() && MH.Buffer(p) && buf.Length == 12 && 0 <= clock.1 < MICRO && h.setTimeRef.Normalised()
    modifies h, h.setTimeRef, buf
    ensures h.Valid() && h.setTimeRef.Normalised()
    ensures h.Current() == MH.NextConfig(old(h.Current()), p.data)
    ensures since == Instant(clock) - old(h.setTimeRef.Total())
    ensures h.setTimeRef.Pair() == MH.NextRef(old(h.setTimeRef.Pair()), p.data)
    ensures messages == PacketMessages(old(h.Current()), since, debug, p)
  {
    since := Instant(clock) - h.setTimeRef.Total();
    var ret;
    if IsAsync(p.data[0]) {
      var e;
      ret, e := h.HandleMeasurePkt(p, clock, buf);
      messages := if e.Unhandled? then [] else EffectMessages(e, debug);
    } else {
      ret, messages := WriteAnswer(p);
    }
    if ret != 0 {
      messages := messages + [Diagnostic];
    }
  }

  // ----- A run of packets -----------------------------------------------------------------------

  /** What is printed for a run of packets; `elapsed` is consulted at each of them. */
  function Transcript(g: Config, elapsed: seq<int>, debug: bool, packets: seq<Packet>): (r: seq<Message>)
    requires g.Valid() && MH.Buffers(packets) && |elapsed| == |packets|
    decreases packets
  {
    if packets == [] then []
    else PacketMessages(g, elapsed[0], debug, packets[0])
         + Transcript(MH.NextConfig(g, packets[0].data), elapsed[1..], debug, packets[1..])
  }

  /** Every packet that the parser hands over, in turn. */
  method DecodeAll(h: MH.Handler, packets: seq<Packet>, clock: seq<(int, int)>, buf: array<byte>, debug: bool)
    returns (messages: seq<Message>, ghost elapsed: seq<int>)
    requires h.Valid() && MH.Buffers(packets) && buf.Length == 12 && h.setTimeRef.Normalised()
    requires |clock| == |packets| && forall k :: 0 <= k < |clock| ==> 0 <= clock[k].1 < MICRO
    modifies h, h.setTimeRef, buf
    ensures h.Valid() && h.setTimeRef.Normalised() && |elapsed| == |packets|
    ensures h.Current() == MH.ConfigAfter(old(h.Current()), packets)
    ensures messages == Transcript(old(h.Current()), elapsed, debug, packets)
    decreases |packets|
  {
    ghost var g := h.Current();
    messages, elapsed := [], [];
    if packets != [] {
      var first, since := DecodePkt(h, packets[0], clock[0], buf, debug);
      ghost var next := h.Current();
      var rest, more := DecodeAll(h, packets[1..], clock[1..], buf, debug);
      TranscriptCons(g, next, since, more, debug, packets, first, rest);
      messages := first + rest;
      elapsed := [since] + more;
    }
  }

  lemma TranscriptCons(g: Config, next: Config, since: int, more: seq<int>, debug: bool, packets: seq<Packet>,
                       first: seq<Message>, rest: seq<Message>)
    requires g.Valid() && MH.Buffers(packets) && |packets| == 1 + |more| && next == MH.NextConfig(g, packets[0].data)
    requires first == PacketMessages(g, since, debug, packets[0])
    requires next.Valid() && rest == Transcript(next, more, debug, packets[1..])
    ensures MH.ConfigAfter(g, packets) == MH.ConfigAfter(next, packets[1..])
    ensures first + rest == Transcript(g, [since] + more, debug, packets)
  {
    assert ([since] + more)[1..] == more;
  }

  function AnswersIn(messages: seq<Message>): (r: seq<Message>)
  {
    if messages == [] then []
    else (if messages[0].Answer? then [messages[0]] else []) + AnswersIn(messages[1..])
  }

  lemma {:induction false} AnswersConcat(a: seq<Message>, b: seq<Message>)
    ensures AnswersIn(a + b) == AnswersIn(a) + AnswersIn(b)
  {
    if a == [] {
      assert a + b == b;
    } else {
      AnswersConcat(a[1..], b);
      assert (a + b)[1..] == a[1..] + b;
      Associates(if a[0].Answer? then [a[0]] else [], AnswersIn(a[1..]), AnswersIn(b));
    }
  }

  lemma {:induction false} NoAnswers(messages: seq<Message>)
    requires forall i :: 0 <= i < |messages| ==> !messages[i].Answer?
    ensures AnswersIn(messages) == []
  {
    if messages != [] { NoAnswers(messages[1..]); }
  }

  /** The answer that a payload is. */
  function Reply(payload: seq<byte>): (r: seq<Message>)
  {
    if |payload| != 2 || payload[0] == LOGGER_FRAME || IsAsync(payload[0]) then []
    else
      var cmd, arg := KeyOf(COMMANDS_D, payload[0]), KeyOf(ACK_D, payload[1]);
      if cmd.Some? && arg.Some? then [Answer(cmd.value, arg.value)] else []
  }

  function Replies(payloads: seq<seq<byte>>): (r: seq<Message>)
  {
    if payloads == [] then [] else Reply(payloads[0]) + Replies(payloads[1..])
  }

  lemma PacketAnswers(g: Config, elapsed: int, debug: bool, p: Packet)
    requires g.Valid() && MH.Buffer(p) && p.len > 0
    ensures AnswersIn(PacketMessages(g, elapsed, debug, p)) == Reply(Payload(p))
  {
    assert Payload(p)[0] == p.data[0];
    var m := PacketMessages(g, elapsed, debug, p);
    if Reply(Payload(p)) == [] {
      NoAnswers(m);
    } else {
      assert Payload(p)[1] == p.data[1];
      assert m == Reply(Payload(p)) && m[1..] == [];
    }
  }

  /** Whatever the measures and the state of their handler, the answers printed for a run of non-empty
      packets are exactly those of their payloads, in order. */
  lemma {:induction false} TranscriptAnswers(g: Config, elapsed: seq<int>, debug: bool, packets: seq<Packet>)
    requires g.Valid() && MH.Buffers(packets) && |elapsed| == |packets|
    requires forall i :: 0 <= i < |packets| ==> packets[i].len > 0
    ensures AnswersIn(Transcript(g, elapsed, debug, packets)) == Replies(Payloads(packets))
    decreases packets
  {
    if packets != [] {
      var next := MH.NextConfig(g, packets[0].data);
      PacketAnswers(g, elapsed[0], debug, packets[0]);
      TranscriptAnswers(next, elapsed[1..], debug, packets[1..]);
      AnswersConcat(PacketMessages(g, elapsed[0], debug, packets[0]),
                    Transcript(next, elapsed[1..], debug, packets[1..]));
    }
  }

  // ----- Lines ----------------------------------------------------------------------------------

  /** `line` is the message as printed, without its newline. */
  predicate Prints(m: Message, line: string)
  {
    '\n' !in line &&
    match m
    case Answer(cmd, arg) => line == cmd + " " + arg
    case ErrorFrame(code) => line == "error" + " " + DecInt(code)
    case ConfigAck(what) => line == "config_ack" + " " + what
    case TimeAck(delay) => line == "config_ack" + " set_time " + delay
    case Diagnostic => "cn_serial_error: " <= line
    case Measure => "measures_debug: " <= line
  }

  predicate PrintsAll(messages: seq<Message>, lines: seq<string>)
  {
    |lines| == |messages| && forall i :: 0 <= i < |lines| ==> Prints(messages[i], lines[i])
  }

  /** The text of the lines, each ended by a newline. */
  function StderrText(lines: seq<string>): (s: string)
  {
    Join(lines + [""], '\n')
  }

  // ----- _handle_answer -------------------------------------------------------------------------

  datatype Reaction = Enqueue(answer: seq<string>) | Logged | SignalReady | Raised

  /** One stripped line; Raised is an IndexError, or the ValueError of float() on anything but a plain decimal,
      and ends the reader thread. */
  function HandleAnswer(line: string): (r: Reaction)
  {
    var answer := Split(line, ' ');
    if answer[0] == "config_ack" then
      if |answer| < 2 || (answer[1] == "set_time" && (|answer| < 3 || !Decimal(answer[2]))) then Raised else Logged
    else if answer[0] == "error" then
      if |answer| < 2 then Raised else Logged
    else if answer[0] == "cn_serial_error:" || answer[0] == "measures_debug:" then Logged
    else if answer[0] == "cn_serial_ready" then SignalReady
    else Enqueue(answer)
  }

  /** The reader thread on a text made of whole lines. */
  function Reactions(lines: seq<string>): (r: seq<Reaction>)
    ensures |r| == |lines| && forall i :: 0 <= i < |r| ==> r[i] == HandleAnswer(Strip(lines[i]))
  {
    if lines == [] then [] else [HandleAnswer(Strip(lines[0]))] + Reactions(lines[1..])
  }

  /** readline() until the text is exhausted. */
  function ReadLines(text: string): (lines: seq<string>)
  {
    var pieces := Split(text, '\n');
    pieces[..|pieces| - 1]
  }

  function Enqueued(rs: seq<Reaction>): (r: seq<seq<string>>)
  {
    if rs == [] then [] else (if rs[0].Enqueue? then [rs[0].answer] else []) + Enqueued(rs[1..])
  }

  lemma LinesSurvive(lines: seq<string>)
    requires forall i :: 0 <= i < |lines| ==> '\n' !in lines[i]
    ensures ReadLines(StderrText(lines)) == lines
  {
    var all := lines + [""];
    assert forall w :: w in all ==> '\n' !in w;
    SplitJoin(all, '\n');
  }

  // ----- What Python makes of the printed messages ----------------------------------------------

  /** The messages that the C program can print. */
  predicate Possible(m: Message)
  {
    PossibleIn(COMMANDS_D, ACK_D, m)
  }

  predicate PossibleIn(names: seq<Entry>, words: seq<Entry>, m: Message)
  {
    match m
    case Answer(cmd, arg) => LaterKey(names, cmd) && KeyIn(words, arg)
    case ConfigAck(what) => IsWord(what) && what != "set_time"
    case TimeAck(delay) => IsWord(delay) && Decimal(delay)
    case _ => true
  }

  /** The key of an entry after the first, which is that of the error frame in the command table. */
  predicate LaterKey(d: seq<Entry>, key: string)
  {
    exists i :: 0 < i < |d| && d[i].str == key
  }

  predicate KeyIn(d: seq<Entry>, key: string)
  {
    exists i :: 0 <= i < |d| && d[i].str == key
  }

  /** Made of lower-case letters, digits and underscores. */
  predicate Plain(s: string)
  {
    forall k :: 0 <= k < |s| ==> 'a' <= s[k] <= 'z' || '0' <= s[k] <= '9' || s[k] == '_'
  }

  lemma PlainShort(w: string)
    requires w == "start" || w == "stop" || w == "set_time" || w == "set_node_id" || w == "green_led_on"
    ensures Plain(w)
  {
  }

  lemma PlainConfig(w: string)
    requires || w == "green_led_blink" || w == "config_radio_stop" || w == "config_radio_measure"
             || w == "config_radio_sniffer"
    ensures Plain(w)
  {
  }

  lemma PlainOther(w: string)
    requires w == "config_consumption_measure" || w == "test_radio_ping_pong"
    ensures Plain(w)
  {
  }

  lemma PlainTest(w: string)
    requires w == "test_gpio" || w == "test_i2c" || w == "test_pps" || w == "test_got_pps"
    ensures Plain(w)
  {
  }

  lemma PlainRows(d: seq<Entry>, i: nat)
    requires d == COMMANDS_D && 0 < i < 16
    ensures |d| == 16 && Plain(d[i].str)
  {
    if i < 6 { PlainShort(d[i].str); }
    else if i < 10 { PlainConfig(d[i].str); }
    else if i < 12 { PlainOther(d[i].str); }
    else { PlainTest(d[i].str); }
  }

  lemma RowLengths(d: seq<Entry>)
    requires d == COMMANDS_D
    ensures |d| == 16 && forall i :: 0 <= i < 16 ==> 4 <= |d[i].str| != 10
    ensures forall i :: 0 <= i < 16 && |d[i].str| == 15 ==> d[i].str[0] == 'g'
    ensures forall i :: 0 < i < 16 && |d[i].str| == 5 ==> d[i].str[0] == 's'
  {
  }

  /** No command is called like one of the words that Python looks for, and each is one word. */
  lemma CommandWord(d: seq<Entry>, i: nat, w: string)
    requires d == COMMANDS_D && 0 < i < |d| && d[i].str == w
    ensures IsWord(w)
    ensures w != "config_ack" && w != "error" && w != "cn_serial_error:" && w != "measures_debug:"
    ensures w != "cn_serial_ready"
  {
    PlainRows(d, i);
    RowLengths(d);
    assert "cn_serial_error:"[15] == ':' && "measures_debug:"[14] == ':';
  }

  lemma AckWord(w: string)
    requires KeyIn(ACK_D, w)
    ensures w == "ACK" || w == "NACK"
  {
  }

  /** A line of two words. */
  lemma TwoWords(a: string, b: string)
    requires IsWord(a) && IsWord(b)
    ensures Strip(a + " " + b) == a + " " + b && Split(a + " " + b, ' ') == [a, b]
  {
    assert a + " " + b == a + (" " + b);
    FirstWordSurvives(a, " " + b);
    assert ' ' !in a && ' ' !in b;
    SplitAt(a, ' ', b);
    SplitWord(b, ' ');
  }

  lemma AnswerReaction(cmd: string, arg: string, i: nat)
    requires 0 < i < |COMMANDS_D| && COMMANDS_D[i].str == cmd && KeyIn(ACK_D, arg)
    ensures HandleAnswer(Strip(cmd + " " + arg)) == Enqueue([cmd, arg])
  {
    CommandWord(COMMANDS_D, i, cmd);
    AckWord(arg);
    TwoWords(cmd, arg);
  }

  lemma ConfigReaction(what: string)
    requires IsWord(what) && what != "set_time"
    ensures HandleAnswer(Strip("config_ack" + " " + what)) == Logged
  {
    TwoWords("config_ack", what);
  }

  lemma TimeReaction(delay: string)
    requires IsWord(delay) && Decimal(delay)
    ensures HandleAnswer(Strip("config_ack" + " set_time " + delay)) == Logged
  {
    var line := "config_ack" + " set_time " + delay;
    ThreeWords("config_ack", "set_time", delay, line);
    SplitWord(delay, ' ');
  }

  lemma ThreeWords(a: string, b: string, c: string, line: string)
    requires IsWord(a) && IsWord(b) && IsWord(c) && line == a + [' '] + (b + [' '] + c)
    ensures Strip(line) == line && Split(line, ' ') == [a, b] + Split(c, ' ')
  {
    var rest := [' '] + (b + [' '] + c);
    assert line == a + rest && rest[|rest| - 1] == c[|c| - 1];
    FirstWordSurvives(a, rest);
    SplitThree(a, b, c);
  }

  lemma SplitThree(a: string, b: string, c: string)
    requires ' ' !in a && ' ' !in b
    ensures Split(a + [' '] + (b + [' '] + c), ' ') == [a, b] + Split(c, ' ')
  {
    SplitAt(a, ' ', b + [' '] + c);
    SplitAt(b, ' ', c);
  }

  lemma ErrorReaction(code: int)
    ensures HandleAnswer(Strip("error" + " " + DecInt(code))) == Logged
  {
    TwoWords("error", DecInt(code));
  }

  lemma PrefixReaction(w: string, line: string)
    requires (w == "cn_serial_error:" || w == "measures_debug:") && w + " " <= line
    ensures HandleAnswer(Strip(line)) == Logged
  {
    var rest := line[|w|..];
    assert line == w + rest && rest[0] == ' ';
    FirstWordSurvives(w, rest);
  }

  /** Of the lines that the C program can print, Python enqueues the answers, as two words, and nothing else;
      none of them ends the reader thread. */
  lemma LineReaction(m: Message, line: string)
    requires Possible(m) && Prints(m, line)
    ensures HandleAnswer(Strip(line)) == if m.Answer? then Enqueue([m.cmd, m.arg]) else Logged
  {
    match m
    case Answer(cmd, arg) =>
      var i :| 0 < i < |COMMANDS_D| && COMMANDS_D[i].str == cmd;
      AnswerReaction(cmd, arg, i);
    case ErrorFrame(code) => ErrorReaction(code);
    case ConfigAck(what) => ConfigReaction(what);
    case TimeAck(delay) => TimeReaction(delay);
    case Diagnostic => PrefixReaction("cn_serial_error:", line);
    case Measure => PrefixReaction("measures_debug:", line);
  }

  predicate AllPossible(messages: seq<Message>)
  {
    forall i :: 0 <= i < |messages| ==> Possible(messages[i])
  }

  function Pairs(answers: seq<Message>): (r: seq<seq<string>>)
    requires forall i :: 0 <= i < |answers| ==> answers[i].Answer?
  {
    if answers == [] then [] else [[answers[0].cmd, answers[0].arg]] + Pairs(answers[1..])
  }

  lemma {:induction false} AllAnswers(messages: seq<Message>)
    ensures forall i :: 0 <= i < |AnswersIn(messages)| ==> AnswersIn(messages)[i].Answer?
  {
    if messages != [] { AllAnswers(messages[1..]); }
  }

  lemma {:induction false} LinesReactions(messages: seq<Message>, lines: seq<string>)
    requires AllPossible(messages) && PrintsAll(messages, lines)
    ensures forall i :: 0 <= i < |AnswersIn(messages)| ==> AnswersIn(messages)[i].Answer?
    ensures Raised !in Reactions(lines) && Enqueued(Reactions(lines)) == Pairs(AnswersIn(messages))
  {
    AllAnswers(messages);
    if messages != [] {
      LineReaction(messages[0], lines[0]);
      LinesReactions(messages[1..], lines[1..]);
      var rest := AnswersIn(messages[1..]);
      assert ([messages[0]] + rest)[1..] == rest;
      assert [] + rest == rest;
    }
  }

  /** Every possible message has a line. */
  lemma SomeLine(m: Message) returns (line: string)
    requires Possible(m)
    ensures Prints(m, line)
  {
    match m
    case Answer(cmd, arg) =>
      var i :| 0 < i < |COMMANDS_D| && COMMANDS_D[i].str == cmd;
      CommandWord(COMMANDS_D, i, cmd);
      AckWord(arg);
      line := cmd + " " + arg;
    case ErrorFrame(code) => line := "error" + " " + DecInt(code);
    case ConfigAck(what) => line := "config_ack" + " " + what;
    case TimeAck(delay) => line := "config_ack" + " set_time " + delay;
    case Diagnostic => line := "cn_serial_error: ";
    case Measure => line := "measures_debug: ";
  }

  lemma {:induction false} SomeLines(messages: seq<Message>) returns (lines: seq<string>)
    requires AllPossible(messages)
    ensures PrintsAll(messages, lines)
  {
    if messages == [] {
      lines := [];
    } else {
      var first := SomeLine(messages[0]);
      var rest := SomeLines(messages[1..]);
      lines := [first] + rest;
    }
  }

  // ----- Every printed message is possible ------------------------------------------------------

  predicate AckIsWord(e: MH.Effect)
  {
    (e.ConfigAck? ==> IsWord(e.what) && e.what != "set_time") && (e.TimeAck? ==> 0 <= e.usec < MICRO)
  }

  lemma AckPossible(kind: byte, elapsed: int, e: MH.Effect)
    requires e == MH.AckEffect(kind, elapsed)
    ensures AckIsWord(e)
  {
    if e.ConfigAck? {
      if kind == CONFIG_CONSUMPTION { PlainOther(e.what); } else { PlainConfig(e.what); }
    }
  }

  lemma MessagesPossible(e: MH.Effect, debug: bool)
    requires AckIsWord(e)
    ensures AllPossible(EffectMessages(e, debug))
  {
  }

  lemma EffectPossible(g: Config, elapsed: int, debug: bool, p: Packet, e: MH.Effect)
    requires g.Valid() && MH.Buffer(p) && e == MH.EffectOf(g, elapsed, p)
    ensures AckIsWord(e) && AllPossible(EffectMessages(e, debug))
  {
    if p.data[0] == ACK_FRAME {
      AckPossible(p.data[1], elapsed, e);
    }
    MessagesPossible(e, debug);
  }

  lemma KeyFound(d: seq<Entry>, val: byte)
    requires d != [] && KeyOf(d, val).Some?
    ensures KeyIn(d, KeyOf(d, val).value) && (val != d[0].val ==> LaterKey(d, KeyOf(d, val).value))
  {
    var i := KeyRow(d, val);
  }

  lemma AnswerPossibleIn(names: seq<Entry>, words: seq<Entry>, p: Packet)
    requires |p.data| >= 2 && names != [] && words != [] && names[0].val == LOGGER_FRAME
    ensures forall i :: 0 <= i < |AnswerMessagesIn(names, words, p)| ==>
              PossibleIn(names, words, AnswerMessagesIn(names, words, p)[i])
  {
    if KeyOf(names, p.data[0]).Some? && KeyOf(words, p.data[1]).Some? {
      KeyFound(names, p.data[0]);
      KeyFound(words, p.data[1]);
    }
  }

  lemma AnswerPossible(p: Packet)
    requires |p.data| >= 2
    ensures AllPossible(AnswerMessages(p))
  {
    AnswerPossibleIn(COMMANDS_D, ACK_D, p);
  }

  lemma KeyRow(d: seq<Entry>, val: byte) returns (i: nat)
    requires KeyOf(d, val).Some?
    ensures i < |d| && d[i].val == val && d[i].str == KeyOf(d, val).value
  {
    var e := Entry(KeyOf(d, val).value, val);
    i :| 0 <= i < |d| && d[i] == e;
  }

  lemma {:induction false} TranscriptPossible(g: Config, elapsed: seq<int>, debug: bool, packets: seq<Packet>)
    requires g.Valid() && MH.Buffers(packets) && |elapsed| == |packets|
    ensures AllPossible(Transcript(g, elapsed, debug, packets))
    decreases packets
  {
    if packets != [] {
      if IsAsync(packets[0].data[0]) {
        EffectPossible(g, elapsed[0], debug, packets[0], MH.EffectOf(g, elapsed[0], packets[0]));
      } else {
        AnswerPossible(packets[0]);
      }
      TranscriptPossible(MH.NextConfig(g, packets[0].data), elapsed[1..], debug, packets[1..]);
    }
  }
}
