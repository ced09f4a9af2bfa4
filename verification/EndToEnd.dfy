/** Main results across both programs: acknowledgements and measures seen from the Python side. */
module EndToEnd {
  import opened Bytes
  import opened Framing
  import opened FrameGrammar
  import opened Dict
  import opened Scanf
  import opened CommandTable
  import opened CommandReader
  import opened Measures
  import opened Answers
  import MH = MeasuresHandler
  import S = Selection
  import PM = ProfileMeaning
  import P = Protocol
  import R = Requests
  import Pairing
  import Trace

  // ----- Everything the device sends ------------------------------------------------------------

  lemma {:induction false} RunBuffers(s: Rx, bytes: seq<byte>)
    requires s.Valid() && MH.Buffers(s.out)
    ensures MH.Buffers(Run(s, bytes).out)
    decreases |bytes|
  {
    if bytes != [] { RunBuffers(Step(s, bytes[0]), bytes[1..]); }
  }

  lemma {:induction false} PayloadsAt(packets: seq<Packet>, i: nat)
    requires i < |packets|
    ensures |Payloads(packets)| == |packets| && Payloads(packets)[i] == Payload(packets[i])
  {
    if i > 0 { PayloadsAt(packets[1..], i - 1); } else if |packets| > 1 { PayloadsAt(packets[1..], 0); }
  }

  predicate NonEmpty(items: seq<Item>)
  {
    forall i :: 0 <= i < |items| && items[i].Frame? ==> items[i].payload != []
  }

  lemma {:induction false} FramesNonEmpty(items: seq<Item>)
    requires NonEmpty(items)
    ensures forall i :: 0 <= i < |Frames(items)| ==> Frames(items)[i] != []
  {
    if items != [] { FramesNonEmpty(items[1..]); }
  }

  /** The packets that reach decode_pkt(). */
  lemma Delivered(s: Rx, items: seq<Item>, chunks: seq<seq<byte>>) returns (packets: seq<Packet>)
    requires s.Valid() && s.phase == Idle && s.out == [] && AllWellFormed(items) && NonEmpty(items)
    requires Flatten(chunks) == Wire(items)
    ensures packets == RunChunks(s, chunks).out && MH.Buffers(packets) && Payloads(packets) == Frames(items)
    ensures forall i :: 0 <= i < |packets| ==> packets[i].len > 0
  {
    packets := RunChunks(s, chunks).out;
    FramingRoundTrip(s, items, chunks);
    assert packets[|s.out|..] == packets;
    ChunkIndependence(s, chunks);
    RunBuffers(s, Flatten(chunks));
    FramesNonEmpty(items);
    forall i | 0 <= i < |packets|
      ensures packets[i].len > 0
    {
      PayloadsAt(packets, i);
    }
  }

  /** One passage from the serial port to the reader thread: the parser's state, the chunks it reads, the
      measure handler's configuration, the delays it prints, whether it prints measures, and the lines. */
  datatype Link = Link(rx: Rx, chunks: seq<seq<byte>>, config: Config, elapsed: seq<int>, debug: bool,
                       lines: seq<string>)

  /** The device sent `items` and the C program printed the link's lines. */
  predicate Carries(k: Link, items: seq<Item>)
  {
    && k.rx.Valid() && k.rx.phase == Idle && k.rx.out == []
    && AllWellFormed(items) && NonEmpty(items) && Flatten(k.chunks) == Wire(items)
    && var packets := RunChunks(k.rx, k.chunks).out;
       && MH.Buffers(packets) && k.config.Valid() && |k.elapsed| == |packets|
       && PrintsAll(Transcript(k.config, k.elapsed, k.debug, packets), k.lines)
  }

  /** Every stream of noise and non-empty frames is carried, from any idle parser and any configuration. */
  lemma EveryStreamIsCarried(rx: Rx, items: seq<Item>, g: Config, debug: bool) returns (k: Link)
    requires rx.Valid() && rx.phase == Idle && rx.out == [] && AllWellFormed(items) && NonEmpty(items) && g.Valid()
    ensures Carries(k, items) && k.rx == rx && k.config == g && k.debug == debug
  {
    var chunks := [Wire(items)];
    assert chunks[1..] == [] && Flatten(chunks) == Wire(items) + [];
    var packets := Delivered(rx, items, chunks);
    var elapsed := seq(|packets|, i => 0);
    TranscriptPossible(g, elapsed, debug, packets);
    var lines := SomeLines(Transcript(g, elapsed, debug, packets));
    k := Link(rx, chunks, g, elapsed, debug, lines);
  }

  /** What the reader thread does with the text. */
  function Heard(k: Link): (rs: seq<Reaction>)
  {
    Reactions(ReadLines(StderrText(k.lines)))
  }

  predicate AllAnswered(messages: seq<Message>)
  {
    forall i :: 0 <= i < |messages| ==> messages[i].Answer?
  }

  /** Whatever the device sends as noise and non-empty frames, in whatever chunks it is read, and whatever the
      state of the measure handler: Python enqueues exactly the answers among the frames, in order, and its
      reader thread survives. */
  lemma AnswersArrive(k: Link, items: seq<Item>)
    requires Carries(k, items)
    ensures Raised !in Heard(k)
    ensures AllAnswered(Replies(Frames(items))) && Enqueued(Heard(k)) == Pairs(Replies(Frames(items)))
  {
    var packets := Delivered(k.rx, items, k.chunks);
    TranscriptAnswers(k.config, k.elapsed, k.debug, packets);
    TranscriptPossible(k.config, k.elapsed, k.debug, packets);
    LinesSurvive(k.lines);
    LinesReactions(Transcript(k.config, k.elapsed, k.debug, packets), k.lines);
  }

  // ----- One acknowledged command ---------------------------------------------------------------

  /** Noise and measure frames. */
  predicate Background(items: seq<Item>)
  {
    forall i :: 0 <= i < |items| ==>
      WellFormed(items[i]) && (items[i].Frame? ==> items[i].payload != [] && IsAsync(items[i].payload[0]))
  }

  lemma RepliesCons(i: Item, rest: seq<Item>)
    ensures Replies(Frames([i] + rest)) == (if i.Frame? then Reply(i.payload) else []) + Replies(Frames(rest))
  {
    assert ([i] + rest)[1..] == rest;
    if i.Frame? {
      assert ([i.payload] + Frames(rest))[1..] == Frames(rest);
    } else {
      assert [] + Frames(rest) == Frames(rest);
    }
  }

  lemma QuietItem(i: Item, rest: seq<Item>)
    requires i.Frame? ==> i.payload != [] && IsAsync(i.payload[0])
    ensures Replies(Frames([i] + rest)) == Replies(Frames(rest))
  {
    RepliesCons(i, rest);
  }

  lemma Uncons<T>(a: seq<T>, b: seq<T>)
    requires a != []
    ensures a + b == [a[0]] + (a[1..] + b)
  {
  }

  lemma {:induction false} BackgroundReplies(before: seq<Item>, rest: seq<Item>)
    requires Background(before)
    ensures Replies(Frames(before + rest)) == Replies(Frames(rest))
  {
    if before == [] {
      assert before + rest == rest;
    } else {
      BackgroundReplies(before[1..], rest);
      Uncons(before, rest);
      QuietItem(before[0], before[1..] + rest);
    }
  }

  lemma OneReply(before: seq<Item>, payload: seq<byte>, after: seq<Item>)
    requires Background(before) && Background(after)
    ensures Replies(Frames(before + ([Frame(payload)] + after))) == Reply(payload)
  {
    BackgroundReplies(before, [Frame(payload)] + after);
    RepliesCons(Frame(payload), after);
    BackgroundReplies(after, []);
    assert after + [] == after;
  }

  lemma NameFits(req: P.Request)
    ensures ' ' !in P.CommandName(req) && |P.CommandName(req)| <= 32 && P.CommandName(req) != "error"
  {
    var w := P.CommandName(req);
    assert || w == "start" || w == "stop" || w == "set_time" || w == "set_node_id" || w == "green_led_on"
           || w == "green_led_blink" || w == "config_radio_stop" || w == "config_radio_measure"
           || w == "config_radio_sniffer" || w == "config_consumption_measure";
    if w == "start" || w == "stop" || w == "set_time" || w == "set_node_id" || w == "green_led_on" {
      PlainShort(w);
    } else if w == "config_consumption_measure" {
      PlainOther(w);
    } else {
      PlainConfig(w);
    }
  }

  /** The first byte of an accepted command is that of its name, and names it. */
  lemma CommandByte(req: P.Request, args: seq<Arg>, now: Now)
    requires PM.Prints(args, req) && Compile(Line(args), now).ok
    ensures Compile(Line(args), now).bytes != []
    ensures var b := Compile(Line(args), now).bytes[0];
            !IsAsync(b) && b != LOGGER_FRAME && KeyOf(COMMANDS_D, b) == Some(P.CommandName(req))
  {
    NameFits(req);
    S.FirstToken(args);
    CompileIsWellFormed(Line(args), now);
    CommandsAreUnique();
    Inverse(COMMANDS_D, P.CommandName(req), Compile(Line(args), now).bytes[0]);
  }

  /** What the device can say to a command. */
  function Verdict(code: byte): (r: Option<string>)
  {
    if code == ACK then Some("ACK") else if code == NACK then Some("NACK") else None
  }

  lemma AckTable(code: byte)
    ensures KeyOf(ACK_D, code) == Verdict(code)
  {
  }

  lemma SingleAnswer(answers: seq<Message>, name: string, word: Option<string>)
    requires answers == if word.Some? then [Answer(name, word.value)] else []
    ensures AllAnswered(answers) && Pairs(answers) == if word.Some? then [[name, word.value]] else []
  {
    if word.Some? {
      assert answers[1..] == [];
    }
  }

  /** What Python hears when the byte of command `name` comes back with a code. */
  lemma AnswerHeard(k: Link, name: string, b: byte, code: byte, before: seq<Item>, after: seq<Item>)
    requires !IsAsync(b) && b != LOGGER_FRAME && KeyOf(COMMANDS_D, b) == Some(name)
    requires Background(before) && Background(after) && Carries(k, before + ([Frame([b, code])] + after))
    ensures Raised !in Heard(k)
    ensures Enqueued(Heard(k)) == if Verdict(code).Some? then [[name, Verdict(code).value]] else []
  {
    OneReply(before, [b, code], after);
    AckTable(code);
    SingleAnswer(Reply([b, code]), name, Verdict(code));
    AnswersArrive(k, before + ([Frame([b, code])] + after));
  }

  lemma OnlyAckSucceeds(name: string, code: byte)
    ensures P.SendCmdResult(name, match Verdict(code) case Some(w) => Some([name, w]) case None => None) == 0
       <==> code == ACK
  {
    assert [name, "NACK"][1] != [name, "ACK"][1];
  }

  /** The oldest answer, if any: what get() returns. */
  function Front(queue: seq<seq<string>>): (r: Option<seq<string>>)
  {
    if queue == [] then None else Some(queue[0])
  }

  /** End-to-end acknowledgement: if the device answers an accepted command with its byte and a code, among
      any noise and measure frames and in any chunks, then the text that comes back through parser, decoder,
      printer and reader enqueues exactly the command's name with the word for the code, and send_cmd()
      returns 0 if and only if the code was ACK. */
  lemma AcknowledgedEndToEnd(req: P.Request, args: seq<Arg>, now: Now, b: byte, code: byte, before: seq<Item>,
                             after: seq<Item>, k: Link)
    requires R.Valid(req) && R.Supported(req) && PM.Prints(args, req) && now.usec < 1_000_000
    requires [b] <= Compile(Line(args), now).bytes
    requires Background(before) && Background(after) && Carries(k, before + ([Frame([b, code])] + after))
    ensures Enqueued(Heard(k)) == if Verdict(code).Some? then [[P.CommandName(req), Verdict(code).value]] else []
    ensures P.SendCmdResult(P.CommandName(req), Front(Enqueued(Heard(k)))) == 0 <==> code == ACK
    ensures Raised !in Heard(k)
  {
    R.CommandPreservesMeaning(req, args, now);
    CommandByte(req, args, now);
    AnswerHeard(k, P.CommandName(req), b, code, before, after);
    OnlyAckSucceeds(P.CommandName(req), code);
  }

  // ----- What the call returns ------------------------------------------------------------------

  function Texts(log: seq<Pairing.Answer>): (r: seq<seq<string>>)
    ensures |r| == |log| && forall k :: 0 <= k < |r| ==> r[k] == log[k].text
  {
    if log == [] then [] else [log[0].text] + Texts(log[1..])
  }

  /** The answers handled from a call's drain to its return. */
  function HeardBy(s: Pairing.State, i: nat): (r: seq<seq<string>>)
    requires i < |s.calls|
  {
    var c := s.calls[i];
    if c.drained <= c.heard <= |s.log| then Texts(s.log[c.drained..c.heard]) else []
  }

  /** A call whose command was written returns the first answer handled from its drain to its return. */
  lemma ReturnsFront(steps: seq<Pairing.Step>, s: Pairing.State, i: nat)
    requires s == Trace.Run(Pairing.Apply, Pairing.INIT, steps) && i < |s.calls|
    requires s.calls[i].pc.Returned? && s.calls[i].rank.Some?
    ensures Pairing.AnswerOf(s, i) == Front(HeardBy(s, i))
  {
    Pairing.ReturnsFirstAnswer(steps, s, i);
  }

  /** The whole way, for every interleaving of calls and reader: if what is handled from the drain of the call that
      sent the request to its return begins with what comes back from the device, then send_cmd() returns 0 if and
      only if the device's code was ACK. */
  lemma AcknowledgedCall(req: P.Request, args: seq<Arg>, now: Now, b: byte, code: byte, before: seq<Item>,
                         after: seq<Item>, k: Link, steps: seq<Pairing.Step>, s: Pairing.State, i: nat)
    requires R.Valid(req) && R.Supported(req) && PM.Prints(args, req) && now.usec < 1_000_000
    requires [b] <= Compile(Line(args), now).bytes
    requires Background(before) && Background(after) && Carries(k, before + ([Frame([b, code])] + after))
    requires s == Trace.Run(Pairing.Apply, Pairing.INIT, steps) && i < |s.calls|
    requires s.calls[i].pc.Returned? && s.calls[i].rank.Some?
    requires Enqueued(Heard(k)) <= HeardBy(s, i) && (Enqueued(Heard(k)) == [] ==> HeardBy(s, i) == [])
    ensures P.SendCmdResult(P.CommandName(req), Pairing.AnswerOf(s, i)) == 0 <==> code == ACK
  {
    AcknowledgedEndToEnd(req, args, now, b, code, before, after, k);
    ReturnsFront(steps, s, i);
    assert Front(HeardBy(s, i)) == Front(Enqueued(Heard(k)));
  }

  /** An answer that is not handled before the return counts for nothing. */
  lemma NothingInTime(steps: seq<Pairing.Step>, s: Pairing.State, i: nat, command: string)
    requires s == Trace.Run(Pairing.Apply, Pairing.INIT, steps) && i < |s.calls|
    requires s.calls[i].pc.Returned? && s.calls[i].rank.Some? && HeardBy(s, i) == []
    ensures P.SendCmdResult(command, Pairing.AnswerOf(s, i)) == 1
  {
    ReturnsFront(steps, s, i);
  }
}
