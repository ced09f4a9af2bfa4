/** A whole session across both programs: which calls of send_cmd() return 0. */
module Session {
  import opened Bytes
  import opened Framing
  import opened FrameGrammar
  import opened Dict
  import opened Scanf
  import opened CommandTable
  import opened CommandReader
  import opened CommandEncoder
  import opened Answers
  import opened EndToEnd
  import P = Protocol
  import R = Requests
  import Pairing
  import Trace

  predicate ValidSession(session: seq<R.Sent>)
  {
    forall r :: 0 <= r < |session| ==> R.Valid(session[r].req) && session[r].now.usec < 1_000_000
  }

  // ----- What the device says -------------------------------------------------------------------

  /** An acknowledgement for every command that the device received. */
  function Acks(payloads: seq<seq<byte>>): (r: seq<seq<byte>>)
  {
    if payloads == [] then []
    else (if payloads[0] == [] then [] else [[payloads[0][0], ACK]]) + Acks(payloads[1..])
  }

  /** The frames that are not measure frames. */
  function Spoken(payloads: seq<seq<byte>>): (r: seq<seq<byte>>)
  {
    if payloads == [] then []
    else (if payloads[0] != [] && IsAsync(payloads[0][0]) then [] else [payloads[0]]) + Spoken(payloads[1..])
  }

  lemma {:induction false} RepliesFirst(p: seq<byte>, rest: seq<seq<byte>>)
    ensures Replies([p] + rest) == Reply(p) + Replies(rest)
  {
    assert ([p] + rest)[1..] == rest;
  }

  lemma {:induction false} RepliesSpoken(payloads: seq<seq<byte>>)
    ensures Replies(payloads) == Replies(Spoken(payloads))
  {
    if payloads != [] {
      RepliesSpoken(payloads[1..]);
      if payloads[0] != [] && IsAsync(payloads[0][0]) {
        assert [] + Spoken(payloads[1..]) == Spoken(payloads[1..]);
      } else {
        RepliesFirst(payloads[0], Spoken(payloads[1..]));
      }
    }
  }

  // ----- The supported requests -----------------------------------------------------------------

  function Pass(sent: R.Sent): (r: seq<R.Sent>)
  {
    if R.Supported(sent.req) then [sent] else []
  }

  /** The requests of a session that the C program accepts. */
  function Passed(session: seq<R.Sent>): (r: seq<R.Sent>)
  {
    if session == [] then [] else Pass(session[0]) + Passed(session[1..])
  }

  function AckAnswers(passed: seq<R.Sent>): (r: seq<Message>)
    ensures |r| == |passed| && forall i :: 0 <= i < |r| ==> r[i] == Answer(P.CommandName(passed[i].req), "ACK")
  {
    seq(|passed|, i requires 0 <= i < |passed| => Answer(P.CommandName(passed[i].req), "ACK"))
  }

  /** The acknowledgement of one accepted command is its name with ACK. */
  lemma {:induction false} OneAck(t: seq<Description>, names: seq<Entry>, sent: R.Sent, e: Encoded)
    requires ValidSession([sent]) && t == COMMANDS && names == COMMANDS_D && Formats(t)
    requires e == CompileWith(t, names, Chopped(R.CommandText(sent.req)), sent.now)
    ensures e.ok <==> R.Supported(sent.req)
    ensures e.ok ==> e.bytes != [] && Reply([e.bytes[0], ACK]) == [Answer(P.CommandName(sent.req), "ACK")]
  {
    assert [sent][0] == sent;
    var args := P.Args(sent.req);
    assert Chopped(R.CommandText(sent.req)) == Line(args);
    R.CommandPreservesMeaning(sent.req, args, sent.now);
    if e.ok {
      CommandByte(sent.req, args, sent.now);
      AckTable(ACK);
    }
  }

  /** The acknowledgements of all accepted commands of a session. */
  lemma {:induction false} AllAcks(t: seq<Description>, names: seq<Entry>, session: seq<R.Sent>)
    requires ValidSession(session) && t == COMMANDS && names == COMMANDS_D && Formats(t)
    ensures Replies(Acks(Accepted(t, names, R.Inputs(session)))) == AckAnswers(Passed(session))
  {
    if session != [] {
      var e := CompileWith(t, names, Chopped(R.CommandText(session[0].req)), session[0].now);
      var rest := Accepted(t, names, R.Inputs(session[1..]));
      OneAck(t, names, session[0], e);
      assert R.Inputs(session)[1..] == R.Inputs(session[1..]);
      AllAcks(t, names, session[1..]);
      AcksCons(e, rest);
      AnswersCons(session);
    }
  }

  lemma {:induction false} AcksCons(e: Encoded, rest: seq<seq<byte>>)
    requires e.ok ==> e.bytes != []
    ensures Replies(Acks((if e.ok then [e.bytes] else []) + rest))
         == (if e.ok then Reply([e.bytes[0], ACK]) else []) + Replies(Acks(rest))
  {
    if e.ok {
      assert ([e.bytes] + rest)[1..] == rest;
      RepliesFirst([e.bytes[0], ACK], Acks(rest));
    } else {
      assert [] + rest == rest;
    }
  }

  lemma {:induction false} AnswersCons(session: seq<R.Sent>)
    requires session != []
    ensures AckAnswers(Passed(session))
         == (if R.Supported(session[0].req) then [Answer(P.CommandName(session[0].req), "ACK")] else [])
            + AckAnswers(Passed(session[1..]))
  {
  }

  // ----- Turns and requests ---------------------------------------------------------------------

  lemma {:induction false} PassedLast(session: seq<R.Sent>, last: R.Sent)
    ensures Passed(session + [last]) == Passed(session) + Pass(last)
  {
    if session == [] {
      assert (session + [last])[1..] == [];
    } else {
      assert (session + [last])[1..] == session[1..] + [last];
      PassedLast(session[1..], last);
      Associates(Pass(session[0]), Passed(session[1..]), Pass(last));
    }
  }

  /** The t-th accepted command is that of the t-th supported request. */
  lemma {:induction false} PassedAt(session: seq<R.Sent>, written: seq<nat>, marks: seq<Option<nat>>, t: nat)
    returns (r: nat)
    requires |session| == |written| && forall i :: 0 <= i < |written| ==>
               (written[i] < |marks| && marks[written[i]].Some? <==> R.Supported(session[i].req))
    requires t < |Pairing.Kept(written, marks)|
    ensures |Passed(session)| == |Pairing.Kept(written, marks)|
    ensures r < |session| && Pairing.Kept(written, marks)[t] == written[r] && Passed(session)[t] == session[r]
    decreases |session|
  {
    var n := |session| - 1;
    assert session == session[..n] + [session[n]];
    PassedLast(session[..n], session[n]);
    PassedLength(session[..n], written[..n], marks);
    if t < |Pairing.Kept(written[..n], marks)| {
      r := PassedAt(session[..n], written[..n], marks, t);
    } else {
      r := n;
    }
  }

  lemma {:induction false} PassedLength(session: seq<R.Sent>, written: seq<nat>, marks: seq<Option<nat>>)
    requires |session| == |written| && forall i :: 0 <= i < |written| ==>
               (written[i] < |marks| && marks[written[i]].Some? <==> R.Supported(session[i].req))
    ensures |Passed(session)| == |Pairing.Kept(written, marks)|
    decreases |session|
  {
    if session != [] {
      var n := |session| - 1;
      assert session == session[..n] + [session[n]];
      PassedLast(session[..n], session[n]);
      PassedLength(session[..n], written[..n], marks);
    }
  }

  // ----- The session ----------------------------------------------------------------------------

  /** The calls wrote the requests of the session in this order, and the C program accepted what it accepts. */
  ghost predicate Wrote(s: Pairing.State, session: seq<R.Sent>)
  {
    && |s.written| == |session|
    && forall r :: 0 <= r < |session| ==>
         (s.written[r] < |s.calls| && s.calls[s.written[r]].turn.Some? <==>
          Compile(Line(P.Args(session[r].req)), session[r].now).ok)
  }

  /** The request of the call with a turn is the supported one of that number. */
  lemma {:induction false} TurnIsPassed(s: Pairing.State, session: seq<R.Sent>, i: nat)
    requires ValidSession(session) && Wrote(s, session) && Pairing.Ranked(s) && Pairing.Filtered(s)
    requires i < |s.calls| && s.calls[i].rank.Some? && s.calls[i].turn.Some?
    ensures s.calls[i].rank.value < |session| && s.calls[i].turn.value < |Passed(session)|
    ensures Passed(session)[s.calls[i].turn.value] == session[s.calls[i].rank.value]
  {
    forall r | 0 <= r < |session|
      ensures s.written[r] < |s.calls| && Pairing.Turns(s)[s.written[r]].Some? <==> R.Supported(session[r].req)
    {
      R.CommandPreservesMeaning(session[r].req, P.Args(session[r].req), session[r].now);
    }
    var t := s.calls[i].turn.value;
    assert Pairing.Turns(s)[i] == Some(t) && Pairing.Ranks(s)[i] == s.calls[i].rank;
    var r := PassedAt(session, s.written, Pairing.Turns(s), t);
    assert s.written[r] == i && Pairing.Ranks(s)[s.written[r]] == Some(r);
  }

  /** The device reads the frames that the C program writes for the session, acknowledges each command, and what it
      sends comes back over the link. */
  ghost predicate Acknowledged(session: seq<R.Sent>, device: Rx, chunks: seq<seq<byte>>, items: seq<Item>, k: Link)
  {
    && Formats(COMMANDS) && device.Valid() && device.phase == Idle && device.out == []
    && Flatten(chunks) == WireOf(Accepted(COMMANDS, COMMANDS_D, R.Inputs(session)))
    && Carries(k, items) && Spoken(Frames(items)) == Acks(Payloads(RunChunks(device, chunks).out))
  }

  /** What the reader thread enqueues when the device acknowledges everything it received. */
  lemma {:induction false} SessionHeard(session: seq<R.Sent>, device: Rx, chunks: seq<seq<byte>>, items: seq<Item>,
                                        k: Link)
    requires ValidSession(session) && Acknowledged(session, device, chunks, items, k)
    ensures Enqueued(Heard(k)) == Pairs(AckAnswers(Passed(session)))
  {
    WrittenFramesDecode(COMMANDS, COMMANDS_D, R.Inputs(session), device, chunks);
    AllAcks(COMMANDS, COMMANDS_D, session);
    RepliesSpoken(Frames(items));
    AnswersArrive(k, items);
  }

  lemma {:induction false} PairAt(answers: seq<Message>, t: nat)
    requires (forall i :: 0 <= i < |answers| ==> answers[i].Answer?) && t < |answers|
    ensures |Pairs(answers)| == |answers| && Pairs(answers)[t] == [answers[t].cmd, answers[t].arg]
    decreases |answers|
  {
    if |answers| > 1 { PairAt(answers[1..], if t > 0 then t - 1 else 0); }
  }

  /** The answer of a call that got its turn is its own acknowledgement. */
  lemma {:induction false} TurnAnswered(session: seq<R.Sent>, s: Pairing.State, i: nat, sent: R.Sent)
    requires Pairing.Inv(s) && i < |s.calls| && s.calls[i].turn.Some?
    requires s.calls[i].pc == Pairing.Returned(s.calls[i].turn)
    requires s.calls[i].turn.value < |Passed(session)| && Passed(session)[s.calls[i].turn.value] == sent
    requires Texts(s.log) <= Pairs(AckAnswers(Passed(session)))
    ensures Pairing.AnswerOf(s, i) == Some([P.CommandName(sent.req), "ACK"])
  {
    var t := s.calls[i].turn.value;
    PairAt(AckAnswers(Passed(session)), t);
    assert Pairing.Fair(s.calls[i], s);
    assert Texts(s.log)[t] == s.log[t].text;
  }

  /** The request of a call is supported if and only if the call got a turn. */
  lemma {:induction false} TurnIffSupported(session: seq<R.Sent>, s: Pairing.State, i: nat)
    requires ValidSession(session) && Wrote(s, session) && Pairing.Ranked(s)
    requires i < |s.calls| && s.calls[i].rank.Some?
    ensures s.calls[i].rank.value < |session|
    ensures s.calls[i].turn.Some? <==> R.Supported(session[s.calls[i].rank.value].req)
  {
    var r := s.calls[i].rank.value;
    assert Pairing.Ranks(s)[i] == Some(r) && s.written[r] == i;
    R.CommandPreservesMeaning(session[r].req, P.Args(session[r].req), session[r].now);
  }

  lemma {:induction false} SessionCall(session: seq<R.Sent>, s: Pairing.State, i: nat)
    requires ValidSession(session) && Wrote(s, session) && Pairing.RankedInv(s)
    requires i < |s.calls| && s.calls[i].pc == Pairing.Returned(s.calls[i].turn) && s.calls[i].rank.Some?
    requires Texts(s.log) <= Pairs(AckAnswers(Passed(session)))
    ensures s.calls[i].rank.value < |session|
    ensures var req := session[s.calls[i].rank.value].req;
            Pairing.AnswerOf(s, i) == if R.Supported(req) then Some([P.CommandName(req), "ACK"]) else None
  {
    TurnIffSupported(session, s, i);
    if s.calls[i].turn.Some? {
      TurnIsPassed(s, session, i);
      TurnAnswered(session, s, i, session[s.calls[i].rank.value]);
    }
  }

  lemma {:induction false} SessionResult(session: seq<R.Sent>, steps: seq<Pairing.Step>, s: Pairing.State,
                                         queue: seq<seq<string>>, i: nat)
    requires ValidSession(session) && Wrote(s, session) && queue == Pairs(AckAnswers(Passed(session)))
    requires Pairing.PoliteRun(Pairing.INIT, steps) && s == Trace.Run(Pairing.Apply, Pairing.INIT, steps)
    requires Texts(s.log) <= queue && i < |s.calls| && s.calls[i].pc.Returned? && s.calls[i].rank.Some?
    ensures s.calls[i].rank.value < |session|
    ensures var req := session[s.calls[i].rank.value].req;
            P.SendCmdResult(P.CommandName(req), Pairing.AnswerOf(s, i)) == if R.Supported(req) then 0 else 1
  {
    Pairing.RunRanked(Pairing.INIT, steps);
    Pairing.NthCallNthAnswer(steps, s, i);
    SessionCall(session, s, i);
  }

  /** A whole session, from the requests through both programs, the device and back: the calls write the requests, in
      whatever order they get the mutex; the C program frames those it accepts; the device reads the frames in any
      chunks and acknowledges each, amid any noise and measure frames; the answers come back in any chunks, and each is
      handled within its own call. Then every call whose command was written makes send_cmd() return 0 if its request
      is supported, and 1 if not. */
  lemma {:induction false} AcknowledgedSession(session: seq<R.Sent>, steps: seq<Pairing.Step>, s: Pairing.State,
                                               device: Rx, chunks: seq<seq<byte>>, items: seq<Item>, k: Link, i: nat)
    requires ValidSession(session) && Wrote(s, session) && Acknowledged(session, device, chunks, items, k)
    requires Pairing.PoliteRun(Pairing.INIT, steps) && s == Trace.Run(Pairing.Apply, Pairing.INIT, steps)
    requires Texts(s.log) <= Enqueued(Heard(k))
    requires i < |s.calls| && s.calls[i].pc.Returned? && s.calls[i].rank.Some?
    ensures s.calls[i].rank.value < |session|
    ensures var req := session[s.calls[i].rank.value].req;
            P.SendCmdResult(P.CommandName(req), Pairing.AnswerOf(s, i)) == if R.Supported(req) then 0 else 1
  {
    SessionHeard(session, device, chunks, items, k);
    SessionResult(session, steps, s, Enqueued(Heard(k)), i);
  }
}
