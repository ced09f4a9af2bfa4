/** Requests and answers in cn_interface.py: any number of send_command() calls, the reader thread and the
    one-slot queue, as atomic steps that may interleave in any order. */
module Pairing {
  import opened Dict
  import opened Protocol
  import opened Trace

  /** Where a call of send_command() stands: before `with`, testing empty(), before get_nowait(), before the
      write, in get(), returned with the position of its answer, or ended by an exception of empty_queue(). */
  datatype Pc = Entering | Testing | Taking | Writing | Waiting | Returned(answer: Option<nat>) | Crashed

  /** `drained` is the number of answers handled when the call found the queue empty, `heard` the number when it
      returned, `rank` the number of commands written before its own, once that is written, and `turn` the number of
      those that the C program accepted, if it accepts this one too. */
  datatype Call = Call(pc: Pc, drained: nat, heard: nat, rank: Option<nat>, turn: Option<nat>)

  /** A command answer, and the call whose command the device answers with it. */
  datatype Answer = Answer(text: seq<string>, from: nat)

  /** The calls made so far, who holds _send_mutex, the positions in the log of the queued answers; and history:
      every answer handled by the reader, the calls in the order of their writes, those whose line was accepted, the
      answers taken in order, each with its call, and how many answers were drained or refused. */
  datatype State = State(calls: seq<Call>, holder: Option<nat>, msgs: seq<nat>, log: seq<Answer>,
                         written: seq<nat>, accepted: seq<nat>, taken: seq<(nat, nat)>, discarded: nat)

  datatype Step =
    | Enter
    | Acquire(i: nat)
    | Test(i: nat)
    | Take(i: nat)
    | Write(i: nat, ok: bool, accepted: bool)
    | Get(i: nat)
    | Expire(i: nat)
    | Handle(answer: Answer)

  const INIT := State([], None, [], [], [], [], [], 0)

  predicate At(s: State, i: nat, pc: Pc)
  {
    i < |s.calls| && s.calls[i].pc == pc
  }

  function Move(s: State, i: nat, pc: Pc): (t: State)
    requires i < |s.calls|
    ensures |t.calls| == |s.calls| && forall j :: 0 <= j < |s.calls| && j != i ==> t.calls[j] == s.calls[j]
  {
    s.(calls := s.calls[i := s.calls[i].(pc := pc)])
  }

  /** The end of the `with` block, by return or exception. */
  function Leave(s: State, i: nat, pc: Pc): (t: State)
    requires i < |s.calls|
  {
    s.(calls := s.calls[i := s.calls[i].(pc := pc, heard := |s.log|)], holder := None)
  }

  /** A write that succeeds; the C program accepts the line or refuses it. */
  function WriteOut(s: State, i: nat, accepted: bool): (t: State)
    requires i < |s.calls|
  {
    var turn := if accepted then Some(|s.accepted|) else None;
    s.(calls := s.calls[i := s.calls[i].(pc := Waiting, rank := Some(|s.written|), turn := turn)],
       written := s.written + [i], accepted := s.accepted + (if accepted then [i] else []))
  }

  /** One atomic step; a step that is not enabled does nothing. */
  function Apply(s: State, step: Step): (t: State)
  {
    match step
    case Enter => s.(calls := s.calls + [Call(Entering, 0, 0, None, None)])
    case Acquire(i) =>
      if At(s, i, Entering) && s.holder == None then Move(s, i, Testing).(holder := Some(i)) else s
    case Test(i) =>
      if !At(s, i, Testing) then s
      else if s.msgs != [] then Move(s, i, Taking)
      else s.(calls := s.calls[i := Call(Writing, |s.log|, 0, None, None)])
    case Take(i) =>
      if !At(s, i, Taking) then s
      else if s.msgs == [] then Leave(s, i, Crashed)
      else Move(s, i, Testing).(msgs := s.msgs[1..], discarded := s.discarded + 1)
    case Write(i, ok, accepted) =>
      if !At(s, i, Writing) then s else if ok then WriteOut(s, i, accepted) else Leave(s, i, Returned(None))
    case Get(i) =>
      if At(s, i, Waiting) && s.msgs != [] then
        Leave(s, i, Returned(Some(s.msgs[0]))).(msgs := s.msgs[1..], taken := s.taken + [(i, s.msgs[0])])
      else s
    case Expire(i) =>
      if At(s, i, Waiting) && s.msgs == [] then Leave(s, i, Returned(None)) else s
    case Handle(a) =>
      var t := s.(log := s.log + [a]);
      if |s.msgs| < 1 then t.(msgs := s.msgs + [|s.log|]) else t.(discarded := s.discarded + 1)
  }

  // ----- The invariant --------------------------------------------------------------------------

  /** Between the acquisition and the release of the mutex. */
  predicate Inside(c: Call)
  {
    c.pc.Testing? || c.pc.Taking? || c.pc.Writing? || c.pc.Waiting?
  }

  /** The queue as the call in `c` must see it: not empty when it is about to take, and after its drain
      holding at most the very first answer handled since. */
  predicate Sees(c: Call, s: State)
  {
    && (c.pc.Taking? ==> s.msgs != [])
    && (c.pc.Writing? || c.pc.Waiting? ==> if s.msgs == [] then |s.log| == c.drained else s.msgs == [c.drained])
  }

  /** A returned answer is the first one handled after the drain, and was handled before the return; a call whose
      command was written returns without answer only if none was handled. */
  predicate Fair(c: Call, s: State)
  {
    && c.heard <= |s.log|
    && match c.pc
       case Returned(Some(k)) => k == c.drained < c.heard && c.rank.Some?
       case Returned(None) => c.rank.Some? ==> c.heard == c.drained
       case Waiting => c.rank.Some?
       case Crashed => false
       case _ => c.rank == None && c.turn == None
  }

  predicate Inv(s: State)
  {
    && |s.msgs| <= 1 && (forall k :: k in s.msgs ==> k < |s.log|)
    && (s.holder.Some? ==> s.holder.value < |s.calls|)
    && (forall i :: 0 <= i < |s.calls| ==> (Inside(s.calls[i]) <==> s.holder == Some(i)))
    && (forall i :: 0 <= i < |s.calls| ==> Sees(s.calls[i], s) && Fair(s.calls[i], s))
  }

  lemma StepMutex(s: State, step: Step)
    requires Inv(s)
    ensures var t := Apply(s, step);
            && |t.msgs| <= 1 && (forall k :: k in t.msgs ==> k < |t.log|)
            && (t.holder.Some? ==> t.holder.value < |t.calls|)
            && (forall i :: 0 <= i < |t.calls| ==> (Inside(t.calls[i]) <==> t.holder == Some(i)))
  {
  }

  lemma StepSees(s: State, step: Step, j: nat)
    requires Inv(s) && j < |Apply(s, step).calls|
    ensures Sees(Apply(s, step).calls[j], Apply(s, step))
  {
    if j < |s.calls| {
      assert Inside(s.calls[j]) <==> s.holder == Some(j);
      assert Sees(s.calls[j], s);
    }
  }

  lemma StepFair(s: State, step: Step, j: nat)
    requires Inv(s) && j < |Apply(s, step).calls|
    ensures Fair(Apply(s, step).calls[j], Apply(s, step))
  {
    assert s.msgs != [] ==> s.msgs[0] in s.msgs;
    if j < |s.calls| {
      assert Sees(s.calls[j], s) && Fair(s.calls[j], s);
    }
  }

  lemma StepInv(s: State, step: Step)
    requires Inv(s)
    ensures Inv(Apply(s, step))
  {
    StepMutex(s, step);
    var t := Apply(s, step);
    forall j | 0 <= j < |t.calls|
      ensures Sees(t.calls[j], t) && Fair(t.calls[j], t)
    {
      StepSees(s, step, j);
      StepFair(s, step, j);
    }
  }

  lemma RunInv(s: State, steps: seq<Step>)
    requires Inv(s)
    ensures Inv(Run(Apply, s, steps))
  {
    forall x, a | Inv(x)
      ensures Inv(Apply(x, a))
    {
      StepInv(x, a);
    }
    RunKeeps(Apply, Inv, s, steps);
  }

  /** Every interleaving: one item at most, one call at most inside, no exception from empty_queue(). */
  lemma EveryRun(steps: seq<Step>, i: nat, j: nat)
    ensures var s := Run(Apply, INIT, steps);
            && Inv(s) && |s.msgs| <= 1
            && (i < |s.calls| ==> s.calls[i].pc != Crashed)
            && (i < j < |s.calls| ==> !(Inside(s.calls[i]) && Inside(s.calls[j])))
  {
    RunInv(INIT, steps);
    var s := Run(Apply, INIT, steps);
    if i < |s.calls| {
      assert Fair(s.calls[i], s);
    }
  }

  // ----- What a call returns --------------------------------------------------------------------

  /** The value of send_command() for a call that returned. */
  function AnswerOf(s: State, i: nat): (r: Option<seq<string>>)
    requires i < |s.calls| && s.calls[i].pc.Returned?
  {
    match s.calls[i].pc.answer
    case Some(k) => if k < |s.log| then Some(s.log[k].text) else None
    case None => None
  }

  /** In every run: a call whose command was written returns the first answer handled after its drain, and None
      only if there was none before its return. */
  lemma ReturnsFirstAnswer(steps: seq<Step>, s: State, i: nat)
    requires s == Run(Apply, INIT, steps) && i < |s.calls| && s.calls[i].pc.Returned? && s.calls[i].rank.Some?
    ensures var c := s.calls[i];
            && c.heard <= |s.log|
            && AnswerOf(s, i) == if c.drained < c.heard then Some(s.log[c.drained].text) else None
  {
    RunInv(INIT, steps);
    assert Fair(s.calls[i], s);
  }

  /** In every run: send_cmd() is 0 exactly when the first answer handled after the call's drain came before its
      return and is the command's own acknowledgement. */
  lemma SuccessIsFirstAnswer(steps: seq<Step>, s: State, i: nat, command: string)
    requires s == Run(Apply, INIT, steps) && i < |s.calls| && s.calls[i].pc.Returned?
    ensures SendCmdResult(command, AnswerOf(s, i)) == 0 <==>
              && s.calls[i].pc.answer == Some(s.calls[i].drained)
              && s.calls[i].drained < s.calls[i].heard <= |s.log|
              && s.log[s.calls[i].drained].text == [command, "ACK"]
  {
    RunInv(INIT, steps);
    assert Fair(s.calls[i], s);
  }

  // ----- No answer is duplicated, reordered or lost without count -------------------------------

  predicate Accounts(s: State)
  {
    && |s.log| == |s.taken| + |s.msgs| + s.discarded
    && (forall m, n :: 0 <= m < n < |s.taken| ==> s.taken[m].1 < s.taken[n].1)
    && (forall n :: 0 <= n < |s.taken| ==> s.taken[n].1 < |s.log| && (s.msgs != [] ==> s.taken[n].1 < s.msgs[0]))
  }

  predicate Recorded(s: State)
  {
    forall i :: 0 <= i < |s.calls| && s.calls[i].pc.Returned? && s.calls[i].pc.answer.Some? ==>
      (i, s.calls[i].pc.answer.value) in s.taken
  }

  lemma StepAccounts(s: State, step: Step)
    requires Inv(s) && Accounts(s)
    ensures Accounts(Apply(s, step))
  {
    assert s.msgs != [] ==> s.msgs[0] in s.msgs;
  }

  lemma StepRecorded(s: State, step: Step)
    requires Inv(s) && Recorded(s)
    ensures Recorded(Apply(s, step))
  {
    var t := Apply(s, step);
    assert forall p :: p in s.taken ==> p in t.taken;
    forall i | 0 <= i < |t.calls| && t.calls[i].pc.Returned? && t.calls[i].pc.answer.Some?
      ensures (i, t.calls[i].pc.answer.value) in t.taken
    {
      if t.calls[i].pc != Entering && t.calls[i] != s.calls[i] {
        assert step == Get(i) && t.taken[|s.taken|] == (i, t.calls[i].pc.answer.value);
      }
    }
  }

  predicate Conserving(s: State)
  {
    Inv(s) && Accounts(s) && Recorded(s)
  }

  lemma TakenOnce(s: State, i: nat, j: nat)
    requires Accounts(s) && Recorded(s) && i < j < |s.calls| && s.calls[i].pc.Returned? && s.calls[j].pc.Returned?
    ensures s.calls[i].pc.answer.Some? ==> s.calls[i].pc.answer != s.calls[j].pc.answer
  {
    if s.calls[i].pc.answer.Some? && s.calls[j].pc.answer.Some? {
      var m :| 0 <= m < |s.taken| && s.taken[m] == (i, s.calls[i].pc.answer.value);
      var n :| 0 <= n < |s.taken| && s.taken[n] == (j, s.calls[j].pc.answer.value);
      assert m < n || n < m;
    }
  }

  /** Every answer handled is returned to one call, still queued, or counted as discarded; two calls never
      return the same answer. */
  lemma AnswersConserved(steps: seq<Step>, i: nat, j: nat)
    ensures var s := Run(Apply, INIT, steps);
            && |s.log| == |s.taken| + |s.msgs| + s.discarded
            && (i < j < |s.calls| && s.calls[i].pc.Returned? && s.calls[j].pc.Returned? && s.calls[i].pc.answer.Some?
                ==> s.calls[i].pc.answer != s.calls[j].pc.answer)
  {
    forall x, a | Conserving(x)
      ensures Conserving(Apply(x, a))
    {
      StepInv(x, a);
      StepAccounts(x, a);
      StepRecorded(x, a);
    }
    RunKeeps(Apply, Conserving, INIT, steps);
    var s := Run(Apply, INIT, steps);
    if i < j < |s.calls| && s.calls[i].pc.Returned? && s.calls[j].pc.Returned? { TakenOnce(s, i, j); }
  }

  // ----- The order of the writes ----------------------------------------------------------------

  /** `marks` gives each element of the list its position, and nothing to the others. */
  predicate Indexes(marks: seq<Option<nat>>, list: seq<nat>)
  {
    && (forall i :: 0 <= i < |marks| && marks[i].Some? ==> marks[i].value < |list| && list[marks[i].value] == i)
    && (forall r :: 0 <= r < |list| ==> list[r] < |marks| && marks[list[r]] == Some(r))
  }

  lemma IndexesMore(marks: seq<Option<nat>>, list: seq<nat>)
    requires Indexes(marks, list)
    ensures Indexes(marks + [None], list)
  {
  }

  lemma IndexesLast(marks: seq<Option<nat>>, list: seq<nat>, i: nat)
    requires Indexes(marks, list) && i < |marks| && marks[i] == None
    ensures Indexes(marks[i := Some(|list|)], list + [i])
  {
  }

  function Ranks(s: State): (r: seq<Option<nat>>)
    ensures |r| == |s.calls| && forall i :: 0 <= i < |r| ==> r[i] == s.calls[i].rank
  {
    seq(|s.calls|, i requires 0 <= i < |s.calls| => s.calls[i].rank)
  }

  function Turns(s: State): (r: seq<Option<nat>>)
    ensures |r| == |s.calls| && forall i :: 0 <= i < |r| ==> r[i] == s.calls[i].turn
  {
    seq(|s.calls|, i requires 0 <= i < |s.calls| => s.calls[i].turn)
  }

  predicate Ranked(s: State)
  {
    Indexes(Ranks(s), s.written) && Indexes(Turns(s), s.accepted)
  }

  /** A step that writes nothing out leaves ranks and turns, and a new call has none. */
  lemma OtherRanks(s: State, step: Step)
    requires Inv(s) && !(step.Write? && step.ok && At(s, step.i, Writing))
    ensures var t, more := Apply(s, step), if step.Enter? then [None] else [];
            && t.written == s.written && t.accepted == s.accepted
            && Ranks(t) == Ranks(s) + more && Turns(t) == Turns(s) + more
  {
    if step.Test? && step.i < |s.calls| {
      assert Fair(s.calls[step.i], s);
    }
  }

  lemma WriteRanks(s: State, i: nat, accepted: bool)
    requires i < |s.calls| && s.calls[i].rank == None && s.calls[i].turn == None
    ensures var t := WriteOut(s, i, accepted);
            && Ranks(t) == Ranks(s)[i := Some(|s.written|)]
            && Turns(t) == (if accepted then Turns(s)[i := Some(|s.accepted|)] else Turns(s))
  {
  }

  lemma StepRanked(s: State, step: Step)
    requires Inv(s) && Ranked(s)
    ensures Ranked(Apply(s, step))
  {
    if step.Write? && step.ok && At(s, step.i, Writing) {
      assert Fair(s.calls[step.i], s);
      WriteRanks(s, step.i, step.accepted);
      IndexesLast(Ranks(s), s.written, step.i);
      IndexesLast(Turns(s), s.accepted, step.i);
      assert s.accepted + [] == s.accepted;
    } else {
      OtherRanks(s, step);
      IndexesMore(Ranks(s), s.written);
      IndexesMore(Turns(s), s.accepted);
      assert Ranks(s) + [] == Ranks(s) && Turns(s) + [] == Turns(s);
    }
  }

  /** The waiting call wrote last, and nothing handled before a return answers a later command. */
  predicate Timely(s: State)
  {
    forall i :: 0 <= i < |s.calls| ==>
      && (s.calls[i].pc.Waiting? ==> s.calls[i].rank == Some(|s.written| - 1))
      && (s.calls[i].pc.Returned? && s.calls[i].rank.Some? ==> NoneLater(s, s.calls[i].heard, s.calls[i].rank.value))
  }

  /** The first `n` answers are to the commands up to a rank. */
  predicate NoneLater(s: State, n: nat, rank: nat)
  {
    forall k :: 0 <= k < n && k < |s.log| ==> Rank(s, s.log[k].from) <= rank
  }

  /** -1 for a command that was not written. */
  function Rank(s: State, i: nat): (r: int)
  {
    if i < |s.calls| && s.calls[i].rank.Some? then s.calls[i].rank.value else -1
  }

  /** The elements of the list that have a mark. */
  function Kept(list: seq<nat>, marks: seq<Option<nat>>): (r: seq<nat>)
  {
    if list == [] then []
    else
      var last := list[|list| - 1];
      Kept(list[..|list| - 1], marks) + (if last < |marks| && marks[last].Some? then [last] else [])
  }

  predicate SameMark(a: seq<Option<nat>>, b: seq<Option<nat>>, x: nat)
  {
    (x < |a| && a[x].Some?) == (x < |b| && b[x].Some?)
  }

  lemma {:induction false} KeptSame(list: seq<nat>, a: seq<Option<nat>>, b: seq<Option<nat>>)
    requires forall r :: 0 <= r < |list| ==> SameMark(a, b, list[r])
    ensures Kept(list, a) == Kept(list, b)
  {
    if list != [] {
      assert SameMark(a, b, list[|list| - 1]);
      KeptSame(list[..|list| - 1], a, b);
    }
  }

  /** The accepted commands are the written ones that have a turn. */
  predicate Filtered(s: State)
  {
    s.accepted == Kept(s.written, Turns(s))
  }

  lemma WriteFiltered(s: State, i: nat, accepted: bool)
    requires Ranked(s) && Filtered(s) && i < |s.calls| && s.calls[i].rank == None && s.calls[i].turn == None
    ensures Filtered(WriteOut(s, i, accepted))
  {
    var t := WriteOut(s, i, accepted);
    WriteRanks(s, i, accepted);
    assert forall r :: 0 <= r < |s.written| ==>
        Ranks(s)[s.written[r]] == Some(r) && SameMark(Turns(s), Turns(t), s.written[r]);
    KeptSame(s.written, Turns(s), Turns(t));
    assert t.written[..|s.written|] == s.written;
  }

  lemma StepFiltered(s: State, step: Step)
    requires Inv(s) && Ranked(s) && Filtered(s)
    ensures Filtered(Apply(s, step))
  {
    if step.Write? && step.ok && At(s, step.i, Writing) {
      assert Fair(s.calls[step.i], s);
      WriteFiltered(s, step.i, step.accepted);
    } else {
      OtherRanks(s, step);
      KeptSame(s.written, Turns(s), Turns(Apply(s, step)));
    }
  }

  predicate RankedInv(s: State)
  {
    Inv(s) && Ranked(s) && Filtered(s)
  }

  lemma RunRanked(s: State, steps: seq<Step>)
    requires RankedInv(s)
    ensures RankedInv(Run(Apply, s, steps))
  {
    forall x, a | RankedInv(x)
      ensures RankedInv(Apply(x, a))
    {
      StepInv(x, a);
      StepRanked(x, a);
      StepFiltered(x, a);
    }
    RunKeeps(Apply, RankedInv, s, steps);
  }

  // ----- Whose answer it is ---------------------------------------------------------------------

  /** The device answers some of the accepted commands, each at most once and in the order of the writes, however
      late. */
  predicate InOrder(s: State, step: Step)
  {
    step.Handle? ==>
      && step.answer.from < |s.calls| && s.calls[step.answer.from].rank.Some? && s.calls[step.answer.from].turn.Some?
      && forall k :: 0 <= k < |s.log| ==> Rank(s, s.log[k].from) < Rank(s, step.answer.from)
  }

  predicate InOrderRun(s: State, steps: seq<Step>)
    decreases |steps|
  {
    steps == [] || (InOrder(s, steps[0]) && InOrderRun(Apply(s, steps[0]), steps[1..]))
  }

  /** The commands answered so far were written, and in the order of their answers. */
  predicate Rising(s: State)
  {
    && (forall k :: 0 <= k < |s.log| ==> 0 <= Rank(s, s.log[k].from))
    && (forall k, l :: 0 <= k < l < |s.log| ==> Rank(s, s.log[k].from) < Rank(s, s.log[l].from))
  }

  /** Ranks, once given, stay. */
  lemma RankStays(s: State, step: Step, i: nat)
    requires Inv(s) && 0 <= Rank(s, i)
    ensures Rank(Apply(s, step), i) == Rank(s, i)
  {
    assert Fair(s.calls[i], s);
  }

  lemma StepRising(s: State, step: Step)
    requires Inv(s) && Rising(s) && InOrder(s, step)
    ensures Rising(Apply(s, step))
  {
    var t := Apply(s, step);
    forall k | 0 <= k < |t.log|
      ensures Rank(t, t.log[k].from) == Rank(s, t.log[k].from) >= 0
    {
      if k < |s.log| { assert t.log[k] == s.log[k]; }
      RankStays(s, step, t.log[k].from);
    }
  }

  lemma NoneLaterStays(s: State, step: Step, n: nat, rank: nat)
    requires Inv(s) && Rising(s) && n <= |s.log| && NoneLater(s, n, rank)
    ensures NoneLater(Apply(s, step), n, rank)
  {
    var t := Apply(s, step);
    forall k | 0 <= k < n
      ensures Rank(t, t.log[k].from) <= rank
    {
      assert t.log[k] == s.log[k];
      RankStays(s, step, s.log[k].from);
    }
  }

  /** Nothing later than the last write is answered. */
  lemma LastIsLatest(s: State, rank: nat)
    requires Ranked(s) && rank == |s.written| - 1
    ensures NoneLater(s, |s.log|, rank)
  {
    forall k | 0 <= k < |s.log|
      ensures Rank(s, s.log[k].from) <= rank
    {
      var f := s.log[k].from;
      assert f < |s.calls| ==> Ranks(s)[f] == s.calls[f].rank;
    }
  }

  lemma WaitingWroteLast(s: State, step: Step, i: nat)
    requires Inv(s) && Timely(s) && i < |Apply(s, step).calls| && Apply(s, step).calls[i].pc.Waiting?
    ensures Apply(s, step).calls[i].rank == Some(|Apply(s, step).written| - 1)
  {
    if i < |s.calls| {
      assert Inside(s.calls[i]) <==> s.holder == Some(i);
      if step.Write? && step.i < |s.calls| {
        assert Inside(s.calls[step.i]) <==> s.holder == Some(step.i);
      }
    }
  }

  /** A call that has returned stays as it is, and one that returns does so at the end of the log. */
  lemma ReturnedOrReturns(s: State, step: Step, i: nat)
    requires Inv(s) && i < |Apply(s, step).calls|
    requires Apply(s, step).calls[i].pc.Returned? && Apply(s, step).calls[i].rank.Some?
    ensures i < |s.calls| && s.calls[i].rank == Apply(s, step).calls[i].rank
    ensures || (s.calls[i].pc.Returned? && s.calls[i].heard == Apply(s, step).calls[i].heard)
            || (s.calls[i].pc.Waiting? && Apply(s, step).calls[i].heard == |s.log|)
  {
    assert i < |s.calls| && Fair(s.calls[i], s);
  }

  lemma StepTimely(s: State, step: Step)
    requires Inv(s) && Ranked(s) && Timely(s) && Rising(s)
    ensures Timely(Apply(s, step))
  {
    var t := Apply(s, step);
    forall i | 0 <= i < |t.calls|
      ensures t.calls[i].pc.Waiting? ==> t.calls[i].rank == Some(|t.written| - 1)
      ensures t.calls[i].pc.Returned? && t.calls[i].rank.Some? ==> NoneLater(t, t.calls[i].heard, t.calls[i].rank.value)
    {
      if t.calls[i].pc.Waiting? {
        WaitingWroteLast(s, step, i);
      } else if t.calls[i].pc.Returned? && t.calls[i].rank.Some? {
        ReturnedOrReturns(s, step, i);
        assert Fair(s.calls[i], s);
        var rank := s.calls[i].rank.value;
        if s.calls[i].pc.Waiting? { LastIsLatest(s, rank); }
        NoneLaterStays(s, step, t.calls[i].heard, rank);
      }
    }
  }

  predicate Answered(s: State)
  {
    Inv(s) && Ranked(s) && Rising(s) && Timely(s)
  }

  lemma {:induction false} RunAnswered(s: State, steps: seq<Step>)
    requires Answered(s) && InOrderRun(s, steps)
    ensures Answered(Run(Apply, s, steps))
    decreases |steps|
  {
    if steps != [] {
      StepInv(s, steps[0]);
      StepRanked(s, steps[0]);
      StepRising(s, steps[0]);
      StepTimely(s, steps[0]);
      RunAnswered(Apply(s, steps[0]), steps[1..]);
    }
  }

  lemma SameRankSameCall(s: State, i: nat, j: nat)
    requires Ranked(s) && 0 <= Rank(s, i) == Rank(s, j)
    ensures i == j
  {
    assert Ranks(s)[i] == Ranks(s)[j] == Some(Rank(s, i));
    assert s.written[Rank(s, i)] == i;
  }

  /** At or after the drain of a call, no command written before its own is answered. */
  predicate NoneEarlier(s: State, i: nat)
    requires i < |s.calls|
  {
    forall k :: s.calls[i].drained <= k < |s.log| ==> Rank(s, s.log[k].from) >= Rank(s, i)
  }

  /** In every run in which the device answers some of the accepted commands in order: an answer that a call returns
      is its own if and only if no command written before its own is answered at or after its drain. */
  lemma OwnAnswerIff(steps: seq<Step>, s: State, i: nat)
    requires InOrderRun(INIT, steps) && s == Run(Apply, INIT, steps)
    requires i < |s.calls| && s.calls[i].pc.Returned? && s.calls[i].pc.answer.Some?
    ensures s.calls[i].pc.answer.value < |s.log|
    ensures s.log[s.calls[i].pc.answer.value].from == i <==> NoneEarlier(s, i)
  {
    RunAnswered(INIT, steps);
    OwnIff(s, i);
  }

  lemma FirstDecides(s: State, i: nat)
    requires Rising(s) && i < |s.calls| && s.calls[i].drained < |s.log|
    ensures NoneEarlier(s, i) <==> Rank(s, s.log[s.calls[i].drained].from) >= Rank(s, i)
  {
    var d := s.calls[i].drained;
    assert forall k :: d < k < |s.log| ==> Rank(s, s.log[d].from) < Rank(s, s.log[k].from);
  }

  /** What a call returns, and that it answers no later command. */
  lemma FirstNotLater(s: State, i: nat)
    requires Inv(s) && Timely(s) && Rising(s)
    requires i < |s.calls| && s.calls[i].pc.Returned? && s.calls[i].pc.answer.Some?
    ensures s.calls[i].pc.answer.value == s.calls[i].drained < |s.log|
    ensures 0 <= Rank(s, s.log[s.calls[i].drained].from) <= Rank(s, i)
  {
    assert Fair(s.calls[i], s);
    assert NoneLater(s, s.calls[i].heard, s.calls[i].rank.value);
  }

  lemma OwnIff(s: State, i: nat)
    requires Answered(s) && i < |s.calls| && s.calls[i].pc.Returned? && s.calls[i].pc.answer.Some?
    ensures s.calls[i].pc.answer.value < |s.log|
    ensures s.log[s.calls[i].pc.answer.value].from == i <==> NoneEarlier(s, i)
  {
    FirstNotLater(s, i);
    FirstDecides(s, i);
    var f := s.log[s.calls[i].drained].from;
    if Rank(s, f) == Rank(s, i) { SameRankSameCall(s, f, i); }
  }

  /** The device answers every accepted command, once and in the order of the writes, however late. */
  predicate InTurn(s: State, step: Step)
  {
    step.Handle? ==> |s.log| < |s.accepted| && step.answer.from == s.accepted[|s.log|]
  }

  predicate InTurnRun(s: State, steps: seq<Step>)
    decreases |steps|
  {
    steps == [] || (InTurn(s, steps[0]) && InTurnRun(Apply(s, steps[0]), steps[1..]))
  }

  /** The k-th answer is that of the k-th accepted command. */
  predicate Matched(s: State)
  {
    |s.log| <= |s.accepted| && forall k :: 0 <= k < |s.log| ==> s.log[k].from == s.accepted[k]
  }

  lemma StepMatched(s: State, step: Step)
    requires Matched(s) && InTurn(s, step)
    ensures Matched(Apply(s, step))
  {
  }

  lemma {:induction false} RunMatched(s: State, steps: seq<Step>)
    requires Matched(s) && InTurnRun(s, steps)
    ensures Matched(Run(Apply, s, steps))
    decreases |steps|
  {
    if steps != [] {
      StepMatched(s, steps[0]);
      RunMatched(Apply(s, steps[0]), steps[1..]);
    }
  }

  /** If the device answers every accepted command in order, the condition can be told at the drain: the call's
      answer is its own if and only if its line is accepted and every accepted command before it was answered. */
  lemma OwnAnswerIfNoneOpen(steps: seq<Step>, s: State, i: nat)
    requires InTurnRun(INIT, steps) && s == Run(Apply, INIT, steps)
    requires i < |s.calls| && s.calls[i].pc.Returned? && s.calls[i].pc.answer.Some?
    ensures s.calls[i].pc.answer.value < |s.log|
    ensures s.log[s.calls[i].pc.answer.value].from == i <==> s.calls[i].turn == Some(s.calls[i].drained)
  {
    RunRanked(INIT, steps);
    RunMatched(INIT, steps);
    assert Fair(s.calls[i], s);
    assert Turns(s)[i] == s.calls[i].turn;
  }

  // ----- A late answer --------------------------------------------------------------------------

  /** A whole call up to its wait, alone, with a line that is accepted. */
  function Sent(i: nat): (steps: seq<Step>)
  {
    [Enter, Acquire(i)] + [Test(i), Write(i, true, true)]
  }

  lemma SentWaits(s: State, i: nat)
    requires s.holder == None && s.msgs == [] && i == |s.calls|
    ensures Run(Apply, s, Sent(i))
         == s.(calls := s.calls + [Call(Waiting, |s.log|, 0, Some(|s.written|), Some(|s.accepted|))],
               holder := Some(i), written := s.written + [i], accepted := s.accepted + [i])
  {
    var s2 := Apply(Apply(s, Enter), Acquire(i));
    var s4 := Apply(Apply(s2, Test(i)), Write(i, true, true));
    RunTwo(Apply, s, Enter, Acquire(i));
    RunTwo(Apply, s2, Test(i), Write(i, true, true));
    RunConcat(Apply, s, [Enter, Acquire(i)], [Test(i), Write(i, true, true)]);
    assert s4.calls == s.calls + [Call(Waiting, |s.log|, 0, Some(|s.written|), Some(|s.accepted|))];
  }

  lemma ExpireThenSend(s: State, i: nat) returns (t: State)
    requires s.holder == Some(i) && s.msgs == [] && i + 1 == |s.calls| && At(s, i, Waiting)
    ensures t == Run(Apply, s, [Expire(i)] + Sent(i + 1))
    ensures |t.calls| == i + 2 && t.calls[i].pc == Returned(None) && t.msgs == [] && t.log == s.log
    ensures t.calls[i + 1] == Call(Waiting, |s.log|, 0, Some(|s.written|), Some(|s.accepted|))
  {
    t := Run(Apply, s, [Expire(i)] + Sent(i + 1));
    RunConcat(Apply, s, [Expire(i)], Sent(i + 1));
    RunOne(Apply, s, Expire(i));
    SentWaits(Apply(s, Expire(i)), i + 1);
  }

  /** The failing case of these, from any quiet state: a call times out, the answer to its command comes during the
      next call, and that one returns it. */
  lemma LateAnswerIsTaken(s: State, i: nat, text: seq<string>)
    requires s.holder == None && s.msgs == [] && i == |s.calls|
    ensures var t := Run(Apply, s, Sent(i) + (([Expire(i)] + Sent(i + 1)) + [Handle(Answer(text, i)), Get(i + 1)]));
            && |t.calls| == i + 2 && t.calls[i].pc == Returned(None)
            && t.calls[i + 1].pc == Returned(Some(|s.log|)) && |t.log| == |s.log| + 1
            && t.log[|s.log|] == Answer(text, i) && AnswerOf(t, i + 1) == Some(text)
  {
    var a := Answer(text, i);
    var next, last := [Expire(i)] + Sent(i + 1), [Handle(a), Get(i + 1)];
    SentWaits(s, i);
    var s1 := Run(Apply, s, Sent(i));
    RunConcat(Apply, s, Sent(i), next + last);
    var s2 := ExpireThenSend(s1, i);
    RunConcat(Apply, s1, next, last);
    RunTwo(Apply, s2, Handle(a), Get(i + 1));
  }

  // ----- One answer per command -----------------------------------------------------------------

  /** The device answers only an accepted command that waits for its answer, once and in time. */
  predicate Polite(s: State, step: Step)
  {
    match step
    case Handle(a) => s.msgs == [] && s.holder == Some(a.from) && At(s, a.from, Waiting) && s.calls[a.from].turn.Some?
    case Expire(i) => At(s, i, Waiting) ==> s.calls[i].turn == None
    case _ => true
  }

  predicate PoliteRun(s: State, steps: seq<Step>)
    decreases |steps|
  {
    steps == [] || (Polite(s, steps[0]) && PoliteRun(Apply(s, steps[0]), steps[1..]))
  }

  /** Commands accepted and not answered yet: that of the waiting call, if any. */
  function Unanswered(s: State): (n: nat)
  {
    if s.holder.Some? && At(s, s.holder.value, Waiting) && s.calls[s.holder.value].turn.Some? && s.msgs == [] then 1
    else 0
  }

  predicate InStep(s: State)
  {
    && |s.accepted| == |s.log| + Unanswered(s)
    && (s.msgs != [] ==> s.holder.Some? && At(s, s.holder.value, Waiting) && s.calls[s.holder.value].turn.Some?)
    && (forall i :: 0 <= i < |s.calls| && s.calls[i].pc.Waiting? ==>
          s.calls[i].turn == None || s.calls[i].turn == Some(s.calls[i].drained))
    && (forall i :: 0 <= i < |s.calls| && s.calls[i].pc.Returned? ==> s.calls[i].pc.answer == s.calls[i].turn)
  }

  lemma StepInStep(s: State, step: Step)
    requires Inv(s) && InStep(s) && Polite(s, step)
    ensures InStep(Apply(s, step))
  {
    assert forall i :: 0 <= i < |s.calls| ==> Sees(s.calls[i], s) && Fair(s.calls[i], s);
    assert forall i :: 0 <= i < |s.calls| ==> (Inside(s.calls[i]) <==> s.holder == Some(i));
  }

  lemma {:induction false} RunInStep(s: State, steps: seq<Step>)
    requires Inv(s) && InStep(s) && PoliteRun(s, steps)
    ensures InStep(Run(Apply, s, steps))
    decreases |steps|
  {
    if steps != [] {
      StepInv(s, steps[0]);
      StepInStep(s, steps[0]);
      RunInStep(Apply(s, steps[0]), steps[1..]);
    }
  }

  /** If every accepted command gets exactly one answer within its own call, then the call whose command was the n-th
      to be accepted returns the n-th answer, and a call whose line was refused or not written returns None. */
  lemma NthCallNthAnswer(steps: seq<Step>, s: State, i: nat)
    requires PoliteRun(INIT, steps) && s == Run(Apply, INIT, steps)
    requires i < |s.calls| && s.calls[i].pc.Returned?
    ensures s.calls[i].pc == Returned(s.calls[i].turn)
    ensures s.calls[i].turn.Some? ==>
              s.calls[i].turn.value < |s.accepted| && s.accepted[s.calls[i].turn.value] == i
  {
    RunInStep(INIT, steps);
    RunRanked(INIT, steps);
    assert Turns(s)[i] == s.calls[i].turn;
  }
}
