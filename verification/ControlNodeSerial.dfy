/** send_command() of cn_interface.py as a method that other calls and the reader thread interrupt between any
    two of its atomic steps. */
module ControlNodeSerial {
  import opened Dict
  import opened Pairing
  import opened Trace

  /** A step of the reader thread or of another call. */
  predicate Foreign(step: Step, i: nat)
  {
    match step
    case Enter => true
    case Handle(_) => true
    case _ => step.i != i
  }

  predicate AllForeign(steps: seq<Step>, i: nat)
  {
    forall k :: 0 <= k < |steps| ==> Foreign(steps[k], i)
  }

  lemma ForeignKeeps(s: State, step: Step, i: nat)
    requires Foreign(step, i) && i < |s.calls|
    ensures i < |Apply(s, step).calls| && Apply(s, step).calls[i] == s.calls[i]
  {
  }

  /** The fields that the steps share, with the history. */
  class Sender {
    var sendMutex: Option<nat>
    var msgs: seq<nat>
    var calls: seq<Call>
    var log: seq<Answer>
    var written: seq<nat>
    var accepted: seq<nat>
    var taken: seq<(nat, nat)>
    var discarded: nat

    function Now(): (s: State)
      reads this
    {
      State(calls, sendMutex, msgs, log, written, accepted, taken, discarded)
    }

    constructor ()
      ensures Now() == INIT && Inv(Now())
    {
      sendMutex, msgs, calls, log := None, [], [], [];
      written, accepted, taken, discarded := [], [], [], 0;
    }

    /** What other threads do meanwhile. */
    method Others(i: nat, steps: seq<Step>)
      requires Inv(Now()) && i < |calls| && AllForeign(steps, i)
      modifies this
      ensures Now() == Run(Apply, old(Now()), steps) && Inv(Now())
      ensures i < |calls| && calls[i] == old(calls)[i]
    {
      ghost var start := Now();
      var k := 0;
      assert steps[..0] == [];
      while k < |steps|
        invariant 0 <= k <= |steps| && Now() == Run(Apply, start, steps[..k]) && Inv(Now())
        invariant i < |calls| && calls[i] == old(calls)[i]
      {
        var t := Apply(Now(), steps[k]);
        StepInv(Now(), steps[k]);
        ForeignKeeps(Now(), steps[k], i);
        RunLast(Apply, start, steps[..k], steps[k]);
        assert steps[..k + 1] == steps[..k] + [steps[k]];
        calls, sendMutex, msgs, log, written, accepted, taken, discarded :=
          t.calls, t.holder, t.msgs, t.log, t.written, t.accepted, t.taken, t.discarded;
        k := k + 1;
      }
      assert steps[..k] == steps;
    }

    method EnterSendCommand() returns (i: nat)
      requires Inv(Now())
      modifies this
      ensures i == |old(calls)| && Now() == Apply(old(Now()), Enter) && Inv(Now())
    {
      StepInv(Now(), Enter);
      i := |calls|;
      calls := calls + [Call(Entering, 0, 0, None, None)];
    }

    /** `with self._send_mutex`, once the mutex is free. */
    method AcquireMutex(i: nat)
      requires Inv(Now()) && At(Now(), i, Entering) && sendMutex == None
      modifies this
      ensures Now() == Apply(old(Now()), Acquire(i)) && Inv(Now()) && At(Now(), i, Testing)
    {
      StepInv(Now(), Acquire(i));
      sendMutex := Some(i);
      calls := calls[i := calls[i].(pc := Testing)];
    }

    /** `while not my_queue.empty()` */
    method TestEmpty(i: nat)
      requires Inv(Now()) && At(Now(), i, Testing)
      modifies this
      ensures Now() == Apply(old(Now()), Test(i)) && Inv(Now())
      ensures At(Now(), i, if old(msgs) != [] then Taking else Writing)
    {
      StepInv(Now(), Test(i));
      if msgs != [] {
        calls := calls[i := calls[i].(pc := Taking)];
      } else {
        calls := calls[i := Call(Writing, |log|, 0, None, None)];
      }
    }

    /** my_queue.get_nowait(): the item that was seen is still there. */
    method GetNowait(i: nat)
      requires Inv(Now()) && At(Now(), i, Taking)
      modifies this
      ensures Now() == Apply(old(Now()), Take(i)) && Inv(Now()) && At(Now(), i, Testing)
    {
      StepInv(Now(), Take(i));
      assert Sees(calls[i], Now());
      msgs := msgs[1..];
      discarded := discarded + 1;
      calls := calls[i := calls[i].(pc := Testing)];
    }

    /** stdin.write(), which may raise AttributeError or IOError; the C program accepts the line or refuses it. */
    method WriteCommand(i: nat, ok: bool, accepts: bool)
      requires Inv(Now()) && At(Now(), i, Writing)
      modifies this
      ensures Now() == Apply(old(Now()), Write(i, ok, accepts)) && Inv(Now())
      ensures At(Now(), i, if ok then Waiting else Returned(None)) && (ok <==> calls[i].rank.Some?)
    {
      StepInv(Now(), Write(i, ok, accepts));
      assert Fair(calls[i], Now());
      if ok {
        var turn := if accepts then Some(|accepted|) else None;
        calls := calls[i := calls[i].(pc := Waiting, rank := Some(|written|), turn := turn)];
        written := written + [i];
        if accepts {
          accepted := accepted + [i];
        }
      } else {
        calls := calls[i := calls[i].(pc := Returned(None), heard := |log|)];
        sendMutex := None;
      }
    }

    /** msgs.get(block=True, timeout=1.0), at the moment it returns or raises Empty. */
    method GetAnswer(i: nat) returns (answer: Option<seq<string>>)
      requires Inv(Now()) && At(Now(), i, Waiting)
      modifies this
      ensures Now() == Apply(old(Now()), if old(msgs) != [] then Get(i) else Expire(i))
      ensures Inv(Now()) && i < |calls| && calls[i].pc.Returned? && answer == AnswerOf(Now(), i)
      ensures calls[i].rank == old(calls[i].rank)
    {
      StepInv(Now(), if msgs != [] then Get(i) else Expire(i));
      assert msgs != [] ==> msgs[0] in msgs;
      if msgs != [] {
        answer := Some(log[msgs[0]].text);
        calls := calls[i := calls[i].(pc := Returned(Some(msgs[0])), heard := |log|)];
        taken := taken + [(i, msgs[0])];
        msgs := msgs[1..];
      } else {
        answer := None;
        calls := calls[i := calls[i].(pc := Returned(None), heard := |log|)];
      }
      sendMutex := None;
    }

    /** put_nowait() into a queue of size one. */
    method HandleCommandAnswer(answer: Answer)
      requires Inv(Now())
      modifies this
      ensures Now() == Apply(old(Now()), Handle(answer)) && Inv(Now())
    {
      StepInv(Now(), Handle(answer));
      if |msgs| < 1 {
        msgs := msgs + [|log|];
      } else {
        discarded := discarded + 1;
      }
      log := log + [answer];
    }

    /** The wait for the mutex; `gaps` is what the others do meanwhile. The result says how many gaps were used, whether
        the call got the mutex, and which steps were taken. */
    method WaitForMutex(i: nat, gaps: seq<seq<Step>>) returns (k: nat, ready: bool, ghost steps: seq<Step>)
      requires Inv(Now()) && At(Now(), i, Entering)
      requires forall g :: 0 <= g < |gaps| ==> AllForeign(gaps[g], i)
      modifies this
      ensures Inv(Now()) && k <= |gaps| && Now() == Run(Apply, old(Now()), steps)
      ensures At(Now(), i, if ready then Testing else Entering) && (!ready ==> k == |gaps|)
    {
      ghost var start := Now();
      k, steps := 0, [];
      while sendMutex != None
        invariant k <= |gaps| && Inv(Now()) && At(Now(), i, Entering) && Now() == Run(Apply, start, steps)
        decreases |gaps| - k
      {
        if k == |gaps| { return k, false, steps; }
        Others(i, gaps[k]);
        RunConcat(Apply, start, steps, gaps[k]);
        steps := steps + gaps[k];
        k := k + 1;
      }
      RunLast(Apply, start, steps, Acquire(i));
      AcquireMutex(i);
      steps := steps + [Acquire(i)];
      ready := true;
    }

    /** The others, then empty(), then get_nowait() if there was something. */
    method DrainOnce(i: nat, gap: seq<Step>, next: seq<Step>) returns (ghost steps: seq<Step>)
      requires Inv(Now()) && At(Now(), i, Testing) && AllForeign(gap, i) && AllForeign(next, i)
      modifies this
      ensures Inv(Now()) && Now() == Run(Apply, old(Now()), steps)
      ensures At(Now(), i, Testing) || At(Now(), i, Writing)
    {
      ghost var start := Now();
      Others(i, gap);
      RunLast(Apply, start, gap, Test(i));
      TestEmpty(i);
      steps := gap + [Test(i)];
      if calls[i].pc == Taking {
        Others(i, next);
        RunConcat(Apply, start, steps, next);
        RunLast(Apply, start, steps + next, Take(i));
        GetNowait(i);
        steps := steps + next + [Take(i)];
      }
    }

    /** The loop of empty_queue(). */
    method Drain(i: nat, gaps: seq<seq<Step>>) returns (k: nat, ready: bool, ghost steps: seq<Step>)
      requires Inv(Now()) && At(Now(), i, Testing)
      requires forall g :: 0 <= g < |gaps| ==> AllForeign(gaps[g], i)
      modifies this
      ensures Inv(Now()) && k <= |gaps| && Now() == Run(Apply, old(Now()), steps)
      ensures At(Now(), i, if ready then Writing else Testing) && (!ready ==> k == |gaps|)
    {
      ghost var start := Now();
      k, steps := 0, [];
      while calls[i].pc != Writing
        invariant k <= |gaps| && Inv(Now()) && Now() == Run(Apply, start, steps)
        invariant At(Now(), i, Testing) || At(Now(), i, Writing)
        decreases |gaps| - k
      {
        if k == |gaps| { return k, false, steps; }
        var next := if k + 1 < |gaps| then gaps[k + 1] else [];
        ghost var more := DrainOnce(i, gaps[k], next);
        RunConcat(Apply, start, steps, more);
        steps := steps + more;
        k := if k + 1 < |gaps| then k + 2 else k + 1;
      }
      ready := true;
    }

    /** The wait for the mutex and the drain: a call goes on to its write only with the queue found empty. */
    method EnterAndDrain(i: nat, gaps: seq<seq<Step>>) returns (k: nat, ready: bool, ghost steps: seq<Step>)
      requires Inv(Now()) && At(Now(), i, Entering)
      requires forall g :: 0 <= g < |gaps| ==> AllForeign(gaps[g], i)
      modifies this
      ensures Inv(Now()) && k <= |gaps| && i < |calls| && Now() == Run(Apply, old(Now()), steps)
      ensures ready ==> At(Now(), i, Writing)
      ensures !ready ==> k == |gaps| && (At(Now(), i, Entering) || At(Now(), i, Testing))
    {
      ghost var start := Now();
      k, ready, steps := WaitForMutex(i, gaps);
      if ready {
        var n;
        ghost var more;
        n, ready, more := Drain(i, gaps[k..]);
        RunConcat(Apply, start, steps, more);
        k := k + n;
        steps := steps + more;
      }
    }

    /** The write and the wait for the answer. */
    method WriteAndWait(i: nat, ok: bool, accepts: bool, gaps: seq<seq<Step>>)
      returns (answer: Option<seq<string>>, ghost steps: seq<Step>)
      requires Inv(Now()) && At(Now(), i, Writing)
      requires forall g :: 0 <= g < |gaps| ==> AllForeign(gaps[g], i)
      modifies this
      ensures Inv(Now()) && i < |calls| && calls[i].pc.Returned? && answer == AnswerOf(Now(), i)
      ensures (ok <==> calls[i].rank.Some?) && Now() == Run(Apply, old(Now()), steps)
    {
      ghost var start := Now();
      var gap := if gaps != [] then gaps[0] else [];
      Others(i, gap);
      RunLast(Apply, start, gap, Write(i, ok, accepts));
      WriteCommand(i, ok, accepts);
      steps := gap + [Write(i, ok, accepts)];
      if !ok {
        return None, steps;
      }
      var k := 1;
      while msgs == [] && k < |gaps|
        invariant Inv(Now()) && At(Now(), i, Waiting) && calls[i].rank.Some? && Now() == Run(Apply, start, steps)
        decreases |gaps| - k
      {
        Others(i, gaps[k]);
        RunConcat(Apply, start, steps, gaps[k]);
        steps := steps + gaps[k];
        k := k + 1;
      }
      ghost var last := if msgs != [] then Get(i) else Expire(i);
      RunLast(Apply, start, steps, last);
      answer := GetAnswer(i);
      steps := steps + [last];
    }

    /** send_command(), from its call to its return: a run of the machine in which, whatever the others do in between, a
        call that returns has the first answer handled since its drain, or None if there was none or the write
        failed. */
    method SendCommand(ok: bool, accepts: bool, gaps: seq<seq<Step>>)
      returns (i: nat, done: bool, answer: Option<seq<string>>, ghost steps: seq<Step>)
      requires Inv(Now())
      requires forall g :: 0 <= g < |gaps| ==> AllForeign(gaps[g], |calls|)
      modifies this
      ensures Inv(Now()) && i == |old(calls)| < |calls| && (done <==> calls[i].pc.Returned?)
      ensures Now() == Run(Apply, old(Now()), steps)
      ensures done ==> && calls[i].heard <= |log| && answer == AnswerOf(Now(), i)
                       && answer == (if ok && calls[i].drained < calls[i].heard then Some(log[calls[i].drained].text)
                                     else None)
    {
      ghost var start := Now();
      RunOne(Apply, start, Enter);
      i := EnterSendCommand();
      var k, ready;
      ghost var more;
      k, ready, more := EnterAndDrain(i, gaps);
      RunConcat(Apply, start, [Enter], more);
      steps := [Enter] + more;
      done, answer := false, None;
      if ready {
        answer, more := WriteAndWait(i, ok, accepts, gaps[k..]);
        RunConcat(Apply, start, steps, more);
        steps := steps + more;
        assert Fair(calls[i], Now());
        done := true;
      }
    }
  }
}
