/** What becomes of a timed experiment, in runs of the interleaved manager. */
module Timeouts {
  import opened Dict
  import opened Lifecycle
  import opened Schedule
  import opened Trace

  /** A thread tries an operation while nobody is inside, and is left alone until it has ended. */
  lemma WholeOperation(s: State, me: nat, e: Event) returns (n: nat)
    requires Good(s) && s.frames.Free? && CanTry(s, me, e)
    ensures var t := Run(Apply, s, [Try(me, e)] + Repeat(Go, n));
            && Good(t) && t.frames.Free? && t.b == s.b && t.m == Do(s.m, s.b, e).0
            && t.done == s.done + [(e, Do(s.m, s.b, e).1)] && t.refused == s.refused
            && t.fired == s.fired + (if e.Fire? then [e.t] else [])
  {
    var s1 := Apply(s, Try(me, e));
    StepGood(s, Try(me, e));
    n := WorkOf(s1.b, s1.frames);
    OperationEnds(s1, n);
    RunConcat(Apply, s, [Try(me, e)], Repeat(Go, n));
    RunOne(Apply, s, Try(me, e));
  }

  /** The callback of a timer, left alone if it gets the lock, ends the running experiment if and only if nobody is
      inside an operation when it tries, the experiment has the timer's pair, and no call of exp_stop() raises. */
  lemma TimeoutStopsIff(s: State, me: nat, t: nat, env: Env) returns (n: nat)
    requires Good(s) && s.m.running && CanTry(s, me, Fire(t, env))
    ensures !Run(Apply, s, [Try(me, Fire(t, env))] + (if s.frames.Free? then Repeat(Go, n) else [])).m.running
       <==> s.frames.Free? && Mine(s.m, s.m.timers[t]) && NoneRaises(env, StopCalls(s.b))
  {
    if s.frames.Free? {
      n := WholeOperation(s, me, Fire(t, env));
      LateCallback(s.m, s.b, t, env);
    } else {
      n := 0;
      assert [Try(me, Fire(t, env))] + [] == [Try(me, Fire(t, env))];
      RunOne(Apply, s, Try(me, Fire(t, env)));
    }
  }

  // ----- A timeout lost to a busy lock ----------------------------------------------------------

  /** Two attempts at the same moment: the first gets the lock, the second is refused, the first ends. */
  lemma RefusedInBetween(s: State, holder: nat, calls: nat, env: Env, late: nat, e: Event) returns (n: nat)
    requires Good(s) && s.frames.Free? && holder != late && CanTry(s, late, e) && e.Fire?
    ensures var t := Run(Apply, s, [Try(holder, Hold(calls, env)), Try(late, e)] + Repeat(Go, n));
            && Good(t) && t.frames.Free? && t.m == s.m && t.b == s.b
            && t.refused == s.refused + [(late, e)] && t.fired == s.fired + [e.t]
  {
    var first, second := Try(holder, Hold(calls, env)), Try(late, e);
    var s1 := Apply(s, first);
    var s2 := Apply(s1, second);
    StepGood(s, first);
    StepGood(s1, second);
    n := WorkOf(s2.b, s2.frames);
    OperationEnds(s2, n);
    RunConcat(Apply, s, [first, second], Repeat(Go, n));
    RunTwo(Apply, s, first, second);
  }

  /** A run from the start: a timed experiment is started; while another operation holds the lock its timer
      calls back and is refused; the lock is released, and the experiment runs on with its timer spent. */
  lemma BusyLockLosesTimeout(b: Board, q: Request, calls: nat, env: Env, late: Env) returns (steps: seq<Step>)
    requires q.timeout != 0
    ensures var s := Run(Apply, START(b), steps);
            && s.owner == None && s.m.running && Mine(s.m, Timer(q.expId, q.user, false)) && s.m.timer == Some(0)
            && s.m.timers == [Timer(q.expId, q.user, false)] && s.fired == [0]
            && s.refused == [(2, Fire(0, late))] && Good(s)
  {
    var s := START(b);
    var n := WholeOperation(s, 0, Start(q, Quiet));
    var begin := [Try(0, Start(q, Quiet))] + Repeat(Go, n);
    var s1 := Run(Apply, s, begin);
    var m := QuietStart(INIT, b, q);
    var k := RefusedInBetween(s1, 1, calls, env, 2, Fire(0, late));
    var end := [Try(1, Hold(calls, env)), Try(2, Fire(0, late))] + Repeat(Go, k);
    steps := begin + end;
    RunConcat(Apply, s, begin, end);
  }

  /** Nobody asks for a start or a stop. */
  predicate Passive(steps: seq<Step>)
  {
    forall i :: 0 <= i < |steps| && steps[i].Try? ==> !steps[i].e.Start? && !steps[i].e.Stop?
  }

  predicate AllFired(s: State)
  {
    forall t :: 0 <= t < |s.m.timers| ==> t in s.fired
  }

  /** Only operations that touch no field are inside. */
  predicate Idle(s: State)
  {
    s.frames.Free? || (s.frames.One? && (s.frames.pc.HoldCall? || s.frames.pc.Leaving?))
  }

  /** Such a timeout is lost for good: as long as nobody asks for a start or a stop, no interleaving of callbacks and
      other operations changes anything. */
  lemma {:induction false} LostForGood(s: State, steps: seq<Step>)
    requires Idle(s) && AllFired(s) && Passive(steps)
    ensures Run(Apply, s, steps).m == s.m
    decreases |steps|
  {
    if steps != [] {
      assert steps[0].Try? ==> !steps[0].e.Start? && !steps[0].e.Stop?;
      assert forall i :: 0 <= i < |steps| - 1 ==> steps[1..][i] == steps[i + 1];
      LostForGood(Apply(s, steps[0]), steps[1..]);
    }
  }
}
