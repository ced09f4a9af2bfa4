/** The experiment lifecycle of gateway_manager.py as values: what exp_start(), exp_stop(), the timeout callback
    and the other synchronous operations do to the manager's fields, whatever the nodes answer. */
module Lifecycle {
  import opened Dict

  /** Calls into the nodes, files, loggers and threads. */
  datatype Call =
    | ParseProfile | IsCompatible | CreateFolders | CreateFiles | UserLogger
    | ControlStart | PycomOpenStop(k: nat) | PycomWaitNoTty(k: nat) | PycomOpenStart(k: nat) | PycomWaitTty(k: nat)
    | OpenSetup | StartExperiment | CycleOpenStop | CycleOpenStart | StartTimer
    | StopExperiment | StopWaitTty | Teardown | ControlStop | CleanupFiles
    | Other(k: nat)

  /** EWOULDBLOCK, or any other exception. */
  datatype Exception = WouldBlock | OtherError

  /** A call returns a number or raises an exception. */
  datatype Outcome = Ret(val: int) | Raise(error: Exception)

  type Env = Call -> Outcome

  /** What a caller sees. */
  datatype Result = Value(val: int) | Raised(error: Exception)

  datatype Timer = Timer(expId: int, user: string, cancelled: bool)

  /** The fields of GatewayManager, the user handlers registered with the logger, and the handlers and timers
      ever created. `files` says for whom the experiment files were created. */
  datatype Manager = Manager(expId: Option<int>, user: Option<string>, files: Option<(int, string)>, running: bool,
                             handler: Option<nat>, timer: Option<nat>, registered: seq<nat>, created: nat,
                             timers: seq<Timer>)

  /** Facts about the board that the code tests. */
  datatype Board = Board(pycom: bool, powerCycle: bool, makesFolders: bool)

  datatype Request = Request(user: string, expId: int, firmware: bool, timeout: int)

  const INIT := Manager(None, None, None, false, None, None, [], 0, [])

  // ----- exp_stop -------------------------------------------------------------------------------

  function Without(s: seq<nat>, h: Option<nat>): (r: seq<nat>)
  {
    if s == [] then []
    else (if h == Some(s[0]) then [] else [s[0]]) + Without(s[1..], h)
  }

  function CancelTimer(m: Manager): (r: Manager)
  {
    match m.timer
    case None => m
    case Some(t) =>
      if t < |m.timers| then m.(timers := m.timers[t := m.timers[t].(cancelled := true)], timer := None)
      else m.(timer := None)
  }

  function Cleared(m: Manager): (r: Manager)
  {
    m.(expId := None, user := None, files := None, running := false,
       registered := Without(m.registered, m.handler), handler := None)
  }

  function StopCalls(b: Board): (r: seq<Call>)
  {
    [StopExperiment] + (if b.pycom then [StopWaitTty] else []) + [Teardown, ControlStop, CleanupFiles]
  }

  /** The results of these calls are dropped. */
  predicate Dropped(c: Call)
  {
    c == StopWaitTty || c == ControlStop || c == CleanupFiles
  }

  /** Calls made one after the other, their results added up, until one raises. */
  function Perform(env: Env, calls: seq<Call>): (o: Outcome)
  {
    if calls == [] then Ret(0)
    else match env(calls[0])
      case Raise(e) => Raise(e)
      case Ret(v) =>
        Plus(if Dropped(calls[0]) then 0 else v, Perform(env, calls[1..]))
  }

  function Plus(v: int, o: Outcome): (r: Outcome)
  {
    match o case Raise(_) => o case Ret(w) => Ret(v + w)
  }

  /** None of these calls raises. */
  predicate NoneRaises(env: Env, calls: seq<Call>)
  {
    forall c :: c in calls ==> env(c).Ret?
  }

  lemma {:induction false} PerformReturns(env: Env, calls: seq<Call>)
    ensures Perform(env, calls).Ret? <==> NoneRaises(env, calls)
  {
    if calls != [] {
      PerformReturns(env, calls[1..]);
      assert forall c :: c in calls <==> c == calls[0] || c in calls[1..];
    }
  }

  function Val(env: Env, c: Call): (v: int)
  {
    match env(c) case Ret(v) => v case Raise(_) => 0
  }

  /** From the first call of exp_stop() on. */
  function StopNodes(m: Manager, b: Board, env: Env): (r: (Manager, Result))
  {
    match Perform(env, StopCalls(b))
    case Raise(e) => (m, Raised(e))
    case Ret(v) => (Cleared(m), Value(v))
  }

  function StopBody(m: Manager, b: Board, env: Env): (r: (Manager, Result))
  {
    if !m.running then (m, Value(0)) else StopNodes(CancelTimer(m), b, env)
  }

  // ----- exp_start ------------------------------------------------------------------------------

  function PycomCycle(k: nat): (r: seq<Call>)
  {
    [PycomOpenStop(k), PycomWaitNoTty(k), PycomOpenStart(k), PycomWaitTty(k)]
  }

  function StartCalls(b: Board, q: Request): (r: seq<Call>)
  {
    [ControlStart] + (if b.pycom then PycomCycle(0) + PycomCycle(1) else []) + [OpenSetup, StartExperiment]
    + (if q.firmware && b.powerCycle then [CycleOpenStop, CycleOpenStart] else [])
  }

  function Opened(m: Manager, q: Request): (r: Manager)
  {
    m.(running := true, expId := Some(q.expId), user := Some(q.user))
  }

  function WithHandler(m: Manager): (r: Manager)
  {
    m.(handler := Some(m.created), created := m.created + 1, registered := m.registered + [m.created])
  }

  function WithTimer(m: Manager, q: Request): (r: Manager)
  {
    m.(timer := Some(|m.timers|), timers := m.timers + [Timer(q.expId, q.user, false)])
  }

  function StartTimed(m: Manager, q: Request, env: Env, ret: int): (r: (Manager, Result))
  {
    if q.timeout == 0 then (m, Value(ret))
    else (WithTimer(m, q), match env(StartTimer) case Raise(e) => Raised(e) case Ret(_) => Value(ret))
  }

  /** From the start of the control node on. */
  function StartNodes(m: Manager, b: Board, q: Request, env: Env): (r: (Manager, Result))
  {
    match Perform(env, StartCalls(b, q))
    case Raise(e) => (m, Raised(e))
    case Ret(v) => StartTimed(m, q, env, v)
  }

  function WithFiles(m: Manager, q: Request): (r: Manager)
  {
    m.(files := Some((q.expId, q.user)))
  }

  function StartLogged(m: Manager, b: Board, q: Request, env: Env): (r: (Manager, Result))
  {
    match env(UserLogger)
    case Raise(e) => (m, Raised(e))
    case Ret(_) => StartNodes(WithHandler(m), b, q, env)
  }

  function StartFiled(m: Manager, b: Board, q: Request, env: Env): (r: (Manager, Result))
  {
    match env(CreateFiles)
    case Raise(e) => (m, Raised(e))
    case Ret(_) => StartLogged(WithFiles(m, q), b, q, env)
  }

  /** From the creation of the files on. */
  function StartOpened(m: Manager, b: Board, q: Request, env: Env): (r: (Manager, Result))
  {
    if b.makesFolders && env(CreateFolders).Raise? then (m, Raised(env(CreateFolders).error))
    else StartFiled(m, b, q, env)
  }

  function StartCompatible(m: Manager, b: Board, q: Request, env: Env): (r: (Manager, Result))
  {
    match env(IsCompatible)
    case Raise(e) => (m, Raised(e))
    case Ret(v) => if v == 0 then (m, Value(1)) else StartOpened(Opened(m, q), b, q, env)
  }

  /** From the check of the profile on, nothing running. */
  function StartChecked(m: Manager, b: Board, q: Request, env: Env): (r: (Manager, Result))
  {
    match env(ParseProfile)
    case Raise(e) => (m, Raised(e))
    case Ret(v) => if v != 0 then (m, Value(1)) else StartCompatible(m, b, q, env)
  }

  /** What follows the exp_stop() inside exp_start(). */
  function StartStopped(m: Manager, r: Result, b: Board, q: Request, env: Env): (s: (Manager, Result))
  {
    if r.Raised? then (m, r) else StartChecked(m, b, q, env)
  }

  /** An experiment that is running is stopped first, before the arguments are looked at. */
  function StartBody(m: Manager, b: Board, q: Request, env: Env): (r: (Manager, Result))
  {
    if m.running then
      var (n, s) := StopBody(m, b, env);
      StartStopped(n, s, b, q, env)
    else StartChecked(m, b, q, env)
  }

  // ----- The timeout callback and the other operations ------------------------------------------

  /** The callback swallows an EWOULDBLOCK of exp_stop() and passes other exceptions on. */
  function FireResult(r: Result): (s: Result)
  {
    if r == Raised(OtherError) then r else Value(0)
  }

  predicate Mine(m: Manager, t: Timer)
  {
    m.expId == Some(t.expId) && m.user == Some(t.user)
  }

  function FireBody(m: Manager, b: Board, t: Timer, env: Env): (r: (Manager, Result))
  {
    if !Mine(m, t) then (m, Value(0))
    else
      var (n, s) := StopBody(m, b, env);
      (n, FireResult(s))
  }

  function HoldCalls(n: nat): (r: seq<Call>)
    ensures |r| == n
  {
    if n == 0 then [] else HoldCalls(n - 1) + [Other(n - 1)]
  }

  function ToResult(o: Outcome): (r: Result)
  {
    match o case Ret(v) => Value(v) case Raise(e) => Raised(e)
  }

  /** What a thread may ask for. Fire is the callback of timer `t`, even of one cancelled too late; Hold is any
      of the operations that call the nodes under the lock and touch no field. */
  datatype Event =
    | Start(q: Request, env: Env)
    | Stop(env: Env)
    | Fire(t: nat, env: Env)
    | Hold(calls: nat, env: Env)

  /** The operation as a whole, once it has the lock. */
  function Do(m: Manager, b: Board, e: Event): (r: (Manager, Result))
  {
    match e
    case Start(q, env) => StartBody(m, b, q, env)
    case Stop(env) => StopBody(m, b, env)
    case Fire(t, env) => if t < |m.timers| then FireBody(m, b, m.timers[t], env) else (m, Value(0))
    case Hold(n, env) => (m, ToResult(Perform(env, HoldCalls(n))))
  }

  // ----- The invariant --------------------------------------------------------------------------

  predicate Clean(m: Manager)
  {
    m.expId == None && m.user == None && m.files == None && m.handler == None && m.timer == None && m.registered == []
  }

  /** The stored timer is that of the running experiment, and every other timer ever made is cancelled. */
  predicate TimerSafe(m: Manager)
  {
    && (m.timer.Some? ==>
          && m.running && m.timer.value < |m.timers|
          && m.expId == Some(m.timers[m.timer.value].expId) && m.user == Some(m.timers[m.timer.value].user))
    && (forall t :: 0 <= t < |m.timers| ==> m.timers[t].cancelled || m.timer == Some(t))
  }

  predicate Inv(m: Manager)
  {
    && (!m.running ==> Clean(m))
    && (m.running ==> m.expId.Some? && m.user.Some?)
    && (m.files.Some? ==> m.expId == Some(m.files.value.0) && m.user == Some(m.files.value.1))
    && m.registered == (match m.handler case Some(h) => [h] case None => [])
    && (m.handler.Some? ==> m.handler.value < m.created)
    && TimerSafe(m)
  }

  /** The pairs that the timers were made for never change. */
  predicate SamePairs(m: Manager, n: Manager)
  {
    && |m.timers| <= |n.timers|
    && (forall t :: 0 <= t < |m.timers| ==>
          n.timers[t].expId == m.timers[t].expId && n.timers[t].user == m.timers[t].user)
  }

  lemma WithoutOne(h: nat)
    ensures Without([h], Some(h)) == []
  {
    assert [h][1..] == [];
  }

  lemma ClearedInv(m: Manager)
    requires Inv(m) && m.timer == None
    ensures Inv(Cleared(m)) && Clean(Cleared(m))
  {
    if m.handler.Some? { WithoutOne(m.handler.value); }
  }

  lemma CancelInv(m: Manager)
    requires Inv(m)
    ensures var n := CancelTimer(m);
            && Inv(n) && n.timer == None && SamePairs(m, n) && n == m.(timer := None, timers := n.timers)
            && forall t :: 0 <= t < |n.timers| ==> n.timers[t].cancelled
  {
  }

  lemma StopInv(m: Manager, b: Board, env: Env)
    requires Inv(m)
    ensures var (n, r) := StopBody(m, b, env);
            Inv(n) && SamePairs(m, n) && n.timer == None && (r.Value? <==> !n.running)
  {
    CancelInv(m);
    ClearedInv(CancelTimer(m));
  }

  /** Right after the experiment was marked as running. */
  predicate JustOpened(m: Manager, q: Request)
  {
    && m.running && m.expId == Some(q.expId) && m.user == Some(q.user) && m.files == None && m.handler == None
    && m.timer == None && m.registered == [] && forall t :: 0 <= t < |m.timers| ==> m.timers[t].cancelled
  }

  lemma StartOpenedInv(m: Manager, b: Board, q: Request, env: Env)
    requires JustOpened(m, q)
    ensures var n := StartOpened(m, b, q, env).0;
            Inv(n) && SamePairs(m, n)
  {
  }

  lemma StartInv(m: Manager, b: Board, q: Request, env: Env)
    requires Inv(m)
    ensures var n := StartBody(m, b, q, env).0;
            Inv(n) && SamePairs(m, n)
  {
    StopInv(m, b, env);
    var m0 := if m.running then StopBody(m, b, env).0 else m;
    if !m0.running {
      StartOpenedInv(Opened(m0, q), b, q, env);
    }
  }

  lemma DoInv(m: Manager, b: Board, e: Event)
    requires Inv(m)
    ensures var n := Do(m, b, e).0;
            Inv(n) && SamePairs(m, n)
  {
    if e.Start? { StartInv(m, b, e.q, e.env); } else { StopInv(m, b, e.env); }
  }

  // ----- What each operation achieves -----------------------------------------------------------

  /** A start that returns a value runs the requested experiment with its own files, handler and timer, unless
      the profile or the firmware was refused; then nothing runs any more, whatever ran before. */
  lemma StartAchieves(m: Manager, b: Board, q: Request, env: Env)
    requires Inv(m) && StartBody(m, b, q, env).1.Value?
    ensures var n := StartBody(m, b, q, env).0;
            if Val(env, ParseProfile) != 0 || Val(env, IsCompatible) == 0 then Clean(n) && !n.running
            else && n.running && n.expId == Some(q.expId) && n.user == Some(q.user)
                 && n.files == Some((q.expId, q.user)) && n.handler == Some(m.created) && n.registered == [m.created]
                 && n.timer == (if q.timeout == 0 then None else Some(|m.timers|))
                 && (q.timeout != 0 ==> |n.timers| == |m.timers| + 1
                                        && n.timers[|m.timers|] == Timer(q.expId, q.user, false))
  {
    StopInv(m, b, env);
  }

  lemma PerformCons(env: Env, c: Call, rest: seq<Call>)
    requires Perform(env, [c] + rest).Ret?
    ensures Perform(env, rest).Ret?
    ensures Perform(env, [c] + rest).val == (if Dropped(c) then 0 else Val(env, c)) + Perform(env, rest).val
  {
    assert ([c] + rest)[1..] == rest;
  }

  lemma StopCallsSum(b: Board, env: Env)
    requires Perform(env, StopCalls(b)).Ret?
    ensures Perform(env, StopCalls(b)).val == Val(env, StopExperiment) + Val(env, Teardown)
  {
    var end := [Teardown] + ([ControlStop] + ([CleanupFiles] + []));
    if b.pycom {
      assert StopCalls(b) == [StopExperiment] + ([StopWaitTty] + end);
      PerformCons(env, StopExperiment, [StopWaitTty] + end);
      PerformCons(env, StopWaitTty, end);
    } else {
      assert StopCalls(b) == [StopExperiment] + end;
      PerformCons(env, StopExperiment, end);
    }
    PerformCons(env, Teardown, [ControlStop] + ([CleanupFiles] + []));
    PerformCons(env, ControlStop, [CleanupFiles] + []);
    PerformCons(env, CleanupFiles, []);
  }

  /** A stop that returns a value leaves nothing behind, every timer cancelled, and adds up two results only:
      that of control_node.stop() is dropped. */
  lemma StopAchieves(m: Manager, b: Board, env: Env)
    requires Inv(m) && StopBody(m, b, env).1.Value?
    ensures var (n, r) := StopBody(m, b, env);
            && Clean(n) && !n.running
            && (forall t :: 0 <= t < |n.timers| ==> n.timers[t].cancelled)
            && r == Value(if m.running then Val(env, StopExperiment) + Val(env, Teardown) else 0)
  {
    StopInv(m, b, env);
    CancelInv(m);
    if m.running { StopCallsSum(b, env); }
  }

  /** A stop one of whose calls raises, and only that, leaves the experiment running, and then without any timer that
      could still end it. */
  lemma FailedStopLosesTimer(m: Manager, b: Board, env: Env)
    requires Inv(m) && m.running
    ensures var n := StopBody(m, b, env).0;
            && (n.running <==> !NoneRaises(env, StopCalls(b)))
            && (n.running ==>
                  && n.expId == m.expId && n.user == m.user && n.files == m.files && n.handler == m.handler
                  && n.timer == None && forall t :: 0 <= t < |n.timers| ==> n.timers[t].cancelled)
  {
    PerformReturns(env, StopCalls(b));
    CancelInv(m);
  }

  /** A timeout callback that has the lock leaves everything as it is unless the running experiment has the pair
      of its timer; and it ends the running experiment if and only if that is so and no call of exp_stop()
      raises. */
  lemma LateCallback(m: Manager, b: Board, t: nat, env: Env)
    requires Inv(m) && t < |m.timers|
    ensures var n := Do(m, b, Fire(t, env)).0;
            && (!Mine(m, m.timers[t]) ==> n == m)
            && (m.running ==> (!n.running <==> Mine(m, m.timers[t]) && NoneRaises(env, StopCalls(b))))
  {
    StopInv(m, b, env);
    PerformReturns(env, StopCalls(b));
  }

  // ----- Timeouts that do not do what they were set for -----------------------------------------

  /** Nodes that accept everything. */
  function Quiet(c: Call): (o: Outcome)
  {
    if c == IsCompatible then Ret(1) else Ret(0)
  }

  lemma QuietNeverRaises(calls: seq<Call>)
    ensures NoneRaises(Quiet, calls) && Perform(Quiet, calls).Ret?
  {
    PerformReturns(Quiet, calls);
  }

  lemma QuietStart(m: Manager, b: Board, q: Request) returns (n: Manager)
    requires Inv(m) && !m.running
    ensures Do(m, b, Start(q, Quiet)).0 == n && Do(m, b, Start(q, Quiet)).1.Value?
    ensures Inv(n) && n.running && n.expId == Some(q.expId) && n.user == Some(q.user)
    ensures n.timers == m.timers + (if q.timeout == 0 then [] else [Timer(q.expId, q.user, false)])
    ensures n.timer == if q.timeout == 0 then None else Some(|m.timers|)
  {
    n := StartBody(m, b, q, Quiet).0;
    QuietNeverRaises(StartCalls(b, q));
    StartInv(m, b, q, Quiet);
    StartAchieves(m, b, q, Quiet);
  }

  lemma QuietStop(m: Manager, b: Board) returns (n: Manager)
    requires Inv(m) && m.running
    ensures Do(m, b, Stop(Quiet)).0 == n
    ensures Inv(n) && !n.running && |n.timers| == |m.timers| && SamePairs(m, n)
    ensures forall t :: 0 <= t < |n.timers| ==> n.timers[t].cancelled
  {
    n := StopBody(m, b, Quiet).0;
    QuietNeverRaises(StopCalls(b));
    StopInv(m, b, Quiet);
    StopAchieves(m, b, Quiet);
  }

  /** An experiment that is stopped and started again for the same user under the same number is ended by the
      cancelled timer of its first life, if that had already fired. */
  lemma RestartedExperimentIsStopped(b: Board, q: Request)
    requires q.timeout != 0
    ensures var m1 := Do(INIT, b, Start(q, Quiet)).0;
            var m2 := Do(m1, b, Stop(Quiet)).0;
            var m3 := Do(m2, b, Start(q.(timeout := 0), Quiet)).0;
            && |m3.timers| == 1 && m3.timers[0].cancelled && m3.running
            && !Do(m3, b, Fire(0, Quiet)).0.running
  {
    var m1 := QuietStart(INIT, b, q);
    var m2 := QuietStop(m1, b);
    var m3 := QuietStart(m2, b, q.(timeout := 0));
    QuietNeverRaises(StopCalls(b));
    LateCallback(m3, b, 0, Quiet);
  }
}
