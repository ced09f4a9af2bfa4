/** The operations of GatewayManager under interleaving: any thread may try an operation at any moment, and the
    one that has the lock moves by one statement or one call at a time. */
module Schedule {
  import opened Dict
  import opened Lifecycle
  import opened Trace
  import Bytes

  // ----- Program counters -----------------------------------------------------------------------

  /** Before the statement of that name. `InStop` waits for the exp_stop() it called; Leaving gives the lock back
      with the result, by return or by exception. */
  datatype Pc =
    | StartTest(q: Request) | StartInStop(q: Request) | StartProfile(q: Request) | StartElf(q: Request)
    | StartRunning(q: Request) | StartExpId(q: Request) | StartUser(q: Request) | StartFolders(q: Request)
    | StartFiles(q: Request) | StartLogger(q: Request) | StartAdd(q: Request)
    | StartCall(q: Request, k: nat, ret: int) | StartNewTimer(q: Request, ret: int) | StartThread(q: Request, ret: int)
    | StopTest | StopCancel | StopTimer | StopCall(k: nat, ret: int) | StopFiles(ret: int) | StopExpId(ret: int)
    | StopUser(ret: int) | StopRunning(ret: int) | StopRemove(ret: int) | StopHandler(ret: int)
    | FireTest(timer: Timer) | FireInStop
    | HoldCall(n: nat, k: nat, ret: int)
    | Leaving(r: Result)

  predicate InStop(pc: Pc)
  {
    pc.StartInStop? || pc.FireInStop?
  }

  predicate OfStop(pc: Pc)
  {
    || pc.StopTest? || pc.StopCancel? || pc.StopTimer? || pc.StopCall? || pc.StopFiles? || pc.StopExpId?
    || pc.StopUser? || pc.StopRunning? || pc.StopRemove? || pc.StopHandler? || pc.Leaving?
  }

  function Add(ret: int, c: Call, v: int): (r: int)
  {
    if Dropped(c) then ret else ret + v
  }

  function Cancelled(m: Manager): (n: Manager)
  {
    if m.timer.Some? && m.timer.value < |m.timers| then
      m.(timers := m.timers[m.timer.value := m.timers[m.timer.value].(cancelled := true)])
    else m
  }

  /** One statement of exp_stop(). */
  function NextStop(m: Manager, b: Board, env: Env, pc: Pc): (r: (Manager, Pc))
  {
    match pc
    case StopTest => (m, if !m.running then Leaving(Value(0)) else if m.timer.Some? then StopCancel else StopCall(0, 0))
    case StopCancel => (Cancelled(m), StopTimer)
    case StopTimer => (m.(timer := None), StopCall(0, 0))
    case StopCall(k, ret) =>
      if k >= |StopCalls(b)| then (m, StopFiles(ret))
      else (match env(StopCalls(b)[k])
        case Raise(e) => (m, Leaving(Raised(e)))
        case Ret(v) => (m, StopCall(k + 1, Add(ret, StopCalls(b)[k], v))))
    case StopFiles(ret) => (m.(files := None), StopExpId(ret))
    case StopExpId(ret) => (m.(expId := None), StopUser(ret))
    case StopUser(ret) => (m.(user := None), StopRunning(ret))
    case StopRunning(ret) => (m.(running := false), StopRemove(ret))
    case StopRemove(ret) => (m.(registered := Without(m.registered, m.handler)), StopHandler(ret))
    case StopHandler(ret) => (m.(handler := None), Leaving(Value(ret)))
    case _ => (m, pc)
  }

  function Added(m: Manager): (n: Manager)
  {
    m.(registered := m.registered + (match m.handler case Some(h) => [h] case None => []))
  }

  /** One statement of exp_start(). */
  function NextStart(m: Manager, b: Board, env: Env, pc: Pc): (r: (Manager, Pc))
  {
    match pc
    case StartTest(q) => (m, if m.running then StartInStop(q) else StartProfile(q))
    case StartProfile(q) =>
      (m, match env(ParseProfile)
          case Raise(e) => Leaving(Raised(e))
          case Ret(v) => if v != 0 then Leaving(Value(1)) else StartElf(q))
    case StartElf(q) =>
      (m, match env(IsCompatible)
          case Raise(e) => Leaving(Raised(e))
          case Ret(v) => if v == 0 then Leaving(Value(1)) else StartRunning(q))
    case StartRunning(q) => (m.(running := true), StartExpId(q))
    case StartExpId(q) => (m.(expId := Some(q.expId)), StartUser(q))
    case StartUser(q) => (m.(user := Some(q.user)), StartFolders(q))
    case StartFolders(q) =>
      (m, if b.makesFolders && env(CreateFolders).Raise? then Leaving(Raised(env(CreateFolders).error))
          else StartFiles(q))
    case StartFiles(q) =>
      (match env(CreateFiles)
       case Raise(e) => (m, Leaving(Raised(e)))
       case Ret(_) => (WithFiles(m, q), StartLogger(q)))
    case StartLogger(q) =>
      (match env(UserLogger)
       case Raise(e) => (m, Leaving(Raised(e)))
       case Ret(_) => (m.(handler := Some(m.created), created := m.created + 1), StartAdd(q)))
    case StartAdd(q) => (Added(m), StartCall(q, 0, 0))
    case StartCall(q, k, ret) =>
      if k >= |StartCalls(b, q)| then (m, if q.timeout == 0 then Leaving(Value(ret)) else StartNewTimer(q, ret))
      else (match env(StartCalls(b, q)[k])
        case Raise(e) => (m, Leaving(Raised(e)))
        case Ret(v) => (m, StartCall(q, k + 1, Add(ret, StartCalls(b, q)[k], v))))
    case StartNewTimer(q, ret) => (WithTimer(m, q), StartThread(q, ret))
    case StartThread(q, ret) =>
      (m, match env(StartTimer) case Raise(e) => Leaving(Raised(e)) case Ret(_) => Leaving(Value(ret)))
    case _ => (m, pc)
  }

  function Next(m: Manager, b: Board, env: Env, pc: Pc): (r: (Manager, Pc))
  {
    match pc
    case FireTest(t) => (m, if Mine(m, t) then FireInStop else Leaving(Value(0)))
    case HoldCall(n, k, ret) =>
      if k >= |HoldCalls(n)| then (m, Leaving(Value(ret)))
      else (match env(HoldCalls(n)[k])
        case Raise(e) => (m, Leaving(Raised(e)))
        case Ret(v) => (m, HoldCall(n, k + 1, Add(ret, HoldCalls(n)[k], v))))
    case _ => if OfStop(pc) then NextStop(m, b, env, pc) else NextStart(m, b, env, pc)
  }

  /** The caller of exp_stop() when it returns or raises. */
  function Resume(pc: Pc, r: Result): (next: Pc)
  {
    match pc
    case StartInStop(q) => if r.Raised? then Leaving(r) else StartProfile(q)
    case FireInStop => Leaving(FireResult(r))
    case _ => pc
  }

  // ----- The machine ----------------------------------------------------------------------------

  /** Nobody inside, one operation, or an operation inside its exp_stop(). */
  datatype Frames = Free | One(pc: Pc) | Two(pc: Pc, inner: Pc)

  /** The manager and its lock, what the owner is doing, and history: the operation in progress and the manager
      it found, the operations that ended with their results, the timers that fired, the refused attempts. */
  datatype State = State(b: Board, m: Manager, owner: Option<nat>, depth: nat, frames: Frames,
                         event: Option<Event>, begun: Manager, done: seq<(Event, Result)>, fired: seq<nat>,
                         refused: seq<(nat, Event)>)

  /** A thread tries an operation, or the owner of the lock moves on. */
  datatype Step = Try(me: nat, e: Event) | Go

  function START(b: Board): (s: State)
  {
    State(b, INIT, None, 0, Free, None, INIT, [], [], [])
  }

  function Entry(m: Manager, e: Event): (pc: Pc)
  {
    match e
    case Start(q, _) => StartTest(q)
    case Stop(_) => StopTest
    case Fire(t, _) => if t < |m.timers| then FireTest(m.timers[t]) else Leaving(Value(0))
    case Hold(n, _) => HoldCall(n, 0, 0)
  }

  /** A timer that exists calls back once; a thread inside an operation tries no other. */
  predicate CanTry(s: State, me: nat, e: Event)
  {
    s.owner != Some(me) && (e.Fire? ==> e.t < |s.m.timers| && e.t !in s.fired)
  }

  function Attempt(s: State, me: nat, e: Event): (t: State)
  {
    var s1 := if e.Fire? then s.(fired := s.fired + [e.t]) else s;
    if s.owner.Some? then s1.(refused := s.refused + [(me, e)])
    else s1.(owner := Some(me), depth := s.depth + 1, frames := One(Entry(s.m, e)), event := Some(e), begun := s.m)
  }

  function Release(s: State): (t: State)
  {
    if s.depth <= 1 then s.(depth := 0, owner := None) else s.(depth := s.depth - 1)
  }

  function Move(s: State, env: Env): (t: State)
  {
    match s.frames
    case Free => s
    case One(Leaving(r)) =>
      Release(s).(frames := Free, event := None, done := s.done + (if s.event.Some? then [(s.event.value, r)] else []))
    case One(pc) =>
      var (n, next) := Next(s.m, s.b, env, pc);
      if InStop(next) then s.(m := n, depth := s.depth + 1, frames := Two(next, StopTest))
      else s.(m := n, frames := One(next))
    case Two(pc, Leaving(r)) => Release(s).(frames := One(Resume(pc, r)))
    case Two(pc, inner) =>
      var (n, next) := NextStop(s.m, s.b, env, inner);
      s.(m := n, frames := Two(pc, next))
  }

  function Apply(s: State, step: Step): (t: State)
  {
    match step
    case Try(me, e) => if CanTry(s, me, e) then Attempt(s, me, e) else s
    case Go => if s.event.Some? then Move(s, s.event.value.env) else s
  }

  // ----- What holds before each statement -------------------------------------------------------

  predicate AllCancelled(m: Manager)
  {
    m.timer == None && forall t :: 0 <= t < |m.timers| ==> m.timers[t].cancelled
  }

  /** The registered handlers are the current one, if there is one. */
  predicate HandlerOk(m: Manager)
  {
    && m.registered == (match m.handler case Some(h) => [h] case None => [])
    && (m.handler.Some? ==> m.handler.value < m.created)
  }

  predicate StageStop(m: Manager, pc: Pc)
  {
    match pc
    case StopTest => Inv(m)
    case StopCancel => Inv(m) && m.running && m.timer.Some?
    case StopTimer => Inv(m) && m.running && m.timer.Some? && m.timers[m.timer.value].cancelled
    case StopCall(_, _) => Inv(m) && m.running && m.timer == None
    case StopFiles(_) => Inv(m) && m.running && m.timer == None
    case StopExpId(_) => Inv(m) && m.running && m.timer == None && m.files == None
    case StopUser(_) => AllCancelled(m) && HandlerOk(m) && m.running && m.files == None && m.expId == None
    case StopRunning(_) =>
      AllCancelled(m) && HandlerOk(m) && m.running && m.files == None && m.expId == None && m.user == None
    case StopRemove(_) =>
      AllCancelled(m) && HandlerOk(m) && !m.running && m.files == None && m.expId == None && m.user == None
    case StopHandler(_) =>
      AllCancelled(m) && m.registered == [] && !m.running && m.files == None && m.expId == None && m.user == None
    case Leaving(r) => Inv(m) && (r.Value? ==> !m.running)
    case _ => false
  }

  predicate StageStart(m: Manager, pc: Pc)
  {
    match pc
    case StartTest(q) => Inv(m)
    case StartProfile(q) => Inv(m) && !m.running
    case StartElf(q) => Inv(m) && !m.running
    case StartRunning(q) => Inv(m) && !m.running
    case StartExpId(q) => Clean(m) && AllCancelled(m) && m.running
    case StartUser(q) => Clean(m.(expId := None)) && AllCancelled(m) && m.running && m.expId == Some(q.expId)
    case StartFolders(q) => JustOpened(m, q)
    case StartFiles(q) => JustOpened(m, q)
    case StartLogger(q) => m == WithFiles(m, q) && JustOpened(m.(files := None), q)
    case StartAdd(q) =>
      && m == WithFiles(m, q) && JustOpened(m.(files := None, handler := None), q)
      && m.handler.Some? && m.handler.value < m.created
    case StartCall(q, _, _) => Inv(m) && AllCancelled(m) && m.running && Mine(m, Timer(q.expId, q.user, false))
    case StartNewTimer(q, _) =>
      Inv(m) && AllCancelled(m) && m.running && Mine(m, Timer(q.expId, q.user, false)) && q.timeout != 0
    case StartThread(q, _) => Inv(m)
    case FireTest(_) => Inv(m)
    case HoldCall(_, _, _) => Inv(m)
    case Leaving(_) => Inv(m)
    case _ => false
  }

  predicate Stage(m: Manager, f: Frames)
  {
    match f
    case Free => Inv(m)
    case One(pc) => StageStart(m, pc) || (StageStop(m, pc) && OfStop(pc))
    case Two(pc, inner) => InStop(pc) && OfStop(inner) && StageStop(m, inner)
  }

  /** Every intermediate state is safe. */
  lemma StageSafe(m: Manager, f: Frames)
    requires Stage(m, f)
    ensures TimerSafe(m) && |m.registered| <= 1
  {
  }

  lemma NextStopStage(m: Manager, b: Board, env: Env, pc: Pc)
    requires StageStop(m, pc)
    ensures var (n, next) := NextStop(m, b, env, pc);
            StageStop(n, next) && OfStop(next)
  {
    if pc.StopRemove? && m.handler.Some? { WithoutOne(m.handler.value); }
  }

  /** The statements of exp_start() up to the marking of the experiment, up to its node calls, and after. */
  predicate Checks(pc: Pc)
  {
    pc.StartTest? || pc.StartProfile? || pc.StartElf?
  }

  predicate Marks(pc: Pc)
  {
    pc.StartRunning? || pc.StartExpId? || pc.StartUser? || pc.StartFolders?
  }

  predicate Opens(pc: Pc)
  {
    pc.StartFiles? || pc.StartLogger? || pc.StartAdd?
  }

  lemma ChecksStage(m: Manager, b: Board, env: Env, pc: Pc)
    requires StageStart(m, pc) && Checks(pc)
    ensures var (n, next) := Next(m, b, env, pc);
            if InStop(next) then n == m && Inv(m) else StageStart(n, next)
  {
  }

  lemma MarksStage(m: Manager, b: Board, env: Env, pc: Pc)
    requires StageStart(m, pc) && Marks(pc)
    ensures var (n, next) := Next(m, b, env, pc);
            !InStop(next) && StageStart(n, next)
  {
  }

  lemma OpensStage(m: Manager, b: Board, env: Env, pc: Pc)
    requires StageStart(m, pc) && Opens(pc)
    ensures var (n, next) := Next(m, b, env, pc);
            !InStop(next) && StageStart(n, next)
  {
  }

  lemma CallsStage(m: Manager, b: Board, env: Env, pc: Pc)
    requires StageStart(m, pc) && !pc.Leaving? && !Checks(pc) && !Marks(pc) && !Opens(pc)
    ensures var (n, next) := Next(m, b, env, pc);
            if InStop(next) then n == m && Inv(m) else StageStart(n, next)
  {
  }

  lemma NextStartStage(m: Manager, b: Board, env: Env, pc: Pc)
    requires StageStart(m, pc) && !pc.Leaving?
    ensures var (n, next) := Next(m, b, env, pc);
            if InStop(next) then n == m && Inv(m) else StageStart(n, next)
  {
    if Checks(pc) { ChecksStage(m, b, env, pc); }
    else if Marks(pc) { MarksStage(m, b, env, pc); }
    else if Opens(pc) { OpensStage(m, b, env, pc); }
    else { CallsStage(m, b, env, pc); }
  }

  // ----- What is left to do ---------------------------------------------------------------------

  /** The calls from the k-th on, after `ret`. */
  function From(env: Env, calls: seq<Call>, k: nat, ret: int): (o: Outcome)
  {
    Plus(ret, Perform(env, if k <= |calls| then calls[k..] else []))
  }

  lemma FromNext(env: Env, calls: seq<Call>, k: nat, ret: int)
    ensures k >= |calls| ==> From(env, calls, k, ret) == Ret(ret)
    ensures k < |calls| && env(calls[k]).Raise? ==> From(env, calls, k, ret) == env(calls[k])
    ensures k < |calls| && env(calls[k]).Ret? ==>
              From(env, calls, k, ret) == From(env, calls, k + 1, Add(ret, calls[k], env(calls[k]).val))
  {
    if k < |calls| {
      assert calls[k..][1..] == calls[k + 1..];
    }
  }

  /** The outcome of exp_stop() from a statement on. */
  function RestStop(m: Manager, b: Board, env: Env, pc: Pc): (r: (Manager, Result))
  {
    match pc
    case StopTest => StopBody(m, b, env)
    case StopCancel => StopNodes(CancelTimer(m), b, env)
    case StopTimer => StopNodes(m.(timer := None), b, env)
    case StopCall(k, ret) =>
      (match From(env, StopCalls(b), k, ret) case Raise(e) => (m, Raised(e)) case Ret(v) => (Cleared(m), Value(v)))
    case StopFiles(ret) => (Cleared(m), Value(ret))
    case StopExpId(ret) => (Cleared(m), Value(ret))
    case StopUser(ret) => (Cleared(m), Value(ret))
    case StopRunning(ret) => (Cleared(m), Value(ret))
    case StopRemove(ret) => (Cleared(m), Value(ret))
    case StopHandler(ret) => (m.(handler := None), Value(ret))
    case Leaving(r) => (m, r)
    case _ => (m, Value(0))
  }

  function RestStart(m: Manager, b: Board, env: Env, pc: Pc): (r: (Manager, Result))
  {
    match pc
    case StartTest(q) => StartBody(m, b, q, env)
    case StartProfile(q) => StartChecked(m, b, q, env)
    case StartElf(q) => StartCompatible(m, b, q, env)
    case StartRunning(q) => StartOpened(Opened(m, q), b, q, env)
    case StartExpId(q) => StartOpened(Opened(m, q), b, q, env)
    case StartUser(q) => StartOpened(Opened(m, q), b, q, env)
    case StartFolders(q) => StartOpened(m, b, q, env)
    case StartFiles(q) => StartFiled(m, b, q, env)
    case StartLogger(q) => StartLogged(m, b, q, env)
    case StartAdd(q) => StartNodes(Added(m), b, q, env)
    case StartCall(q, k, ret) =>
      (match From(env, StartCalls(b, q), k, ret)
       case Raise(e) => (m, Raised(e))
       case Ret(v) => StartTimed(m, q, env, v))
    case StartNewTimer(q, ret) => StartTimed(m, q, env, ret)
    case StartThread(q, ret) => (m, match env(StartTimer) case Raise(e) => Raised(e) case Ret(_) => Value(ret))
    case FireTest(t) => FireBody(m, b, t, env)
    case HoldCall(n, k, ret) => (m, ToResult(From(env, HoldCalls(n), k, ret)))
    case Leaving(r) => (m, r)
    case _ => (m, Value(0))
  }

  function Rest(m: Manager, b: Board, env: Env, pc: Pc): (r: (Manager, Result))
  {
    if OfStop(pc) then RestStop(m, b, env, pc) else RestStart(m, b, env, pc)
  }

  function RestOf(m: Manager, b: Board, env: Env, f: Frames): (r: (Manager, Result))
  {
    match f
    case Free => (m, Value(0))
    case One(pc) => Rest(m, b, env, pc)
    case Two(pc, inner) =>
      var (n, r) := RestStop(m, b, env, inner);
      Rest(n, b, env, Resume(pc, r))
  }

  lemma ClearAdvances(m: Manager, b: Board, env: Env, pc: Pc)
    requires StageStop(m, pc)
    requires pc.StopFiles? || pc.StopExpId? || pc.StopUser? || pc.StopRunning? || pc.StopRemove? || pc.StopHandler?
    ensures var (n, next) := NextStop(m, b, env, pc);
            RestStop(n, b, env, next) == RestStop(m, b, env, pc)
  {
  }

  lemma TimerAdvances(m: Manager, b: Board, env: Env, pc: Pc)
    requires StageStop(m, pc) && (pc.StopTest? || pc.StopCancel? || pc.StopTimer?)
    ensures var (n, next) := NextStop(m, b, env, pc);
            RestStop(n, b, env, next) == RestStop(m, b, env, pc)
  {
    FromStart(env, StopCalls(b));
  }

  lemma StopAdvances(m: Manager, b: Board, env: Env, pc: Pc)
    requires StageStop(m, pc)
    ensures var (n, next) := NextStop(m, b, env, pc);
            RestStop(n, b, env, next) == RestStop(m, b, env, pc)
  {
    if pc.StopCall? {
      FromNext(env, StopCalls(b), pc.k, pc.ret);
    } else if pc.StopTest? || pc.StopCancel? || pc.StopTimer? {
      TimerAdvances(m, b, env, pc);
    } else if !pc.Leaving? {
      ClearAdvances(m, b, env, pc);
    }
  }

  lemma FromStart(env: Env, calls: seq<Call>)
    ensures From(env, calls, 0, 0) == Perform(env, calls)
  {
    assert calls[0..] == calls;
  }

  /** The frames after a statement of an operation that is not inside exp_stop(). */
  function Framed(next: Pc): (f: Frames)
  {
    if InStop(next) then Two(next, StopTest) else One(next)
  }

  lemma TestAdvances(m: Manager, b: Board, env: Env, pc: Pc)
    requires StageStart(m, pc) && pc.StartTest?
    ensures var (n, next) := Next(m, b, env, pc);
            RestOf(n, b, env, Framed(next)) == Rest(m, b, env, pc)
  {
    if m.running {
      var (n, r) := StopBody(m, b, env);
      assert Rest(n, b, env, Resume(StartInStop(pc.q), r)) == StartStopped(n, r, b, pc.q, env);
    }
  }

  lemma ChecksAdvances(m: Manager, b: Board, env: Env, pc: Pc)
    requires StageStart(m, pc) && (pc.StartProfile? || pc.StartElf?)
    ensures var (n, next) := Next(m, b, env, pc);
            RestOf(n, b, env, Framed(next)) == Rest(m, b, env, pc)
  {
  }

  lemma MarksAdvances(m: Manager, b: Board, env: Env, pc: Pc)
    requires StageStart(m, pc) && Marks(pc)
    ensures var (n, next) := Next(m, b, env, pc);
            RestOf(n, b, env, Framed(next)) == Rest(m, b, env, pc)
  {
  }

  lemma FilesAdvances(m: Manager, b: Board, env: Env, pc: Pc)
    requires StageStart(m, pc) && pc.StartFiles?
    ensures var (n, next) := Next(m, b, env, pc);
            RestOf(n, b, env, Framed(next)) == Rest(m, b, env, pc)
  {
  }

  lemma LoggerAdvances(m: Manager, b: Board, env: Env, pc: Pc)
    requires StageStart(m, pc) && pc.StartLogger?
    ensures var (n, next) := Next(m, b, env, pc);
            RestOf(n, b, env, Framed(next)) == Rest(m, b, env, pc)
  {
    var n := m.(handler := Some(m.created), created := m.created + 1);
    assert Added(n) == WithHandler(m);
  }

  lemma AddAdvances(m: Manager, b: Board, env: Env, pc: Pc)
    requires StageStart(m, pc) && pc.StartAdd?
    ensures var (n, next) := Next(m, b, env, pc);
            RestOf(n, b, env, Framed(next)) == Rest(m, b, env, pc)
  {
    FromStart(env, StartCalls(b, pc.q));
  }

  lemma CallAdvances(m: Manager, b: Board, env: Env, pc: Pc)
    requires StageStart(m, pc) && pc.StartCall?
    ensures var (n, next) := Next(m, b, env, pc);
            RestOf(n, b, env, Framed(next)) == Rest(m, b, env, pc)
  {
    FromNext(env, StartCalls(b, pc.q), pc.k, pc.ret);
  }

  lemma HoldAdvances(m: Manager, b: Board, env: Env, pc: Pc)
    requires StageStart(m, pc) && pc.HoldCall?
    ensures var (n, next) := Next(m, b, env, pc);
            RestOf(n, b, env, Framed(next)) == Rest(m, b, env, pc)
  {
    FromNext(env, HoldCalls(pc.n), pc.k, pc.ret);
  }

  lemma FireAdvances(m: Manager, b: Board, env: Env, pc: Pc)
    requires StageStart(m, pc) && pc.FireTest?
    ensures var (n, next) := Next(m, b, env, pc);
            RestOf(n, b, env, Framed(next)) == Rest(m, b, env, pc)
  {
    if Mine(m, pc.timer) {
      var (n, r) := StopBody(m, b, env);
      assert Rest(n, b, env, Resume(FireInStop, r)) == (n, FireResult(r));
    }
  }

  lemma EndAdvances(m: Manager, b: Board, env: Env, pc: Pc)
    requires StageStart(m, pc) && (pc.StartNewTimer? || pc.StartThread?)
    ensures var (n, next) := Next(m, b, env, pc);
            RestOf(n, b, env, Framed(next)) == Rest(m, b, env, pc)
  {
  }

  lemma StartAdvances(m: Manager, b: Board, env: Env, pc: Pc)
    requires StageStart(m, pc) && !pc.Leaving?
    ensures var (n, next) := Next(m, b, env, pc);
            RestOf(n, b, env, Framed(next)) == Rest(m, b, env, pc)
  {
    if pc.StartTest? { TestAdvances(m, b, env, pc); }
    else if Checks(pc) { ChecksAdvances(m, b, env, pc); }
    else if Marks(pc) { MarksAdvances(m, b, env, pc); }
    else if pc.StartFiles? { FilesAdvances(m, b, env, pc); }
    else if pc.StartLogger? { LoggerAdvances(m, b, env, pc); }
    else if pc.StartAdd? { AddAdvances(m, b, env, pc); }
    else if pc.StartCall? { CallAdvances(m, b, env, pc); }
    else if pc.HoldCall? { HoldAdvances(m, b, env, pc); }
    else if pc.FireTest? { FireAdvances(m, b, env, pc); }
    else { EndAdvances(m, b, env, pc); }
  }

  // ----- The invariant of every interleaving ----------------------------------------------------

  /** The operations that ended, one after the other and each as a whole, from a manager; None if a result is
      not the one recorded. */
  function Replay(m: Manager, b: Board, done: seq<(Event, Result)>): (r: Option<Manager>)
    decreases |done|
  {
    if done == [] then Some(m)
    else
      var (n, r) := Do(m, b, done[0].0);
      if r == done[0].1 then Replay(n, b, done[1..]) else None
  }

  lemma {:induction false} ReplayLast(m: Manager, b: Board, done: seq<(Event, Result)>, e: Event, n: Manager)
    requires Replay(m, b, done) == Some(n)
    ensures Replay(m, b, done + [(e, Do(n, b, e).1)]) == Some(Do(n, b, e).0)
    decreases |done|
  {
    var all := done + [(e, Do(n, b, e).1)];
    if done == [] {
      assert all[1..] == [];
    } else {
      assert all[1..] == done[1..] + [(e, Do(n, b, e).1)];
      ReplayLast(Do(m, b, done[0].0).0, b, done[1..], e, n);
    }
  }

  /** The lock goes with the frames. */
  predicate Locked(s: State)
  {
    match s.frames
    case Free => s.owner == None && s.depth == 0 && s.event == None
    case One(_) => s.owner.Some? && s.depth == 1 && s.event.Some?
    case Two(_, _) => s.owner.Some? && s.depth == 2 && s.event.Some?
  }

  /** The manager as the operations that ended left it. */
  function Base(s: State): (m: Manager)
  {
    if s.frames.Free? then s.m else s.begun
  }

  predicate Good(s: State)
  {
    && Locked(s) && Stage(s.m, s.frames) && Inv(Base(s)) && Replay(INIT, s.b, s.done) == Some(Base(s))
    && (s.event.Some? ==> RestOf(s.m, s.b, s.event.value.env, s.frames) == Do(s.begun, s.b, s.event.value))
  }

  lemma EntryGood(m: Manager, b: Board, e: Event)
    requires Inv(m)
    ensures Stage(m, One(Entry(m, e))) && Rest(m, b, e.env, Entry(m, e)) == Do(m, b, e)
  {
    if e.Hold? { FromStart(e.env, HoldCalls(e.calls)); }
  }

  lemma AttemptGood(s: State, me: nat, e: Event)
    requires Good(s)
    ensures Good(Attempt(s, me, e))
  {
    if s.owner == None { EntryGood(s.m, s.b, e); }
  }

  lemma LeaveGood(s: State, env: Env)
    requires Good(s) && s.frames.One? && s.frames.pc.Leaving?
    ensures Good(Move(s, env))
  {
    ReplayLast(INIT, s.b, s.done, s.event.value, s.begun);
  }

  lemma ReturnGood(s: State)
    requires Good(s) && s.frames.Two? && s.frames.inner.Leaving?
    ensures Good(Move(s, s.event.value.env))
  {
  }

  lemma InnerGood(s: State)
    requires Good(s) && s.frames.Two? && !s.frames.inner.Leaving?
    ensures Good(Move(s, s.event.value.env))
  {
    NextStopStage(s.m, s.b, s.event.value.env, s.frames.inner);
    StopAdvances(s.m, s.b, s.event.value.env, s.frames.inner);
  }

  /** A step of an operation that is not inside exp_stop(). */
  lemma OuterGood(s: State, t: State, n: Manager, next: Pc)
    requires Good(s) && s.frames.One? && !s.frames.pc.Leaving?
    requires (n, next) == Next(s.m, s.b, s.event.value.env, s.frames.pc)
    requires Stage(n, Framed(next))
    requires RestOf(n, s.b, s.event.value.env, Framed(next)) == Do(s.begun, s.b, s.event.value)
    requires t == Move(s, s.event.value.env)
    ensures Good(t)
  {
  }

  lemma StopOuterGood(s: State)
    requires Good(s) && s.frames.One? && !s.frames.pc.Leaving? && OfStop(s.frames.pc)
    ensures Good(Move(s, s.event.value.env))
  {
    var env, pc := s.event.value.env, s.frames.pc;
    NextStopStage(s.m, s.b, env, pc);
    StopAdvances(s.m, s.b, env, pc);
    var (n, next) := NextStop(s.m, s.b, env, pc);
    OuterGood(s, Move(s, env), n, next);
  }

  lemma StartOuterGood(s: State)
    requires Good(s) && s.frames.One? && !s.frames.pc.Leaving? && !OfStop(s.frames.pc)
    ensures Good(Move(s, s.event.value.env))
  {
    var env, pc := s.event.value.env, s.frames.pc;
    NextStartStage(s.m, s.b, env, pc);
    StartAdvances(s.m, s.b, env, pc);
    var (n, next) := Next(s.m, s.b, env, pc);
    OuterGood(s, Move(s, env), n, next);
  }

  lemma StepGood(s: State, step: Step)
    requires Good(s)
    ensures Good(Apply(s, step))
  {
    match step
    case Try(me, e) => AttemptGood(s, me, e);
    case Go =>
      match s.frames
      case Free =>
      case One(pc) =>
        if pc.Leaving? { LeaveGood(s, s.event.value.env); }
        else if OfStop(pc) { StopOuterGood(s); }
        else { StartOuterGood(s); }
      case Two(_, inner) => if inner.Leaving? { ReturnGood(s); } else { InnerGood(s); }
  }

  lemma RunGood(s: State, steps: seq<Step>)
    requires Good(s)
    ensures Good(Run(Apply, s, steps))
    decreases |steps|
  {
    if steps != [] {
      StepGood(s, steps[0]);
      RunGood(Apply(s, steps[0]), steps[1..]);
    }
  }

  /** In every interleaving of attempts and statements, whichever calls raise: in every state, also in the middle
      of an operation, a stored timer is that of the running experiment, every other timer is cancelled and at
      most one user handler is registered. Whenever the lock is free its depth is 0 and a manager without
      experiment is clean. */
  lemma EveryInterleaving(b: Board, steps: seq<Step>)
    ensures var s := Run(Apply, START(b), steps);
            && TimerSafe(s.m) && |s.m.registered| <= 1 && s.depth <= 2
            && (s.owner == None <==> s.depth == 0)
            && (s.owner == None ==> Inv(s.m))
  {
    RunGood(START(b), steps);
    var s := Run(Apply, START(b), steps);
    StageSafe(s.m, s.frames);
  }

  /** The attempts of a run that get the lock. */
  ghost function Granted(s: State, steps: seq<Step>): (r: seq<Event>)
    decreases |steps|
  {
    if steps == [] then []
    else Grant(s, steps[0]) + Granted(Apply(s, steps[0]), steps[1..])
  }

  ghost function Grant(s: State, step: Step): (r: seq<Event>)
  {
    if step.Try? && CanTry(s, step.me, step.e) && s.owner == None then [step.e] else []
  }

  /** The operations that ended, and the one in progress. */
  function Started(s: State): (r: seq<Event>)
  {
    Events(s.done) + (match s.event case Some(e) => [e] case None => [])
  }

  function Events(done: seq<(Event, Result)>): (r: seq<Event>)
    ensures |r| == |done| && forall i :: 0 <= i < |r| ==> r[i] == done[i].0
  {
    seq(|done|, i requires 0 <= i < |done| => done[i].0)
  }

  lemma StepStarted(s: State, step: Step)
    requires Locked(s)
    ensures Started(Apply(s, step)) == Started(s) + Grant(s, step)
  {
    var t := Apply(s, step);
    if t.done != s.done {
      assert Events(t.done) == Events(s.done) + [s.event.value];
    }
  }

  lemma {:induction false} RunStarted(s: State, steps: seq<Step>)
    requires Good(s)
    ensures Started(Run(Apply, s, steps)) == Started(s) + Granted(s, steps)
    decreases |steps|
  {
    if steps != [] {
      var t := Apply(s, steps[0]);
      StepGood(s, steps[0]);
      RunStarted(t, steps[1..]);
      StartedFirst(s, t, steps[0], Granted(t, steps[1..]));
    }
  }

  lemma StartedFirst(s: State, t: State, step: Step, rest: seq<Event>)
    requires Locked(s) && t == Apply(s, step)
    ensures Started(t) + rest == Started(s) + (Grant(s, step) + rest)
  {
    StepStarted(s, step);
    Bytes.Associates(Started(s), Grant(s, step), rest);
  }

  /** Interleaving never shows: the operations that ended, with the one in progress, are the attempts that got the lock,
      in order; and whenever the lock is free, the manager and all results are those of these operations, each as a
      whole, one after the other. */
  lemma Serialisable(b: Board, steps: seq<Step>)
    ensures var s := Run(Apply, START(b), steps);
            && Started(s) == Granted(START(b), steps)
            && (s.owner == None ==>
                  Events(s.done) == Granted(START(b), steps) && Replay(INIT, b, s.done) == Some(s.m))
  {
    RunGood(START(b), steps);
    BoardStays(START(b), steps);
    RunStarted(START(b), steps);
  }

  lemma {:induction false} BoardStays(s: State, steps: seq<Step>)
    ensures Run(Apply, s, steps).b == s.b
    decreases |steps|
  {
    if steps != [] { BoardStays(Apply(s, steps[0]), steps[1..]); }
  }

  /** An attempt is refused exactly when another thread is inside an operation, at whatever statement; then it
      changes neither the manager nor the lock nor what the owner does. */
  lemma RefusedExactlyWhenBusy(b: Board, steps: seq<Step>, me: nat, e: Event)
    ensures var s := Run(Apply, START(b), steps);
            var t := Apply(s, Try(me, e));
            && (CanTry(s, me, e) ==> (t.refused != s.refused <==> !s.frames.Free?))
            && (t.refused != s.refused ==> t == s.(refused := t.refused, fired := t.fired))
  {
    RunGood(START(b), steps);
  }

  // ----- Every operation ends -------------------------------------------------------------------

  function Left(n: nat, k: nat): (r: nat)
  {
    if k < n then n - k else 0
  }

  /** An upper bound on the statements left. */
  function Work(b: Board, pc: Pc): (w: nat)
  {
    var c := |StopCalls(b)|;
    match pc
    case Leaving(_) => 0
    case StopHandler(_) => 1
    case StopRemove(_) => 2
    case StopRunning(_) => 3
    case StopUser(_) => 4
    case StopExpId(_) => 5
    case StopFiles(_) => 6
    case StopCall(k, _) => 7 + Left(c, k)
    case StopTimer => 8 + c
    case StopCancel => 9 + c
    case StopTest => 10 + c
    case FireInStop => 0
    case FireTest(_) => 13 + c
    case HoldCall(n, k, _) => 1 + Left(n, k)
    case _ => WorkStart(b, pc)
  }

  function WorkStart(b: Board, pc: Pc): (w: nat)
  {
    match pc
    case StartThread(_, _) => 1
    case StartNewTimer(_, _) => 2
    case StartCall(q, k, _) => 3 + Left(|StartCalls(b, q)|, k)
    case StartAdd(q) => 4 + |StartCalls(b, q)|
    case StartLogger(q) => 5 + |StartCalls(b, q)|
    case StartFiles(q) => 6 + |StartCalls(b, q)|
    case StartFolders(q) => 7 + |StartCalls(b, q)|
    case StartUser(q) => 8 + |StartCalls(b, q)|
    case StartExpId(q) => 9 + |StartCalls(b, q)|
    case StartRunning(q) => 10 + |StartCalls(b, q)|
    case StartElf(q) => 11 + |StartCalls(b, q)|
    case StartProfile(q) => 12 + |StartCalls(b, q)|
    case StartInStop(q) => 12 + |StartCalls(b, q)|
    case StartTest(q) => 25 + |StopCalls(b)| + |StartCalls(b, q)|
    case _ => 0
  }

  function WorkOf(b: Board, f: Frames): (w: nat)
  {
    match f
    case Free => 0
    case One(pc) => 1 + Work(b, pc)
    case Two(pc, inner) => 2 + Work(b, pc) + Work(b, inner)
  }

  lemma StopWorks(m: Manager, b: Board, env: Env, pc: Pc)
    requires OfStop(pc) && !pc.Leaving?
    ensures Work(b, NextStop(m, b, env, pc).1) < Work(b, pc)
  {
  }

  lemma ChecksWork(m: Manager, b: Board, env: Env, pc: Pc)
    requires Checks(pc)
    ensures WorkOf(b, Framed(Next(m, b, env, pc).1)) <= Work(b, pc)
  {
  }

  lemma MarksWork(m: Manager, b: Board, env: Env, pc: Pc)
    requires Marks(pc) || Opens(pc)
    ensures WorkOf(b, Framed(Next(m, b, env, pc).1)) <= Work(b, pc)
  {
  }

  lemma CallsWork(m: Manager, b: Board, env: Env, pc: Pc)
    requires pc.StartCall? || pc.StartNewTimer? || pc.StartThread?
    ensures WorkOf(b, Framed(Next(m, b, env, pc).1)) <= Work(b, pc)
  {
  }

  lemma OthersWork(m: Manager, b: Board, env: Env, pc: Pc)
    requires pc.FireTest? || pc.HoldCall?
    ensures WorkOf(b, Framed(Next(m, b, env, pc).1)) <= Work(b, pc)
  {
  }

  lemma StartWorks(m: Manager, b: Board, env: Env, pc: Pc)
    requires !OfStop(pc) && !InStop(pc)
    ensures WorkOf(b, Framed(Next(m, b, env, pc).1)) <= Work(b, pc)
  {
    if Checks(pc) { ChecksWork(m, b, env, pc); }
    else if Marks(pc) || Opens(pc) { MarksWork(m, b, env, pc); }
    else if pc.FireTest? || pc.HoldCall? { OthersWork(m, b, env, pc); }
    else { CallsWork(m, b, env, pc); }
  }

  /** Only its own program counters occur in the frames. */
  predicate Shaped(f: Frames)
  {
    match f
    case Free => true
    case One(pc) => !InStop(pc)
    case Two(pc, inner) => InStop(pc) && OfStop(inner)
  }

  lemma OneWorks(s: State, env: Env)
    requires s.frames.One? && Shaped(s.frames)
    ensures WorkOf(s.b, Move(s, env).frames) < WorkOf(s.b, s.frames)
  {
    var pc := s.frames.pc;
    if !pc.Leaving? {
      if OfStop(pc) { StopWorks(s.m, s.b, env, pc); } else { StartWorks(s.m, s.b, env, pc); }
    }
  }

  lemma TwoWorks(s: State, env: Env)
    requires s.frames.Two? && Shaped(s.frames)
    ensures WorkOf(s.b, Move(s, env).frames) < WorkOf(s.b, s.frames)
  {
    if !s.frames.inner.Leaving? { StopWorks(s.m, s.b, env, s.frames.inner); }
  }

  /** Every step of the owner brings its operation nearer to its end. */
  lemma GoWorks(s: State)
    requires Good(s) && !s.frames.Free?
    ensures WorkOf(s.b, Apply(s, Go).frames) < WorkOf(s.b, s.frames)
  {
    if s.frames.One? { OneWorks(s, s.event.value.env); } else { TwoWorks(s, s.event.value.env); }
  }

  /** The state in which the operation in progress leaves the machine. */
  function Ended(s: State): (t: State)
  {
    match s.event
    case None => s
    case Some(e) =>
      var (m, r) := Do(s.begun, s.b, e);
      s.(m := m, owner := None, depth := 0, frames := Free, event := None, done := s.done + [(e, r)])
  }

  /** The step that gives the lock back for good ends the operation. */
  lemma LeaveEnds(s: State)
    requires Good(s) && s.frames.One? && s.frames.pc.Leaving?
    ensures Ended(Apply(s, Go)) == Ended(s)
  {
  }

  lemma OthersGoOn(s: State)
    requires Good(s) && !s.frames.Free? && !(s.frames.One? && s.frames.pc.Leaving?)
    ensures var t := Apply(s, Go);
            t.event == s.event && t.begun == s.begun && t.done == s.done && t.b == s.b && Ended(t) == Ended(s)
  {
  }

  lemma GoOn(s: State)
    requires Good(s)
    ensures Good(Apply(s, Go)) && Ended(Apply(s, Go)) == Ended(s)
    ensures s.frames.Free? ==> Apply(s, Go) == s == Ended(s)
  {
    StepGood(s, Go);
    if !s.frames.Free? {
      if s.frames.One? && s.frames.pc.Leaving? { LeaveEnds(s); } else { OthersGoOn(s); }
    }
  }

  /** Left alone for long enough, the owner of the lock ends its operation, which has then done what it does as a
      whole, and the lock is free. */
  lemma OperationEnds(s: State, n: nat)
    requires Good(s) && n >= WorkOf(s.b, s.frames)
    ensures Run(Apply, s, Repeat(Go, n)) == Ended(s) && Good(Ended(s)) && Ended(s).frames.Free?
  {
    forall x | Good(x)
      ensures Good(Apply(x, Go)) && Ended(Apply(x, Go)) == Ended(x)
      ensures x.frames.Free? ==> Apply(x, Go) == x && Ended(x) == x
      ensures !x.frames.Free? ==> WorkOf(Apply(x, Go).b, Apply(x, Go).frames) < WorkOf(x.b, x.frames)
    {
      GoOn(x);
      if !x.frames.Free? { GoWorks(x); }
    }
    RunUntil(Apply, Go, Good, (x: State) => x.frames.Free?, (x: State) => WorkOf(x.b, x.frames), Ended, s, n);
  }
}
