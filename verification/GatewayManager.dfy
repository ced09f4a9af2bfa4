/** The methods of GatewayManager: the lock is really taken and given back around each body, also when
    exp_stop() runs inside another operation and when a call raises. */
module GatewayManager {
  import opened Dict
  import opened Lifecycle

  /** A run of calls whose results are added up, up to the first that raises. */
  method AddUp(env: Env, calls: seq<Call>) returns (o: Outcome)
    ensures o == Perform(env, calls)
  {
    var ret, i := 0, 0;
    while i < |calls|
      invariant 0 <= i <= |calls|
      invariant Perform(env, calls) == Plus(ret, Perform(env, calls[i..]))
    {
      assert calls[i..][1..] == calls[i + 1..];
      var out := env(calls[i]);
      if out.Raise? {
        return out;
      }
      if !Dropped(calls[i]) {
        ret := ret + out.val;
      }
      i := i + 1;
    }
    return Ret(ret);
  }

  class GatewayManager {
    const board: Board
    var expId: Option<int>
    var user: Option<string>
    var expFiles: Option<(int, string)>
    var running: bool
    var userLogHandler: Option<nat>
    var timeoutTimer: Option<nat>
    var registered: seq<nat>
    var created: nat
    var timers: seq<Timer>
    var owner: Option<nat>
    var depth: nat

    function State(): (m: Manager)
      reads this
    {
      Manager(expId, user, expFiles, running, userLogHandler, timeoutTimer, registered, created, timers)
    }

    predicate Valid()
      reads this
    {
      (owner == None <==> depth == 0) && (timeoutTimer.Some? ==> timeoutTimer.value < |timers|)
    }

    /** RLock.acquire(blocking=False) by this thread would succeed. */
    predicate Available(me: nat)
      reads this
    {
      owner == None || owner == Some(me)
    }

    constructor (b: Board)
      ensures State() == INIT && Inv(State()) && Valid() && board == b && owner == None
    {
      board := b;
      expId, user, expFiles, running := None, None, None, false;
      userLogHandler, timeoutTimer, registered, created := None, None, [], 0;
      timers, owner, depth := [], None, 0;
    }

    /** rlock.acquire(blocking=False) */
    method TryAcquire(me: nat) returns (ok: bool)
      requires Valid()
      modifies this`owner, this`depth
      ensures Valid() && ok == old(Available(me))
      ensures ok ==> owner == Some(me) && depth == old(depth) + 1
      ensures !ok ==> owner == old(owner) && depth == old(depth)
    {
      ok := owner == None || owner == Some(me);
      if ok {
        owner := Some(me);
        depth := depth + 1;
      }
    }

    method Release()
      requires Valid() && depth > 0
      modifies this`owner, this`depth
      ensures Valid() && depth == old(depth) - 1 && owner == (if depth == 0 then None else old(owner))
    {
      depth := depth - 1;
      if depth == 0 {
        owner := None;
      }
    }

    method RemoveHandler()
      modifies this`registered
      ensures registered == Without(old(registered), userLogHandler)
    {
      var left, i := [], 0;
      while i < |registered|
        invariant 0 <= i <= |registered|
        invariant left + Without(registered[i..], userLogHandler) == Without(registered, userLogHandler)
      {
        assert registered[i..][1..] == registered[i + 1..];
        if userLogHandler != Some(registered[i]) {
          left := left + [registered[i]];
        }
        i := i + 1;
      }
      registered := left;
    }

    method CancelTimeout()
      requires Valid()
      modifies this`timers, this`timeoutTimer
      ensures Valid() && State() == CancelTimer(old(State()))
    {
      if timeoutTimer != None {
        timers := timers[timeoutTimer.value := timers[timeoutTimer.value].(cancelled := true)];
        timeoutTimer := None;
      }
    }

    /** The end of exp_stop(). */
    method ClearExperiment()
      requires Valid()
      modifies this`expFiles, this`expId, this`user, this`running, this`registered, this`userLogHandler
      ensures Valid() && State() == Cleared(old(State()))
    {
      expFiles := None;
      expId := None;
      user := None;
      running := false;
      RemoveHandler();
      userLogHandler := None;
    }

    /** The body of exp_stop(). */
    method StopCurrent(env: Env) returns (r: Result)
      requires Valid()
      modifies this
      ensures Valid() && owner == old(owner) && depth == old(depth)
      ensures (State(), r) == StopBody(old(State()), board, env)
    {
      if !running {
        return Value(0);
      }
      CancelTimeout();
      var out := AddUp(env, StopCalls(board));
      if out.Raise? {
        return Raised(out.error);
      }
      ClearExperiment();
      return Value(out.val);
    }

    /** Refused without effect when another thread has the lock; otherwise the operation as a whole, with the
        lock as it was before, also after an exception. */
    method ExpStop(me: nat, env: Env) returns (r: Result)
      requires Valid()
      modifies this
      ensures Valid() && owner == old(owner) && depth == old(depth)
      ensures (State(), r) == if old(Available(me)) then Do(old(State()), board, Stop(env))
                              else (old(State()), Raised(WouldBlock))
    {
      var ok := TryAcquire(me);
      if !ok {
        return Raised(WouldBlock);
      }
      r := StopCurrent(env);
      Release();
    }

    /** user_logger() and LOGGER.addHandler() */
    method AddUserHandler()
      requires Valid()
      modifies this`userLogHandler, this`created, this`registered
      ensures Valid() && State() == WithHandler(old(State()))
    {
      userLogHandler := Some(created);
      created := created + 1;
      registered := registered + [userLogHandler.value];
    }

    method StartControlled(q: Request, env: Env) returns (r: Result)
      requires Valid()
      modifies this`timeoutTimer, this`timers
      ensures Valid() && (State(), r) == StartNodes(old(State()), board, q, env)
    {
      var out := AddUp(env, StartCalls(board, q));
      if out.Raise? {
        return Raised(out.error);
      }
      if q.timeout != 0 {
        timeoutTimer := Some(|timers|);
        timers := timers + [Timer(q.expId, q.user, false)];
        if env(StartTimer).Raise? { return Raised(env(StartTimer).error); }
      }
      return Value(out.val);
    }

    method StartUser(q: Request, env: Env) returns (r: Result)
      requires Valid()
      modifies this`expFiles, this`userLogHandler, this`created, this`registered, this`timeoutTimer, this`timers
      ensures Valid() && (State(), r) == StartOpened(old(State()), board, q, env)
    {
      if board.makesFolders && env(CreateFolders).Raise? { return Raised(env(CreateFolders).error); }
      if env(CreateFiles).Raise? { return Raised(env(CreateFiles).error); }
      expFiles := Some((q.expId, q.user));
      if env(UserLogger).Raise? { return Raised(env(UserLogger).error); }
      AddUserHandler();
      r := StartControlled(q, env);
    }

    /** The body of exp_start(); its exp_stop() takes the lock a second time. */
    method StartNew(me: nat, q: Request, env: Env) returns (r: Result)
      requires Valid() && owner == Some(me)
      modifies this
      ensures Valid() && owner == old(owner) && depth == old(depth)
      ensures (State(), r) == StartBody(old(State()), board, q, env)
    {
      if running {
        r := ExpStop(me, env);
        if r.Raised? { return; }
      }
      if env(ParseProfile).Raise? { return Raised(env(ParseProfile).error); }
      if env(ParseProfile).val != 0 { return Value(1); }
      if env(IsCompatible).Raise? { return Raised(env(IsCompatible).error); }
      if env(IsCompatible).val == 0 { return Value(1); }
      running := true;
      expId := Some(q.expId);
      user := Some(q.user);
      r := StartUser(q, env);
    }

    method ExpStart(me: nat, q: Request, env: Env) returns (r: Result)
      requires Valid()
      modifies this
      ensures Valid() && owner == old(owner) && depth == old(depth)
      ensures (State(), r) == if old(Available(me)) then Do(old(State()), board, Start(q, env))
                              else (old(State()), Raised(WouldBlock))
    {
      var ok := TryAcquire(me);
      if !ok {
        return Raised(WouldBlock);
      }
      r := StartNew(me, q, env);
      Release();
    }

    /** The callback of timer `t`. The lock is its own by the time it calls exp_stop(), so that the EWOULDBLOCK
        it swallows can only come from a call inside exp_stop(); a lock held by another thread makes it fail at
        its very start. */
    method TimeoutExpStop(me: nat, t: nat, env: Env) returns (r: Result)
      requires Valid() && t < |timers|
      modifies this
      ensures Valid() && owner == old(owner) && depth == old(depth)
      ensures (State(), r) == if old(Available(me)) then Do(old(State()), board, Fire(t, env))
                              else (old(State()), Raised(WouldBlock))
    {
      var timer := timers[t];
      var ok := TryAcquire(me);
      if !ok {
        return Raised(WouldBlock);
      }
      r := Value(0);
      if expId == Some(timer.expId) && user == Some(timer.user) {
        var s := ExpStop(me, env);
        if s.Raised? && s.error != WouldBlock {
          r := s;
        }
      }
      Release();
    }

    /** exp_update_profile(), power, reset, flash and the like: node calls under the lock. */
    method HoldLock(me: nat, n: nat, env: Env) returns (r: Result)
      requires Valid()
      modifies this`owner, this`depth
      ensures Valid() && owner == old(owner) && depth == old(depth)
      ensures r == if old(Available(me)) then Do(old(State()), board, Hold(n, env)).1 else Raised(WouldBlock)
    {
      var ok := TryAcquire(me);
      if !ok {
        return Raised(WouldBlock);
      }
      var out := AddUp(env, HoldCalls(n));
      r := ToResult(out);
      Release();
    }
  }
}
