/** control_node_serial/src/sniffer_server.c: the lock-free hand-over of the sniffer's client between the
    accepting thread and the sender, as interleaved atomic steps. Every accepted connection is a new number. */
module SnifferServer {
  import opened Dict
  import opened Trace

  /** In accept(), with a new connection before saving it, and after saving it before marking it active. */
  datatype AcceptPc = Accepting | Got | Saved

  /** Outside, after the test of active_connection, after clearing it, with a descriptor read, and after the
      send, whose success is remembered. */
  datatype SendPc = Outside | Tested | Cleared | Holding(fd: nat) | Sent(fd: nat, ok: bool)

  /** Whether a send to the client has failed, and how often its descriptor was closed. */
  datatype Client = Client(failed: bool, closes: nat)

  /** connect_fd is None for -1; `received` lists the receiver of each successful send. */
  datatype State = State(clients: seq<Client>, connectFd: Option<nat>, active: bool, accepting: AcceptPc,
                         sending: SendPc, received: seq<nat>)

  datatype Step = Accept | SaveFd | SetActive | Test | Clear | ReadFd | Send(ok: bool) | Finish

  const INIT := State([], None, false, Accepting, Outside, [])

  /** One atomic step; a step that is not enabled does nothing. A failed client, or a closed descriptor, never
      succeeds again. accept() tests `0 > connect_fd` before closing the old descriptor, so that it only ever
      closes -1. */
  function Apply(s: State, step: Step): (t: State)
  {
    match step
    case Accept =>
      if s.accepting.Accepting? then s.(clients := s.clients + [Client(false, 0)], accepting := Got) else s
    case SaveFd =>
      if s.accepting.Got? && s.clients != [] then s.(connectFd := Some(|s.clients| - 1), accepting := Saved) else s
    case SetActive =>
      if s.accepting.Saved? then s.(active := true, accepting := Accepting) else s
    case Test =>
      if s.sending.Outside? && s.active then s.(sending := Tested) else s
    case Clear =>
      if s.sending.Tested? then s.(active := false, sending := Cleared) else s
    case ReadFd =>
      if s.sending.Cleared? && s.connectFd.Some? then s.(sending := Holding(s.connectFd.value)) else s
    case Send(ok) =>
      if !s.sending.Holding? || s.sending.fd >= |s.clients| then s
      else
        var fd := s.sending.fd;
        if ok && !s.clients[fd].failed then s.(sending := Sent(fd, true), received := s.received + [fd])
        else s.(sending := Sent(fd, false), clients := s.clients[fd := s.clients[fd].(failed := true)])
    case Finish =>
      if !s.sending.Sent? || s.sending.fd >= |s.clients| then s
      else if s.sending.ok then s.(active := true, sending := Outside)
      else
        var c := s.clients[s.sending.fd];
        s.(clients := s.clients[s.sending.fd := c.(closes := c.closes + 1)], sending := Outside)
  }

  // ----- The invariant of the comments ----------------------------------------------------------

  function Latest(s: State): (c: nat)
    requires s.clients != []
  {
    |s.clients| - 1
  }

  predicate Live(s: State)
  {
    s.clients != [] && !s.clients[Latest(s)].failed
  }

  /** The sender cleared the mark and will put it back for the latest client: it has not read a descriptor
      yet, or read the latest one and has not failed. */
  predicate WillRestore(s: State)
    requires s.clients != []
  {
    match s.sending
    case Cleared => true
    case Holding(fd) => fd == Latest(s)
    case Sent(fd, ok) => fd == Latest(s) && ok
    case _ => false
  }

  /** A live latest client is marked active, or about to be marked by one of the two threads. */
  predicate HandedOver(s: State)
  {
    Live(s) ==> s.active || !s.accepting.Accepting? || WillRestore(s)
  }

  predicate Inv(s: State)
  {
    && HandedOver(s)
    && (s.accepting != Accepting ==> s.clients != [])
    && (s.accepting != Got && s.clients != [] ==> s.connectFd == Some(Latest(s)))
    && (s.connectFd.Some? ==> s.connectFd.value < |s.clients|)
    && (s.active || s.sending != Outside ==> s.connectFd.Some?)
    && (s.sending.Tested? ==> s.active)
    && (s.sending.Holding? || s.sending.Sent? ==>
          s.sending.fd < |s.clients| && (s.sending.fd < Latest(s) && s.accepting.Accepting? ==> s.active))
    && (s.sending.Sent? ==> s.clients[s.sending.fd].failed == !s.sending.ok)
    && (forall c :: 0 <= c < |s.clients| ==> Closed(s, c))
  }

  /** A client is closed only after one of its own sends failed, and then it is closed at the end of that
      send. */
  predicate Closed(s: State, c: nat)
    requires c < |s.clients|
  {
    && (s.clients[c].closes > 0 ==> s.clients[c].failed)
    && (s.clients[c].failed ==> s.clients[c].closes > 0 || s.sending == Sent(c, false))
  }

  lemma StepInv(s: State, step: Step)
    requires Inv(s)
    ensures Inv(Apply(s, step))
  {
    var t := Apply(s, step);
    forall c | 0 <= c < |t.clients|
      ensures Closed(t, c)
    {
      if c < |s.clients| {
        assert Closed(s, c);
      }
    }
  }

  lemma RunInv(s: State, steps: seq<Step>)
    requires Inv(s)
    ensures Inv(Run(Apply, s, steps))
  {
    forall x, a | Inv(x)
      ensures Inv(Apply(x, a))
    {
      StepInv(x, a);
    }
    RunKeeps(Apply, Inv, s, steps);
  }

  /** In every interleaving: the hand-over holds, and whenever both threads are outside a live latest client is
      marked active. */
  lemma LiveClientIsActive(steps: seq<Step>, s: State)
    requires s == Run(Apply, INIT, steps)
    ensures HandedOver(s)
    ensures s.accepting.Accepting? && s.sending.Outside? && Live(s) ==> s.active
  {
    RunInv(INIT, steps);
  }

  // ----- Who is closed --------------------------------------------------------------------------

  /** In every interleaving a client's descriptor is closed only after a failed send to that client, and is
      closed once the sender has left: accepting a new client closes nobody. */
  lemma OnlyFailuresAreClosed(steps: seq<Step>, s: State, c: nat)
    requires s == Run(Apply, INIT, steps) && c < |s.clients|
    ensures s.clients[c].closes > 0 ==> s.clients[c].failed
    ensures s.sending.Outside? ==> (s.clients[c].closes > 0 <==> s.clients[c].failed)
  {
    RunInv(INIT, steps);
    assert Closed(s, c);
  }

  predicate NoFailure(steps: seq<Step>)
  {
    forall i :: 0 <= i < |steps| ==> steps[i] != Send(false)
  }

  predicate AllOpen(s: State)
  {
    && (forall c :: 0 <= c < |s.clients| ==> s.clients[c] == Client(false, 0))
    && (s.sending.Sent? ==> s.sending.ok)
  }

  /** As long as no send fails every client ever accepted stays open, however many there are. */
  lemma {:induction false} ClientsPileUp(s: State, steps: seq<Step>)
    requires AllOpen(s) && NoFailure(steps)
    ensures AllOpen(Run(Apply, s, steps))
    decreases |steps|
  {
    if steps != [] {
      assert steps[0] != Send(false);
      assert forall i :: 0 <= i < |steps| - 1 ==> steps[1..][i] == steps[i + 1];
      ClientsPileUp(Apply(s, steps[0]), steps[1..]);
    }
  }

  // ----- Whole sends ----------------------------------------------------------------------------

  /** A whole call of sniffer_server_send_packet(). */
  function SendPacket(ok: bool): (steps: seq<Step>)
  {
    [Test, Clear] + ([ReadFd, Send(ok)] + [Finish])
  }

  lemma SendPacketRuns(s: State, ok: bool)
    ensures Run(Apply, s, SendPacket(ok))
         == Apply(Apply(Apply(Apply(Apply(s, Test), Clear), ReadFd), Send(ok)), Finish)
  {
    RunConcat(Apply, s, [Test, Clear], [ReadFd, Send(ok)] + [Finish]);
    var s2 := Apply(Apply(s, Test), Clear);
    RunTwo(Apply, s, Test, Clear);
    RunConcat(Apply, s2, [ReadFd, Send(ok)], [Finish]);
    RunTwo(Apply, s2, ReadFd, Send(ok));
    RunOne(Apply, Apply(Apply(s2, ReadFd), Send(ok)), Finish);
  }

  /** A mark left without a real client is corrected by the next undisturbed send: afterwards it says whether
      that send reached the latest client, and the packet went to nobody else. */
  lemma SendHealsMark(s: State, ok: bool)
    requires Inv(s) && s.accepting.Accepting? && s.sending.Outside? && s.active
    ensures var t := Run(Apply, s, SendPacket(ok));
            && t.sending.Outside? && t.accepting.Accepting? && s.clients != []
            && (t.active <==> ok && Live(s))
            && t.received == s.received + (if t.active then [Latest(s)] else [])
  {
    SendPacketRuns(s, ok);
  }

  // ----- How often a descriptor is closed -------------------------------------------------------

  function One(b: bool): (n: nat)
  {
    if b then 1 else 0
  }

  predicate HoldsFd(s: State, c: nat)
  {
    (s.sending.Holding? || s.sending.Sent?) && s.sending.fd == c
  }

  /** The closes of a client so far and those that the mark, the accepting thread and the sender may still lead
      to. */
  function Charge(s: State, c: nat): (n: nat)
    requires c < |s.clients|
  {
    s.clients[c].closes
    + (if s.connectFd == Some(c) then
         One(s.accepting.Saved?) + One(s.active)
         + One(s.sending.Cleared? || s.sending.Holding? || s.sending.Sent?)
       else One(HoldsFd(s, c)))
  }

  /** A client that was accepted and not saved yet. */
  predicate Unsaved(s: State, c: nat)
  {
    s.connectFd == None || s.connectFd.value < c
  }

  /** Nobody is charged with more than three closes, and a client not saved yet with none. */
  predicate Charged(s: State)
  {
    && (s.accepting.Got? && s.clients != [] ==> Unsaved(s, Latest(s)))
    && (forall c :: 0 <= c < |s.clients| ==> Charge(s, c) <= 3 && (Unsaved(s, c) ==> Charge(s, c) == 0))
  }

  lemma StepCharged(s: State, step: Step, c: nat)
    requires Inv(s) && Charged(s) && c < |Apply(s, step).clients|
    ensures var t := Apply(s, step);
            Charge(t, c) <= 3 && (Unsaved(t, c) ==> Charge(t, c) == 0)
  {
    if c < |s.clients| {
      assert Charge(s, c) <= 3 && (Unsaved(s, c) ==> Charge(s, c) == 0);
    }
  }

  predicate ChargedInv(s: State)
  {
    Inv(s) && Charged(s)
  }

  /** In every interleaving no descriptor is closed more than three times. */
  lemma AtMostThreeCloses(steps: seq<Step>, s: State, c: nat)
    requires s == Run(Apply, INIT, steps) && c < |s.clients|
    ensures s.clients[c].closes <= 3
  {
    forall x, a | ChargedInv(x)
      ensures ChargedInv(Apply(x, a))
    {
      StepInv(x, a);
      forall k | 0 <= k < |Apply(x, a).clients|
        ensures Charge(Apply(x, a), k) <= 3 && (Unsaved(Apply(x, a), k) ==> Charge(Apply(x, a), k) == 0)
      {
        StepCharged(x, a, k);
      }
    }
    RunKeeps(Apply, ChargedInv, INIT, steps);
    assert Charge(s, c) <= 3;
  }

  /** The first client is marked and a send has taken the mark. */
  lemma FirstClient(steps: seq<Step>)
    requires steps == [Accept, SaveFd] + ([SetActive, Test] + [Clear, Accept])
    ensures Run(Apply, INIT, steps)
         == State([Client(false, 0), Client(false, 0)], Some(0), false, Got, Cleared, [])
  {
    RunConcat(Apply, INIT, [Accept, SaveFd], [SetActive, Test] + [Clear, Accept]);
    RunTwo(Apply, INIT, Accept, SaveFd);
    var s := Apply(Apply(INIT, Accept), SaveFd);
    RunConcat(Apply, s, [SetActive, Test], [Clear, Accept]);
    RunTwo(Apply, s, SetActive, Test);
    RunTwo(Apply, Apply(Apply(s, SetActive), Test), Clear, Accept);
  }

  /** The second is marked, the third is saved, and the send that goes to it fails. */
  lemma ThirdClient(s: State, steps: seq<Step>)
    requires s == State([Client(false, 0), Client(false, 0)], Some(0), false, Got, Cleared, [])
    requires steps == [SaveFd, SetActive] + ([Accept, SaveFd] + ([ReadFd, Send(false)] + [Finish]))
    ensures Run(Apply, s, steps)
         == State([Client(false, 0), Client(false, 0), Client(true, 1)], Some(2), true, Saved, Outside, [])
  {
    RunConcat(Apply, s, [SaveFd, SetActive], [Accept, SaveFd] + ([ReadFd, Send(false)] + [Finish]));
    RunTwo(Apply, s, SaveFd, SetActive);
    var s2 := Apply(Apply(s, SaveFd), SetActive);
    RunConcat(Apply, s2, [Accept, SaveFd], [ReadFd, Send(false)] + [Finish]);
    RunTwo(Apply, s2, Accept, SaveFd);
    var s4 := Apply(Apply(s2, Accept), SaveFd);
    RunConcat(Apply, s4, [ReadFd, Send(false)], [Finish]);
    RunTwo(Apply, s4, ReadFd, Send(false));
    RunOne(Apply, Apply(Apply(s4, ReadFd), Send(false)), Finish);
  }

  /** Two more sends, one on the mark of the second client and one on its own, close it twice more. */
  lemma TwoMoreCloses(s: State)
    requires s == State([Client(false, 0), Client(false, 0), Client(true, 1)], Some(2), true, Saved, Outside, [])
    ensures var t := Run(Apply, s, SendPacket(false) + ([SetActive] + SendPacket(false)));
            |t.clients| == 3 && t.clients[2].closes == 3
  {
    RunConcat(Apply, s, SendPacket(false), [SetActive] + SendPacket(false));
    SendPacketRuns(s, false);
    var s1 := Run(Apply, s, SendPacket(false));
    assert s1 == State([Client(false, 0), Client(false, 0), Client(true, 2)], Some(2), false, Saved, Outside, []);
    RunConcat(Apply, s1, [SetActive], SendPacket(false));
    RunOne(Apply, s1, SetActive);
    SendPacketRuns(Apply(s1, SetActive), false);
  }

  /** Three closes do occur. */
  lemma ThreeClosesOccur() returns (steps: seq<Step>)
    ensures var s := Run(Apply, INIT, steps);
            |s.clients| == 3 && s.clients[2].closes == 3
  {
    var first := [Accept, SaveFd] + ([SetActive, Test] + [Clear, Accept]);
    var second := [SaveFd, SetActive] + ([Accept, SaveFd] + ([ReadFd, Send(false)] + [Finish]));
    var last := SendPacket(false) + ([SetActive] + SendPacket(false));
    FirstClient(first);
    var s1 := Run(Apply, INIT, first);
    ThirdClient(s1, second);
    TwoMoreCloses(Run(Apply, s1, second));
    steps := first + (second + last);
    RunConcat(Apply, INIT, first, second + last);
    RunConcat(Apply, s1, second, last);
  }

  // ----- When a descriptor is closed again ------------------------------------------------------

  /** A send fails on the saved client while that is marked or about to be marked. */
  predicate Hit(s: State, step: Step)
  {
    && step.Send? && s.sending.Holding? && s.sending.fd < |s.clients|
    && !(step.ok && !s.clients[s.sending.fd].failed)
    && s.connectFd == Some(s.sending.fd) && (s.active || s.accepting.Saved?)
  }

  predicate NoHit(s: State, steps: seq<Step>)
    decreases |steps|
  {
    steps == [] || (!Hit(s, steps[0]) && NoHit(Apply(s, steps[0]), steps[1..]))
  }

  /** A failed client is out of reach: not marked, not about to be marked, and no send is on its way to it. */
  predicate OutOfReach(s: State, c: nat)
    requires c < |s.clients|
  {
    && s.clients[c].closes <= One(s.clients[c].failed) && (Unsaved(s, c) ==> !s.clients[c].failed)
    && (s.clients[c].failed ==>
          && s.sending != Holding(c) && (s.sending == Sent(c, false) ==> s.clients[c].closes == 0)
          && (s.connectFd == Some(c) ==>
                !s.active && !s.accepting.Saved? && (s.sending.Outside? || s.sending == Sent(c, false))))
  }

  predicate Disjoint(s: State)
  {
    && Inv(s) && (s.accepting.Got? && s.clients != [] ==> Unsaved(s, Latest(s)))
    && (s.sending.Holding? || s.sending.Sent? ==> !Unsaved(s, s.sending.fd))
    && forall c :: 0 <= c < |s.clients| ==> OutOfReach(s, c)
  }

  lemma StepDisjoint(s: State, step: Step, c: nat)
    requires Disjoint(s) && !Hit(s, step) && c < |Apply(s, step).clients|
    ensures OutOfReach(Apply(s, step), c)
  {
    if c < |s.clients| {
      assert OutOfReach(s, c);
    }
    if HoldsFd(s, c) && s.connectFd.Some? && s.connectFd.value < |s.clients| {
      assert OutOfReach(s, s.connectFd.value);
    }
  }

  lemma {:induction false} RunDisjoint(s: State, steps: seq<Step>)
    requires Disjoint(s) && NoHit(s, steps)
    ensures Disjoint(Run(Apply, s, steps))
    decreases |steps|
  {
    if steps != [] {
      var t := Apply(s, steps[0]);
      StepInv(s, steps[0]);
      forall c | 0 <= c < |t.clients|
        ensures OutOfReach(t, c)
      {
        StepDisjoint(s, steps[0], c);
      }
      RunDisjoint(t, steps[1..]);
    }
  }

  /** Without a hit nobody is closed twice, and whoever is marked has not failed. */
  lemma WithoutHit(steps: seq<Step>, s: State, c: nat)
    requires s == Run(Apply, INIT, steps) && NoHit(INIT, steps) && c < |s.clients|
    ensures s.clients[c].closes <= 1
    ensures s.active && s.connectFd == Some(c) ==> !s.clients[c].failed
  {
    RunDisjoint(INIT, steps);
    assert OutOfReach(s, c);
  }

  /** After a hit, the end of the failing send closes the client, the mark stays or is set by the accepting thread,
      and the next undisturbed send, whatever the network says, closes it again. */
  lemma HitClosesAgain(s: State, step: Step, ok: bool)
    requires Inv(s) && Hit(s, step)
    ensures var c := s.sending.fd;
            var t := Run(Apply, s, [step, Finish] + (if s.accepting.Saved? then [SetActive] else []));
            && c < |t.clients| && t.active && t.clients[c].failed && t.clients[c].closes == s.clients[c].closes + 1
            && c < |Run(Apply, t, SendPacket(ok)).clients|
            && Run(Apply, t, SendPacket(ok)).clients[c].closes == s.clients[c].closes + 2
  {
    var s2 := Apply(Apply(s, step), Finish);
    RunTwo(Apply, s, step, Finish);
    RunConcat(Apply, s, [step, Finish], if s.accepting.Saved? then [SetActive] else []);
    RunOne(Apply, s2, SetActive);
    var t := if s.accepting.Saved? then Apply(s2, SetActive) else s2;
    SendPacketRuns(t, ok);
  }

  // ----- Newer clients take over for good -------------------------------------------------------

  /** The receivers so far are in order and none is newer than the descriptor in use. */
  predicate InOrder(s: State)
  {
    && (forall m, n :: 0 <= m < n < |s.received| ==> s.received[m] <= s.received[n])
    && (forall n :: 0 <= n < |s.received| ==> s.connectFd.Some? && s.received[n] <= s.connectFd.value)
    && (forall n :: 0 <= n < |s.received| && s.sending.Holding? ==> s.received[n] <= s.sending.fd)
    && (s.sending.Holding? ==> s.connectFd.Some? && s.sending.fd <= s.connectFd.value)
  }

  predicate InOrderInv(s: State)
  {
    Inv(s) && InOrder(s)
  }

  lemma SendInOrder(s: State, ok: bool)
    requires Inv(s) && InOrder(s)
    ensures InOrder(Apply(s, Send(ok)))
  {
  }

  lemma OtherInOrder(s: State, step: Step)
    requires Inv(s) && InOrder(s) && !step.Send?
    ensures InOrder(Apply(s, step))
  {
    assert Apply(s, step).received == s.received;
  }

  /** In every interleaving: once a client has received a packet, no older client ever does. */
  lemma ReceiversAdvance(steps: seq<Step>, s: State, m: nat, n: nat)
    requires s == Run(Apply, INIT, steps) && m < n < |s.received|
    ensures s.received[m] <= s.received[n]
  {
    forall x, a | InOrderInv(x)
      ensures InOrderInv(Apply(x, a))
    {
      StepInv(x, a);
      if a.Send? { SendInOrder(x, a.ok); } else { OtherInOrder(x, a); }
    }
    RunKeeps(Apply, InOrderInv, INIT, steps);
  }

  // ----- The shared fields, step by step --------------------------------------------------------

  /** sniffer_state, with the local variables of the two threads. */
  class SnifferState {
    var clients: seq<Client>
    var connectFd: Option<nat>
    var activeConnection: bool
    var accepting: AcceptPc
    var sending: SendPc
    var received: seq<nat>

    function Now(): (s: State)
      reads this
    {
      State(clients, connectFd, activeConnection, accepting, sending, received)
    }

    constructor ()
      ensures Now() == INIT && Inv(Now())
    {
      clients, connectFd, activeConnection := [], None, false;
      accepting, sending, received := Accepting, Outside, [];
    }

    /** accept() returns a connection; the test that follows closes nothing. */
    method AcceptReturns()
      requires Inv(Now()) && accepting.Accepting?
      modifies this
      ensures Now() == Apply(old(Now()), Accept) && Inv(Now())
    {
      StepInv(Now(), Accept);
      clients := clients + [Client(false, 0)];
      accepting := Got;
    }

    method SaveConnectFd()
      requires Inv(Now()) && accepting.Got?
      modifies this
      ensures Now() == Apply(old(Now()), SaveFd) && Inv(Now())
    {
      StepInv(Now(), SaveFd);
      connectFd := Some(|clients| - 1);
      accepting := Saved;
    }

    method MarkActive()
      requires Inv(Now()) && accepting.Saved?
      modifies this
      ensures Now() == Apply(old(Now()), SetActive) && Inv(Now())
    {
      StepInv(Now(), SetActive);
      activeConnection := true;
      accepting := Accepting;
    }

    /** The first test of sniffer_server_send_packet(); the result says whether it goes on. */
    method TestActive() returns (goesOn: bool)
      requires Inv(Now()) && sending.Outside?
      modifies this
      ensures Now() == Apply(old(Now()), Test) && Inv(Now()) && goesOn == old(activeConnection)
    {
      StepInv(Now(), Test);
      goesOn := activeConnection;
      if goesOn {
        sending := Tested;
      }
    }

    method ClearActive()
      requires Inv(Now()) && sending.Tested?
      modifies this
      ensures Now() == Apply(old(Now()), Clear) && Inv(Now())
    {
      StepInv(Now(), Clear);
      activeConnection := false;
      sending := Cleared;
    }

    method ReadConnectFd()
      requires Inv(Now()) && sending.Cleared?
      modifies this
      ensures Now() == Apply(old(Now()), ReadFd) && Inv(Now())
    {
      StepInv(Now(), ReadFd);
      sending := Holding(connectFd.value);
    }

    /** send(); `ok` is the network's answer for a client that has not failed yet. */
    method SendData(ok: bool)
      requires Inv(Now()) && sending.Holding?
      modifies this
      ensures Now() == Apply(old(Now()), Send(ok)) && Inv(Now())
    {
      StepInv(Now(), Send(ok));
      var fd := sending.fd;
      if ok && !clients[fd].failed {
        sending := Sent(fd, true);
        received := received + [fd];
      } else {
        sending := Sent(fd, false);
        clients := clients[fd := clients[fd].(failed := true)];
      }
    }

    method CloseOrRestore()
      requires Inv(Now()) && sending.Sent?
      modifies this
      ensures Now() == Apply(old(Now()), Finish) && Inv(Now())
    {
      StepInv(Now(), Finish);
      if sending.ok {
        activeConnection := true;
      } else {
        var fd := sending.fd;
        clients := clients[fd := clients[fd].(closes := clients[fd].closes + 1)];
      }
      sending := Outside;
    }

    /** What the accepting thread does meanwhile. */
    method Meanwhile(steps: seq<Step>)
      requires Inv(Now()) && AllOfAccept(steps)
      modifies this
      ensures Inv(Now()) && Now() == Run(Apply, old(Now()), steps)
      ensures sending == old(sending) && received == old(received)
    {
      ghost var start := Now();
      var k := 0;
      assert steps[..0] == [];
      while k < |steps|
        invariant 0 <= k <= |steps| && Inv(Now()) && Now() == Run(Apply, start, steps[..k])
        invariant sending == old(sending) && received == old(received)
        decreases |steps| - k
      {
        RunLast(Apply, start, steps[..k], steps[k]);
        assert steps[..k + 1] == steps[..k] + [steps[k]] && OfAccept(steps[k]);
        if steps[k].Accept? {
          if accepting.Accepting? { AcceptReturns(); }
        } else if steps[k].SaveFd? {
          if accepting.Got? { SaveConnectFd(); }
        } else {
          if accepting.Saved? { MarkActive(); }
        }
        k := k + 1;
      }
      assert steps[..k] == steps;
    }

    method ClearAfter(gap: seq<Step>)
      requires Inv(Now()) && sending.Tested? && AllOfAccept(gap)
      modifies this
      ensures Inv(Now()) && sending.Cleared? && received == old(received)
      ensures Now() == Run(Apply, old(Now()), gap + [Clear])
    {
      RunLast(Apply, Now(), gap, Clear);
      Meanwhile(gap);
      ClearActive();
    }

    method ReadAfter(gap: seq<Step>)
      requires Inv(Now()) && sending.Cleared? && AllOfAccept(gap)
      modifies this
      ensures Inv(Now()) && sending.Holding? && received == old(received)
      ensures Now() == Run(Apply, old(Now()), gap + [ReadFd])
    {
      RunLast(Apply, Now(), gap, ReadFd);
      Meanwhile(gap);
      ReadConnectFd();
    }

    method SendAfter(gap: seq<Step>, ok: bool)
      requires Inv(Now()) && sending.Holding? && AllOfAccept(gap)
      modifies this
      ensures Inv(Now()) && sending.Sent? && sending.fd == old(sending.fd)
      ensures received == old(received) + (if sending.ok then [sending.fd] else [])
      ensures Now() == Run(Apply, old(Now()), gap + [Send(ok)])
    {
      RunLast(Apply, Now(), gap, Send(ok));
      Meanwhile(gap);
      SendData(ok);
    }

    method FinishAfter(gap: seq<Step>)
      requires Inv(Now()) && sending.Sent? && AllOfAccept(gap)
      modifies this
      ensures Inv(Now()) && sending.Outside? && received == old(received)
      ensures old(sending.ok) ==> activeConnection
      ensures Now() == Run(Apply, old(Now()), gap + [Finish])
    {
      RunLast(Apply, Now(), gap, Finish);
      Meanwhile(gap);
      CloseOrRestore();
    }

    /** sniffer_server_send_packet(), with the accepting thread at work between its statements. It does nothing
        without a mark; a packet that is sent goes to one client, and the mark is set again at the end. */
    method SendWhole(ok: bool, gaps: seq<seq<Step>>) returns (to: Option<nat>)
      requires Inv(Now()) && sending.Outside? && |gaps| == 4
      requires forall g :: 0 <= g < |gaps| ==> AllOfAccept(gaps[g])
      modifies this
      ensures Inv(Now()) && sending.Outside?
      ensures received == old(received) + (if to.Some? then [to.value] else [])
      ensures to.Some? ==> activeConnection
      ensures Now() == if old(activeConnection) then Run(Apply, old(Now()), Interrupted(ok, gaps)) else old(Now())
    {
      ghost var s := Now();
      FourRuns(Apply(s, Test), gaps[0] + [Clear], gaps[1] + [ReadFd], gaps[2] + [Send(ok)], gaps[3] + [Finish]);
      RunCons(Apply, s, Test, Afterwards(ok, gaps));
      to := None;
      var goesOn := TestActive();
      if goesOn {
        ClearAfter(gaps[0]);
        ReadAfter(gaps[1]);
        SendAfter(gaps[2], ok);
        if sending.ok {
          to := Some(sending.fd);
        }
        FinishAfter(gaps[3]);
      }
    }
  }

  /** A step of the accepting thread. */
  predicate OfAccept(step: Step)
  {
    step.Accept? || step.SaveFd? || step.SetActive?
  }

  predicate AllOfAccept(steps: seq<Step>)
  {
    forall k :: 0 <= k < |steps| ==> OfAccept(steps[k])
  }

  function Afterwards(ok: bool, gaps: seq<seq<Step>>): (steps: seq<Step>)
    requires |gaps| == 4
  {
    (gaps[0] + [Clear]) + (gaps[1] + [ReadFd]) + (gaps[2] + [Send(ok)]) + (gaps[3] + [Finish])
  }

  /** A whole send with steps of the accepting thread in its gaps. */
  function Interrupted(ok: bool, gaps: seq<seq<Step>>): (steps: seq<Step>)
    requires |gaps| == 4
  {
    [Test] + Afterwards(ok, gaps)
  }

  lemma FourRuns(s: State, a: seq<Step>, b: seq<Step>, c: seq<Step>, d: seq<Step>)
    ensures Run(Apply, s, a + b + c + d) == Run(Apply, Run(Apply, Run(Apply, Run(Apply, s, a), b), c), d)
  {
    RunConcat(Apply, s, a + b + c, d);
    RunConcat(Apply, s, a + b, c);
    RunConcat(Apply, s, a, b);
  }
}
