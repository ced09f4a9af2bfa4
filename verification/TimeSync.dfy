/** The delay that is printed for an acknowledged set_time: the command thread stores the time of the last set_time in
    set_time_ref (command_reader.c), and the acknowledgement subtracts and clears it (measures_handler.c). */
module TimeSync {
  import opened Bytes
  import opened Dict
  import opened Scanf
  import opened CommandTable
  import opened CommandReader
  import opened CommandEncoder
  import opened TimeRef
  import Compilation
  import MH = MeasuresHandler

  /** A command line at a moment, or a packet from the device at a time of day. */
  datatype Event = Command(line: string, now: Now) | Received(p: Packet, clock: (int, int))

  predicate Valid(e: Event)
  {
    match e
    case Command(_, now) => now.usec < MICRO
    case Received(p, clock) => MH.Buffer(p) && 0 <= clock.1 < MICRO
  }

  predicate AllValid(events: seq<Event>)
  {
    forall i :: 0 <= i < |events| ==> Valid(events[i])
  }

  // ----- Which events matter --------------------------------------------------------------------

  predicate IsSetTime(e: Event)
  {
    e.Command? && e.line == "set_time"
  }

  predicate IsTimeAck(e: Event)
    requires Valid(e)
  {
    e.Received? && e.p.data[0] == ACK_FRAME && e.p.data[1] == SET_TIME
  }

  lemma OnlySetTimeRow(i: nat)
    requires i < |COMMANDS| && COMMANDS[i].handler.SetTime?
    ensures i == 7 && COMMANDS[i].count == 0 && COMMANDS[i].fmt == [Lit("set_time")]
  {
  }

  /** The lines that store the time are exactly the text set_time. */
  lemma SelectsSetTime(line: string)
    requires Formats(COMMANDS)
    ensures (Select(line, COMMANDS).Some? && Select(line, COMMANDS).value.handler.SetTime?) <==> line == "set_time"
  {
    if line == "set_time" {
      var args := [W("set_time")];
      var r := Compilation.TimeReady(args);
      LineUnfolds(args);
      SelectFirst(line, COMMANDS, 7);
    } else if Select(line, COMMANDS).Some? && Select(line, COMMANDS).value.handler.SetTime? {
      var d := Select(line, COMMANDS).value;
      var i :| 0 <= i < |COMMANDS| && COMMANDS[i] == d;
      OnlySetTimeRow(i);
    }
  }

  // ----- Runs -----------------------------------------------------------------------------------

  /** The time reference after an event. */
  function After(ref: (int, int), e: Event): (r: (int, int))
    requires Valid(e)
  {
    if IsSetTime(e) then (e.now.sec, e.now.usec) else if IsTimeAck(e) then (0, 0) else ref
  }

  function AfterAll(ref: (int, int), events: seq<Event>): (r: (int, int))
    requires AllValid(events)
    decreases events
  {
    if events == [] then ref else AfterAll(After(ref, events[0]), events[1..])
  }

  lemma {:induction false} AfterConcat(ref: (int, int), a: seq<Event>, b: seq<Event>)
    requires AllValid(a) && AllValid(b)
    ensures AllValid(a + b) && AfterAll(ref, a + b) == AfterAll(AfterAll(ref, a), b)
    decreases a
  {
    if a == [] {
      assert a + b == b;
    } else {
      AfterConcat(After(ref, a[0]), a[1..], b);
      assert (a + b)[1..] == a[1..] + b;
    }
  }

  /** The two programs' objects follow the events. */
  method Play(h: MH.Handler, buf: CommandBuffer, work: array<byte>, e: Event) returns (effect: Option<MH.Effect>)
    requires Valid(e) && h.Valid() && buf.Valid() && work.Length == 12 && h.setTimeRef.Normalised()
    requires buf.payload != work
    modifies h, h.setTimeRef, buf, buf.payload, work
    ensures h.Valid() && buf.Valid() && h.setTimeRef.Normalised()
    ensures h.setTimeRef.Pair() == After(old(h.setTimeRef.Pair()), e)
    ensures IsTimeAck(e) ==>
              effect == Some(MH.AckEffect(SET_TIME, Instant(e.clock) - Instant(old(h.setTimeRef.Pair()))))
  {
    match e
    case Command(line, now) =>
      CommandFormats();
      SelectsSetTime(line);
      var ret := ParseCmd(line, now, h.setTimeRef, buf);
      effect := None;
    case Received(p, clock) =>
      var ret, f := h.HandleMeasurePkt(p, clock, work);
      effect := Some(f);
  }

  /** What is printed for the acknowledgements of a run. */
  function Delays(ref: (int, int), events: seq<Event>): (r: seq<MH.Effect>)
    requires AllValid(events)
    decreases events
  {
    if events == [] then []
    else
      (if IsTimeAck(events[0]) then [MH.AckEffect(SET_TIME, Instant(events[0].clock) - Instant(ref))] else [])
      + Delays(After(ref, events[0]), events[1..])
  }

  /** Any run of command lines and packets. */
  method PlayAll(h: MH.Handler, buf: CommandBuffer, work: array<byte>, events: seq<Event>)
    returns (printed: seq<MH.Effect>)
    requires AllValid(events) && h.Valid() && buf.Valid() && work.Length == 12 && h.setTimeRef.Normalised()
    requires buf.payload != work
    modifies h, h.setTimeRef, buf, buf.payload, work
    ensures h.setTimeRef.Pair() == AfterAll(old(h.setTimeRef.Pair()), events)
    ensures printed == Delays(old(h.setTimeRef.Pair()), events)
    decreases |events|
  {
    printed := [];
    if events != [] {
      var effect := Play(h, buf, work, events[0]);
      if IsTimeAck(events[0]) {
        printed := [effect.value];
      }
      var rest := PlayAll(h, buf, work, events[1..]);
      printed := printed + rest;
    }
  }

  // ----- What the acknowledgement prints --------------------------------------------------------

  /** No further set_time. */
  predicate NoSetTime(events: seq<Event>)
  {
    forall i :: 0 <= i < |events| ==> !IsSetTime(events[i])
  }

  predicate NoTimeAck(events: seq<Event>)
    requires AllValid(events)
  {
    forall i :: 0 <= i < |events| ==> !IsTimeAck(events[i])
  }

  lemma {:induction false} RefBetween(ref: (int, int), events: seq<Event>)
    requires AllValid(events) && NoSetTime(events)
    ensures AfterAll(ref, events) == if NoTimeAck(events) then ref else (0, 0)
    decreases events
  {
    if events != [] {
      RefBetween(After(ref, events[0]), events[1..]);
      assert NoTimeAck(events) <==> !IsTimeAck(events[0]) && NoTimeAck(events[1..]);
    }
  }

  /** Over every run: the delay printed for an acknowledgement is the time since the last set_time if and only if no
      acknowledgement came in between, or that set_time was sent at the epoch; a second acknowledgement prints the
      time since the epoch. */
  lemma DelaySinceLastSetTime(ref: (int, int), before: seq<Event>, sent: Event, between: seq<Event>, ack: Event)
    requires AllValid(before) && Valid(sent) && AllValid(between) && Valid(ack)
    requires IsSetTime(sent) && NoSetTime(between) && IsTimeAck(ack)
    ensures AllValid(before + ([sent] + between))
    ensures var now := (sent.now.sec, sent.now.usec);
            var delay := Instant(ack.clock) - Instant(AfterAll(ref, before + ([sent] + between)));
            && (delay == Instant(ack.clock) - Instant(now) <==> NoTimeAck(between) || Instant(now) == 0)
            && (!NoTimeAck(between) ==> delay == Instant(ack.clock))
  {
    AfterConcat(ref, before, [sent] + between);
    assert ([sent] + between)[1..] == between;
    RefBetween((sent.now.sec, sent.now.usec), between);
  }
}
