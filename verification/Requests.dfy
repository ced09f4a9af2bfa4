/** Main results on the command path: for every request of the Protocol class, which are accepted by the C
    program, and when the frame means to the device what the Python object says; then whole sessions. */
module Requests {
  import opened Bytes
  import opened Framing
  import opened Dict
  import opened Text
  import opened Scanf
  import opened Channels
  import opened CommandTable
  import opened CommandReader
  import opened CommandEncoder
  import opened ProfileMeaning
  import P = Protocol
  import D = Device

  /** The requests of the Protocol class, whose profiles passed their constructors' checks. */
  predicate Valid(req: P.Request)
  {
    match req
    case Power(_, alim) => IsWord(alim)
    case NodeNumber(archi, _) => archi == "m3" || archi == "a8"
    case Monitor(Some(c)) => P.ValidConsumption(c)
    case RadioConfig(Some(r)) => P.ValidRadio(r)
    case _ => true
  }

  /** A channel list such as [11, 11], which is longer than one but has one channel. */
  predicate OnlyRepeats(channels: seq<int>)
  {
    |channels| > 1 && forall i :: 0 <= i < |channels| ==> channels[i] == channels[0]
  }

  /** The requests that the C program turns into a frame. */
  predicate Supported(req: P.Request)
  {
    match req
    case Power(_, alim) => alim == "dc" || alim == "battery"
    case RadioConfig(Some(Sniffer(channels, _))) => !OnlyRepeats(channels)
    case _ => true
  }

  /** The requests whose numbers fit the fields of the frame. */
  predicate Representable(req: P.Request, now: Now)
  {
    match req
    case Time => now.sec < 0x1_0000_0000
    case NodeNumber(_, num) => num < 4096
    case Monitor(Some(c)) => FlagsKept(c)
    case _ => true
  }

  lemma SeveralDistinct(channels: seq<int>, s: set<int>)
    requires channels != [] && s == P.ToSet(channels)
    ensures |s| > 1 <==> exists i :: 0 <= i < |channels| && channels[i] != channels[0]
  {
    assert channels[0] in s;
    if i :| 0 <= i < |channels| && channels[i] != channels[0] {
      TwoElements(s, channels[0], channels[i]);
    } else {
      assert forall x :: x in s ==> x in [channels[0]];
      AtMostOne(s, [channels[0]]);
    }
  }

  lemma SmallIsExact(n: int)
    requires 0 <= n < 65536
    ensures ToUint32(n) == ToUint32(n) % 65536 == n
  {
  }

  lemma RssiRange(radio: P.Radio)
    requires radio.Rssi? && P.ValidRadio(radio)
    ensures ToUint32(radio.period) % 65536 != 0 && ToUint32(radio.num) <= 255
    ensures 1 <= radio.period < 65536 && 0 <= radio.num < 256
  {
    SmallIsExact(radio.period);
    SmallIsExact(radio.num);
  }

  lemma SnifferRange(radio: P.Radio)
    requires radio.Sniffer? && P.ValidRadio(radio)
    ensures 0 <= radio.period < 65536
    ensures (if |P.ToSet(radio.channels)| > 1 then ToUint32(radio.period) % 65536 != 0
             else ToUint32(radio.period) == 0)
       <==> !OnlyRepeats(radio.channels)
  {
    SmallIsExact(radio.period);
    SeveralDistinct(radio.channels, P.ToSet(radio.channels));
  }

  lemma ValidRssiMeaning(req: P.Request, args: seq<Arg>, now: Now)
    requires req.RadioConfig? && req.radio.Some? && req.radio.value.Rssi?
    requires P.ValidRadio(req.radio.value) && Prints(args, req)
    ensures Compile(Line(args), now).ok
    ensures D.Decode(Compile(Line(args), now).bytes) == D.Intended(req, now)
  {
    RssiRange(req.radio.value);
    RssiMeaning(req, args, now);
  }

  lemma ValidSnifferMeaning(req: P.Request, args: seq<Arg>, now: Now)
    requires req.RadioConfig? && req.radio.Some? && req.radio.value.Sniffer?
    requires P.ValidRadio(req.radio.value) && Prints(args, req)
    ensures Compile(Line(args), now).ok <==> !OnlyRepeats(req.radio.value.channels)
    ensures Compile(Line(args), now).ok ==> D.Decode(Compile(Line(args), now).bytes) == D.Intended(req, now)
  {
    SnifferRange(req.radio.value);
    SnifferMeaning(req, args, now);
  }

  /** A valid request is accepted exactly when it is supported, and the device then understands exactly
      what was asked for if and only if the request is representable. */
  lemma CommandPreservesMeaning(req: P.Request, args: seq<Arg>, now: Now)
    requires Valid(req) && Prints(args, req) && now.usec < 1_000_000
    ensures Compile(Line(args), now).ok <==> Supported(req)
    ensures Compile(Line(args), now).ok
        ==> (D.Decode(Compile(Line(args), now).bytes) == D.Intended(req, now) <==> Representable(req, now))
  {
    match req
    case Power(_, _) => PowerMeaning(req, args, now);
    case Time => TimeMeaning(req, args, now);
    case NodeNumber(_, _) => NodeMeaning(req, args, now);
    case LedOn => LedMeaning(req, args, now);
    case LedBlink => LedMeaning(req, args, now);
    case Monitor(_) => ConsumptionMeaning(req, args, now);
    case RadioConfig(None) => RadioStopMeaning(req, args, now);
    case RadioConfig(Some(r)) =>
      if r.Rssi? { ValidRssiMeaning(req, args, now); } else { ValidSnifferMeaning(req, args, now); }
  }

  // ----- Requests that do not go through --------------------------------------------------------

  lemma RepeatedChannelIsValid(radio: P.Radio)
    requires radio == P.Sniffer([11, 11], 100)
    ensures P.NewRadio("sniffer", [11, 11], Some(100), None) == Some(radio)
    ensures P.ValidRadio(radio) && OnlyRepeats(radio.channels)
  {
  }

  /** A sniffer profile with one channel given twice passes the Python checks and is refused by the C program. */
  lemma RepeatedChannelIsRefused(radio: P.Radio, req: P.Request, args: seq<Arg>, now: Now)
    requires radio == P.Sniffer([11, 11], 100) && req == P.RadioConfig(Some(radio)) && Prints(args, req)
    ensures P.NewRadio("sniffer", [11, 11], Some(100), None) == Some(radio) && !Compile(Line(args), now).ok
  {
    RepeatedChannelIsValid(radio);
    ValidSnifferMeaning(req, args, now);
  }

  /** A node number of thirteen bits is accepted and reaches the device as another one. */
  lemma WideNodeIsCut(req: P.Request, args: seq<Arg>, now: Now)
    requires req == P.NodeNumber("m3", 4096) && Prints(args, req)
    ensures Compile(Line(args), now).ok
    ensures D.Decode(Compile(Line(args), now).bytes) != D.Intended(req, now)
  {
    NodeMeaning(req, args, now);
  }

  /** So is a flag that is a multiple of 2^32. */
  lemma WideFlagIsLost(req: P.Request, c: P.Consumption, args: seq<Arg>, now: Now)
    requires Some(c) == P.NewConsumption("3.3V", "dc", Some(140), Some(1), 0x1_0000_0000, 0, 0)
    requires req == P.Monitor(Some(c)) && Prints(args, req)
    ensures Compile(Line(args), now).ok
    ensures D.Decode(Compile(Line(args), now).bytes) != D.Intended(req, now)
  {
    assert !FlagKept(c.power);
    ConsumptionMeaning(req, args, now);
  }

  // ----- Sessions -------------------------------------------------------------------------------

  datatype Sent = Sent(req: P.Request, now: Now)

  predicate AllValid(session: seq<Sent>)
  {
    forall i :: 0 <= i < |session| ==>
      Valid(session[i].req) && session[i].now.usec < 1_000_000 && Representable(session[i].req, session[i].now)
  }

  /** What send_command() writes to the standard input of the C program. */
  function CommandText(req: P.Request): (s: string)
  {
    Line(P.Args(req)) + "\n"
  }

  function Inputs(session: seq<Sent>): (r: seq<Input>)
  {
    if session == [] then [] else [Input(CommandText(session[0].req), session[0].now)] + Inputs(session[1..])
  }

  function Meanings(payloads: seq<seq<byte>>): (r: seq<D.Meaning>)
  {
    if payloads == [] then [] else [D.Decode(payloads[0])] + Meanings(payloads[1..])
  }

  /** What the supported requests of a session ask for. */
  function Wanted(session: seq<Sent>): (r: seq<D.Meaning>)
  {
    if session == [] then []
    else (if Supported(session[0].req) then [D.Intended(session[0].req, session[0].now)] else [])
         + Wanted(session[1..])
  }

  lemma OneMeaning(t: seq<Description>, names: seq<Entry>, sent: Sent, e: Encoded)
    requires AllValid([sent]) && t == COMMANDS && names == COMMANDS_D && Formats(t)
    requires e == CompileWith(t, names, Chopped(CommandText(sent.req)), sent.now)
    ensures e.ok <==> Supported(sent.req)
    ensures e.ok ==> D.Decode(e.bytes) == D.Intended(sent.req, sent.now)
  {
    assert [sent][0] == sent;
    CommandPreservesMeaning(sent.req, P.Args(sent.req), sent.now);
    assert Chopped(CommandText(sent.req)) == Line(P.Args(sent.req));
  }

  lemma {:induction false} AcceptedMeanings(t: seq<Description>, names: seq<Entry>, session: seq<Sent>)
    requires AllValid(session) && t == COMMANDS && names == COMMANDS_D && Formats(t)
    ensures Meanings(Accepted(t, names, Inputs(session))) == Wanted(session)
  {
    if session != [] {
      var e := CompileWith(t, names, Chopped(CommandText(session[0].req)), session[0].now);
      OneMeaning(t, names, session[0], e);
      assert Inputs(session)[1..] == Inputs(session[1..]);
      AcceptedMeanings(t, names, session[1..]);
      MeaningsCons(e, Accepted(t, names, Inputs(session[1..])));
    }
  }

  lemma MeaningsCons(e: Encoded, rest: seq<seq<byte>>)
    ensures Meanings((if e.ok then [e.bytes] else []) + rest)
         == (if e.ok then [D.Decode(e.bytes)] else []) + Meanings(rest)
  {
    assert ([e.bytes] + rest)[1..] == rest;
    assert [] + rest == rest;
  }

  /** Over a whole session: whatever read() boundaries the device sees, it understands exactly the supported
      requests, in order. */
  lemma SessionPreservesMeaning(session: seq<Sent>, s: Rx, chunks: seq<seq<byte>>)
    requires AllValid(session) && s.Valid() && s.phase == Idle && s.out == []
    requires Formats(COMMANDS) && Flatten(chunks) == WireOf(Accepted(COMMANDS, COMMANDS_D, Inputs(session)))
    ensures Meanings(Payloads(RunChunks(s, chunks).out)) == Wanted(session)
  {
    AcceptedMeanings(COMMANDS, COMMANDS_D, session);
    WrittenFramesDecode(COMMANDS, COMMANDS_D, Inputs(session), s, chunks);
  }
}
