/** gateway_code/utils/serial_expect.py: searching a stream through a window of one line, against searching
    everything read so far. */
module Expect {
  import opened Dict
  import Bytes

  /** One read: its bytes, possibly none, and whether the deadline had passed; or a serial error. */
  datatype Event = Read(data: string, late: bool) | Failed

  /** expect() returned a match, gave up with '', raised ValueError, or is still reading. */
  datatype Outcome = Matched(text: string) | GaveUp | BadPattern | Reading

  // ----- Patterns -------------------------------------------------------------------------------

  /** A compiled pattern: what it matches at the head of a text, if anything. */
  type Pattern = string -> Option<string>

  /** A match stands at the head of the text; one that ends within a text does not depend on what follows it; and
      more text never takes a match away, though it may make it longer: the regular expressions without anchors
      and look-around. */
  ghost predicate Lawful(here: Pattern)
  {
    && (forall s :: here(s).Some? ==> here(s).value <= s)
    && (forall s, t :: here(s + t).Some? && |here(s + t).value| <= |s| ==> here(s) == here(s + t))
    && (forall s, t :: here(s).Some? ==> here(s + t).Some?)
  }

  /** No match has a newline. */
  ghost predicate SingleLine(here: Pattern)
  {
    forall s :: here(s).Some? ==> '\n' !in here(s).value
  }

  /** A match goes on after the newline at `j`, with nothing to be found up to there. */
  predicate Spans(here: Pattern, s: string, j: nat)
  {
    && j < |s| && s[j] == '\n' && here(s).Some? && j + 1 < |here(s).value|
    && Search(here, s[..j + 1]).None?
  }

  /** No match goes on after a newline unless something is found up to that newline. */
  ghost predicate NoSpan(here: Pattern)
  {
    forall s, j: nat :: !Spans(here, s, j)
  }

  /** re.search(): the leftmost match. */
  function Search(here: Pattern, s: string): (r: Option<string>)
  {
    match here(s)
    case Some(p) => Some(p)
    case None => if s == "" then None else Search(here, s[1..])
  }

  /** s.split('\n')[-1] */
  function LastLine(s: string): (r: string)
  {
    if s == "" || s[|s| - 1] == '\n' then "" else LastLine(s[..|s| - 1]) + [s[|s| - 1]]
  }

  // ----- The loop and its reference -------------------------------------------------------------

  /** Search everything read so far after every read. */
  function Whole(here: Pattern, stream: string, events: seq<Event>): (r: Outcome)
    decreases |events|
  {
    if events == [] then Reading
    else match events[0]
      case Failed => GaveUp
      case Read(data, late) =>
        if late then GaveUp
        else if data == "" then Whole(here, stream, events[1..])
        else match Search(here, stream + data)
          case Some(m) => Matched(m)
          case None => Whole(here, stream + data, events[1..])
  }

  /** Search the last line of the previous window and the new bytes. */
  function Windowed(here: Pattern, buff: string, events: seq<Event>): (r: Outcome)
    decreases |events|
  {
    if events == [] then Reading
    else match events[0]
      case Failed => GaveUp
      case Read(data, late) =>
        if late then GaveUp
        else if data == "" then Windowed(here, buff, events[1..])
        else match Search(here, LastLine(buff) + data)
          case Some(m) => Matched(m)
          case None => Windowed(here, LastLine(buff) + data, events[1..])
  }

  /** expect(): `pattern` is the text of the pattern and `here` what it was compiled to. */
  method Expect(pattern: string, here: Pattern, events: seq<Event>) returns (r: Outcome)
    ensures r == if '\n' in pattern then BadPattern else Windowed(here, "", events)
  {
    if '\n' in pattern {
      return BadPattern;
    }
    var buff, i := "", 0;
    while i < |events|
      invariant 0 <= i <= |events|
      invariant Windowed(here, "", events) == Windowed(here, buff, events[i..])
    {
      assert events[i..][1..] == events[i + 1..];
      if events[i].Failed? || events[i].late {
        return GaveUp;
      }
      var data := events[i].data;
      if data != "" {
        buff := LastLine(buff) + data;
        var m := Search(here, buff);
        if m.Some? {
          return Matched(m.value);
        }
      }
      i := i + 1;
    }
    return Reading;
  }

  // ----- The window is enough -------------------------------------------------------------------

  lemma {:induction false} LastLineIs(s: string) returns (head: string)
    ensures s == head + LastLine(s) && '\n' !in LastLine(s)
    ensures head == "" || head[|head| - 1] == '\n'
  {
    if s == "" || s[|s| - 1] == '\n' {
      head := s;
    } else {
      head := LastLineIs(s[..|s| - 1]);
      assert s == s[..|s| - 1] + [s[|s| - 1]];
    }
  }

  lemma {:induction false} SearchGrows(here: Pattern, s: string, more: string)
    requires Lawful(here) && Search(here, s).Some?
    ensures Search(here, s + more).Some?
    decreases |s|
  {
    if here(s).None? {
      assert (s + more)[1..] == s[1..] + more;
      SearchGrows(here, s[1..], more);
    }
  }

  /** A match that starts in whole lines already searched would have been found there. */
  lemma NothingInHead(here: Pattern, head: string, line: string, data: string)
    requires Lawful(here) && NoSpan(here) && head != "" && head[|head| - 1] == '\n'
    requires Search(here, head + line).None?
    ensures here(head + line + data).None?
  {
    var s := head + line + data;
    assert here(head + line).None?;
    if here(s).Some? {
      assert |here(s).value| > |head + line|;
      assert s[|head| - 1] == '\n' && s[..|head|] == head;
      assert !Spans(here, s, |head| - 1);
      SearchGrows(here, head, line);
    }
  }

  lemma {:induction false} WindowIsEnough(here: Pattern, head: string, line: string, data: string)
    requires Lawful(here) && NoSpan(here) && (head == "" || head[|head| - 1] == '\n')
    requires head == "" || Search(here, head + line).None?
    ensures Search(here, head + line + data) == Search(here, line + data)
    decreases |head|
  {
    var s := head + line + data;
    if head == "" {
      assert s == line + data;
    } else {
      NothingInHead(here, head, line, data);
      assert s[1..] == head[1..] + line + data && (head + line)[1..] == head[1..] + line;
      WindowIsEnough(here, head[1..], line, data);
    }
  }

  lemma WindowStep(here: Pattern, stream: string, data: string)
    requires Lawful(here) && NoSpan(here) && (stream == "" || Search(here, stream).None?)
    ensures Search(here, stream + data) == Search(here, LastLine(stream) + data)
  {
    var head := LastLineIs(stream);
    WindowIsEnough(here, head, LastLine(stream), data);
  }

  lemma LastLineSnoc(s: string, x: char)
    ensures LastLine(s + [x]) == if x == '\n' then "" else LastLine(s) + [x]
  {
    assert (s + [x])[..|s|] == s;
  }

  lemma {:induction false} LastLineAppend(u: string, v: string, b: string)
    requires LastLine(u) == LastLine(v)
    ensures LastLine(u + b) == LastLine(v + b)
    decreases |b|
  {
    if b == "" {
      assert u + b == u && v + b == v;
    } else {
      var c, x := b[..|b| - 1], b[|b| - 1];
      LastLineAppend(u, v, c);
      LastLineSnoc(u + c, x);
      LastLineSnoc(v + c, x);
      assert b == c + [x];
      Bytes.Associates(u, c, [x]);
      Bytes.Associates(v, c, [x]);
    }
  }

  lemma {:induction false} LastLineAlone(w: string)
    requires '\n' !in w
    ensures LastLine(w) == w
  {
    if w != "" {
      assert w[|w| - 1] in w && w[..|w| - 1] + [w[|w| - 1]] == w;
      LastLineAlone(w[..|w| - 1]);
    }
  }

  /** The window after a read ends in the same line as the stream. */
  lemma WindowKeepsLine(buff: string, stream: string, data: string)
    requires LastLine(buff) == LastLine(stream)
    ensures LastLine(LastLine(buff) + data) == LastLine(stream + data)
  {
    var head := LastLineIs(buff);
    LastLineAlone(LastLine(buff));
    LastLineAppend(LastLine(buff), stream, data);
  }

  lemma {:induction false} WindowedIsWhole(here: Pattern, buff: string, stream: string, events: seq<Event>)
    requires Lawful(here) && NoSpan(here) && LastLine(buff) == LastLine(stream)
    requires stream == "" || Search(here, stream).None?
    ensures Windowed(here, buff, events) == Whole(here, stream, events)
    decreases |events|
  {
    if events != [] && events[0].Read? && !events[0].late {
      var data := events[0].data;
      if data == "" {
        WindowedIsWhole(here, buff, stream, events[1..]);
      } else {
        WindowStep(here, stream, data);
        if Search(here, stream + data).None? {
          WindowKeepsLine(buff, stream, data);
          WindowedIsWhole(here, LastLine(buff) + data, stream + data, events[1..]);
        }
      }
    }
  }

  // ----- And only then --------------------------------------------------------------------------

  /** The match alone, cut after its newline. */
  function CutAfter(v: string, j: nat): (events: seq<Event>)
    requires j < |v|
  {
    [Read(v[..j + 1], false), Read(v[j + 1..], false)]
  }

  lemma MatchAlone(here: Pattern, s: string)
    requires Lawful(here) && here(s).Some?
    ensures here(here(s).value) == here(s)
  {
    var v := here(s).value;
    assert s == v + s[|v|..];
  }

  lemma {:induction false} MatchIsShort(here: Pattern, s: string)
    requires Lawful(here) && Search(here, s).Some?
    ensures |Search(here, s).value| <= |s|
    decreases |s|
  {
    if here(s).None? { MatchIsShort(here, s[1..]); }
  }

  function Found(o: Option<string>): (r: Outcome)
  {
    match o case Some(m) => Matched(m) case None => Reading
  }

  lemma LastRead(here: Pattern, stream: string, b: string)
    requires b != ""
    ensures Whole(here, stream, [Read(b, false)]) == Found(Search(here, stream + b))
    ensures Windowed(here, stream, [Read(b, false)]) == Found(Search(here, LastLine(stream) + b))
  {
    assert [Read(b, false)][1..] == [];
  }

  lemma FirstRead(here: Pattern, a: string, rest: seq<Event>)
    requires a != "" && Search(here, a).None?
    ensures Whole(here, "", [Read(a, false)] + rest) == Whole(here, a, rest)
    ensures Windowed(here, "", [Read(a, false)] + rest) == Windowed(here, a, rest)
  {
    assert ([Read(a, false)] + rest)[1..] == rest && "" + a == a && LastLine("") == "";
  }

  lemma TwoReads(here: Pattern, a: string, b: string, events: seq<Event>)
    requires events == [Read(a, false), Read(b, false)] && a != "" && b != ""
    requires a[|a| - 1] == '\n' && Search(here, a).None?
    ensures Whole(here, "", events) == Found(Search(here, a + b))
    ensures Windowed(here, "", events) == Found(Search(here, b))
  {
    assert events == [Read(a, false)] + [Read(b, false)] && "" + b == b;
    FirstRead(here, a, [Read(b, false)]);
    LastRead(here, a, b);
  }

  lemma SpanIsMissed(here: Pattern, s: string, j: nat)
    requires Lawful(here) && Spans(here, s, j)
    ensures var events := CutAfter(here(s).value, j);
            Whole(here, "", events) == Matched(here(s).value) && Windowed(here, "", events) != Whole(here, "", events)
  {
    var v := here(s).value;
    var a, b := v[..j + 1], v[j + 1..];
    MatchAlone(here, s);
    assert a == s[..j + 1] && a + b == v;
    TwoReads(here, a, b, CutAfter(v, j));
    if Search(here, b).Some? { MatchIsShort(here, b); }
  }

  /** Keeping only the last line of what was searched, expect() returns at the same read and with the same match as a
      search of everything read so far, whatever is read, if and only if no match of the pattern goes on after a
      newline up to which nothing is found. */
  lemma WindowIsExact(here: Pattern)
    requires Lawful(here)
    ensures (forall events :: Windowed(here, "", events) == Whole(here, "", events)) <==> NoSpan(here)
  {
    if NoSpan(here) {
      forall events
        ensures Windowed(here, "", events) == Whole(here, "", events)
      {
        WindowedIsWhole(here, "", "", events);
      }
    } else {
      var s, j: nat :| Spans(here, s, j);
      SpanIsMissed(here, s, j);
    }
  }

  /** In particular if no match has a newline. */
  lemma SingleLineNoSpan(here: Pattern)
    requires Lawful(here) && SingleLine(here)
    ensures NoSpan(here)
  {
    forall s, j: nat | here(s).Some? && j < |here(s).value|
      ensures s[j] != '\n'
    {
      assert s[j] == here(s).value[j];
    }
  }

  /** A blank and a letter, as in the regular expression `\sb` on these texts. */
  function BlankThenB(s: string): (r: Option<string>)
  {
    if |s| >= 2 && (s[0] == ' ' || s[0] == '\n') && s[1] == 'b' then Some(s[..2]) else None
  }

  /** A pattern without newline in its text may still have such a match. */
  lemma NewlineIsMissed()
    ensures Lawful(BlankThenB) && Spans(BlankThenB, "\nb", 0) && !NoSpan(BlankThenB)
  {
    forall s, t | BlankThenB(s + t).Some? && |BlankThenB(s + t).value| <= |s|
      ensures BlankThenB(s) == BlankThenB(s + t)
    {
      assert (s + t)[0] == s[0] && (s + t)[1] == s[1] && (s + t)[..2] == s[..2];
    }
    assert "\nb"[..1] == "\n" && "\n"[1..] == "";
    assert Search(BlankThenB, "\n").None?;
    assert Spans(BlankThenB, "\nb", 0);
  }

  // ----- Alternatives ---------------------------------------------------------------------------

  /** A pattern of expect_list(): its text and what it compiles to. */
  datatype Source = Source(text: string, here: Pattern)

  /** Without any alternative the pattern is the empty group. */
  function Alternatives(patterns: seq<Source>): (r: seq<Source>)
    ensures |r| > 0
  {
    if patterns == [] then [Source("", s => Some(""))] else patterns
  }

  /** The first alternative that matches at the head of the text. */
  function FirstOf(pats: seq<Source>, s: string): (r: Option<string>)
  {
    if pats == [] then None
    else match pats[0].here(s)
      case Some(m) => Some(m)
      case None => FirstOf(pats[1..], s)
  }

  function AnyOf(pats: seq<Source>): (here: Pattern)
  {
    s => FirstOf(pats, s)
  }

  ghost predicate AllLawful(pats: seq<Source>)
  {
    forall i :: 0 <= i < |pats| ==> Lawful(pats[i].here)
  }

  ghost predicate AllNoSpan(pats: seq<Source>)
  {
    forall i :: 0 <= i < |pats| ==> NoSpan(pats[i].here)
  }

  lemma {:induction false} FirstOfLaws(pats: seq<Source>, s: string, t: string)
    requires AllLawful(pats)
    ensures FirstOf(pats, s).Some? ==> FirstOf(pats, s).value <= s && FirstOf(pats, s + t).Some?
    ensures FirstOf(pats, s + t).Some? && |FirstOf(pats, s + t).value| <= |s| ==>
              FirstOf(pats, s) == FirstOf(pats, s + t)
  {
    if pats != [] {
      assert Lawful(pats[0].here);
      FirstOfLaws(pats[1..], s, t);
    }
  }

  lemma AnyOfIsLawful(pats: seq<Source>)
    requires AllLawful(pats)
    ensures Lawful(AnyOf(pats))
  {
    forall s, t
      ensures FirstOf(pats, s).Some? ==> FirstOf(pats, s).value <= s && FirstOf(pats, s + t).Some?
      ensures FirstOf(pats, s + t).Some? && |FirstOf(pats, s + t).value| <= |s| ==>
                FirstOf(pats, s) == FirstOf(pats, s + t)
    {
      FirstOfLaws(pats, s, t);
    }
    forall s | FirstOf(pats, s).Some?
      ensures FirstOf(pats, s).value <= s
    {
      FirstOfLaws(pats, s, "");
    }
  }

  lemma {:induction false} FirstOfIs(pats: seq<Source>, s: string) returns (i: nat)
    requires FirstOf(pats, s).Some?
    ensures i < |pats| && pats[i].here(s) == FirstOf(pats, s)
  {
    if pats[0].here(s).Some? {
      i := 0;
    } else {
      var k := FirstOfIs(pats[1..], s);
      i := k + 1;
    }
  }

  lemma {:induction false} FirstOfFinds(pats: seq<Source>, i: nat, s: string)
    requires i < |pats| && pats[i].here(s).Some?
    ensures FirstOf(pats, s).Some?
  {
    if i > 0 { FirstOfFinds(pats[1..], i - 1, s); }
  }

  lemma {:induction false} SearchAnyOf(pats: seq<Source>, i: nat, s: string)
    requires i < |pats| && Search(pats[i].here, s).Some?
    ensures Search(AnyOf(pats), s).Some?
    decreases |s|
  {
    if pats[i].here(s).Some? {
      FirstOfFinds(pats, i, s);
    } else if AnyOf(pats)(s).None? {
      SearchAnyOf(pats, i, s[1..]);
    }
  }

  lemma AnyOfNoSpan(pats: seq<Source>)
    requires AllNoSpan(pats)
    ensures NoSpan(AnyOf(pats))
  {
    forall s, j: nat
      ensures !Spans(AnyOf(pats), s, j)
    {
      if Spans(AnyOf(pats), s, j) {
        var i := FirstOfIs(pats, s);
        assert NoSpan(pats[i].here) && !Spans(pats[i].here, s, j);
        SearchAnyOf(pats, i, s[..j + 1]);
      }
    }
  }

  /** '(' + ')|('.join(patterns) + ')' */
  function Grouped(pats: seq<Source>): (s: string)
    requires pats != []
  {
    if |pats| == 1 then "(" + pats[0].text + ")" else "(" + pats[0].text + ")|" + Grouped(pats[1..])
  }

  lemma {:induction false} GroupedNewline(pats: seq<Source>)
    requires pats != []
    ensures '\n' in Grouped(pats) <==> exists i :: 0 <= i < |pats| && '\n' in pats[i].text
  {
    if |pats| > 1 {
      GroupedNewline(pats[1..]);
      assert forall i :: 0 < i < |pats| ==> pats[i] == pats[1..][i - 1];
      assert forall i :: 0 <= i < |pats| - 1 ==> pats[1..][i] == pats[i + 1];
    }
  }

  lemma EmptyIsHarmless(here: Pattern)
    requires forall s :: here(s) == Some("")
    ensures Lawful(here) && NoSpan(here)
  {
  }

  /** expect_list(): a ValueError iff one of the texts has a newline; otherwise, if no match of an alternative goes on
      after a newline up to which that alternative finds nothing, the outcome of searching everything read so far. */
  method ExpectList(patterns: seq<Source>, events: seq<Event>) returns (r: Outcome)
    ensures r == BadPattern <==> exists i :: 0 <= i < |patterns| && '\n' in patterns[i].text
    ensures r != BadPattern ==> r == Windowed(AnyOf(Alternatives(patterns)), "", events)
    ensures r != BadPattern && AllLawful(patterns) && AllNoSpan(patterns) ==>
              r == Whole(AnyOf(Alternatives(patterns)), "", events)
  {
    var pats := Alternatives(patterns);
    GroupedNewline(pats);
    r := Expect(Grouped(pats), AnyOf(pats), events);
    WindowedIsNotBad(AnyOf(pats), "", events);
    if r != BadPattern && AllLawful(patterns) && AllNoSpan(patterns) {
      if patterns == [] { EmptyIsHarmless(pats[0].here); }
      AnyOfIsLawful(pats);
      AnyOfNoSpan(pats);
      WindowedIsWhole(AnyOf(pats), "", "", events);
    }
  }

  lemma {:induction false} WindowedIsNotBad(here: Pattern, buff: string, events: seq<Event>)
    ensures Windowed(here, buff, events) != BadPattern
    decreases |events|
  {
    if events != [] && events[0].Read? {
      WindowedIsNotBad(here, buff, events[1..]);
      WindowedIsNotBad(here, LastLine(buff) + events[0].data, events[1..]);
    }
  }

  // ----- Literal text ---------------------------------------------------------------------------

  function Literal(p: string): (here: Pattern)
  {
    s => if p <= s then Some(p) else None
  }

  lemma LiteralIsLawful(p: string)
    ensures Lawful(Literal(p)) && ('\n' !in p ==> SingleLine(Literal(p)))
  {
    forall s, t | p <= s + t && |p| <= |s|
      ensures p <= s
    {
      assert p == (s + t)[..|p|] == s[..|p|];
    }
  }

  // ----- What the reference finds ---------------------------------------------------------------

  predicate Occurs(p: string, s: string)
  {
    exists i :: 0 <= i <= |s| && p <= s[i..]
  }

  lemma {:induction false} SearchFinds(p: string, s: string)
    ensures Search(Literal(p), s) == if Occurs(p, s) then Some(p) else None
    decreases |s|
  {
    assert s[0..] == s;
    if !(p <= s) {
      if s != "" {
        SearchFinds(p, s[1..]);
        assert forall i :: 0 < i <= |s| ==> s[i..] == s[1..][i - 1..];
        if Occurs(p, s[1..]) {
          var j :| 0 <= j <= |s[1..]| && p <= s[1..][j..];
          assert s[j + 1..] == s[1..][j..];
        }
      }
    }
  }

  function Data(events: seq<Event>): (s: string)
    requires OnTime(events)
  {
    if events == [] then "" else events[0].data + Data(events[1..])
  }

  predicate OnTime(events: seq<Event>)
  {
    forall i :: 0 <= i < |events| ==> events[i].Read? && !events[i].late
  }

  lemma OccursLater(p: string, s: string, more: string)
    requires Occurs(p, s)
    ensures Occurs(p, s + more)
  {
    var i :| 0 <= i <= |s| && p <= s[i..];
    assert (s + more)[i..] == s[i..] + more;
  }

  lemma {:induction false} WholeFinds(p: string, stream: string, events: seq<Event>)
    requires p != "" && OnTime(events) && !Occurs(p, stream)
    ensures Whole(Literal(p), stream, events) == if Occurs(p, stream + Data(events)) then Matched(p) else Reading
    decreases |events|
  {
    if events == [] {
      assert stream + Data(events) == stream;
    } else {
      var data := events[0].data;
      assert stream + Data(events) == (stream + data) + Data(events[1..]);
      SearchFinds(p, stream + data);
      assert data == "" ==> stream + data == stream;
      if Occurs(p, stream + data) {
        OccursLater(p, stream + data, Data(events[1..]));
      } else {
        WholeFinds(p, stream + data, events[1..]);
      }
    }
  }

  /** For one literal and reads that are in time, how the stream was cut does not matter: expect() returns it if and
      only if it occurs in everything read. */
  lemma FoundIffOccurs(p: string, events: seq<Event>)
    requires p != "" && '\n' !in p && OnTime(events)
    ensures Windowed(Literal(p), "", events) == if Occurs(p, Data(events)) then Matched(p) else Reading
  {
    LiteralIsLawful(p);
    SingleLineNoSpan(Literal(p));
    WindowedIsWhole(Literal(p), "", "", events);
    WholeFinds(p, "", events);
    assert "" + Data(events) == Data(events);
  }
}
