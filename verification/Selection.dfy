/** Printed commands select the intended entry of the command table. */
module Selection {
  import opened Bytes
  import opened Dict
  import opened Text
  import opened Scanf
  import opened CommandTable
  import opened CommandReader

  /** The entry's literal and the command name differ at position `i`. */
  predicate DifferAt(d: Description, w: string, i: nat)
  {
    d.fmt != [] && d.fmt[0].Lit? && i < |d.fmt[0].text| && i < |w| && d.fmt[0].text[i] != w[i]
  }

  lemma NoMatch(args: seq<Arg>, d: Description, i: nat)
    requires args != [] && DifferAt(d, Show(args[0]), i)
    ensures !Matches(Line(args), d)
  {
    LineUnfolds(args);
    assert Line(args)[i] == Show(args[0])[i];
    assert Count([]) == 0;
  }

  /** No entry before `k` matches, each for a character of the command name. */
  lemma NothingBefore(table: seq<Description>, args: seq<Arg>, at: seq<nat>)
    requires args != [] && |at| <= |table| && Formats(table)
    requires forall j :: 0 <= j < |at| ==> DifferAt(table[j], Show(args[0]), at[j])
    ensures forall j :: 0 <= j < |at| ==> !Matches(Line(args), table[j])
  {
    forall j | 0 <= j < |at|
      ensures !Matches(Line(args), table[j])
    {
      NoMatch(args, table[j], at[j]);
    }
  }

  lemma {:induction false} FirstToken(args: seq<Arg>)
    requires args != [] && ' ' !in Show(args[0]) && |Show(args[0])| <= 32
    ensures CStrTok(Line(args)) == Some(Show(args[0]))
  {
    LineUnfolds(args);
    var w := Show(args[0]);
    if |args| == 1 {
      assert Line(args) == w;
      SplitWord(w, ' ');
    } else {
      assert Line(args) == w + [' '] + Line(args[1..]);
      SplitAt(w, ' ', Line(args[1..]));
    }
  }

  /** The command name `w` has the byte `val` in the dictionary of command names. */
  predicate Named(names: seq<Entry>, w: string, val: byte)
  {
    ' ' !in w && |w| <= 32 && ValOf(names, w) == Some(val)
  }

  /** The line of `args` is handled by entry `k`, whose handler `h` receives the conversions `r`. */
  predicate Ready(t: seq<Description>, args: seq<Arg>, k: nat, h: Handler, r: seq<Conv>)
  {
    && args != []
    && Formats(t) && k < |t| && t[k].handler == h
    && r == Scan(Line(args), t[k].fmt)
    && Matches(Line(args), t[k])
    && forall j :: 0 <= j < k ==> !Matches(Line(args), t[j])
  }

  lemma CompileReady(t: seq<Description>, names: seq<Entry>, args: seq<Arg>, k: nat, val: byte, h: Handler,
                     r: seq<Conv>, e: Encoded, now: Now)
    requires Ready(t, args, k, h, r) && Named(names, Show(args[0]), val) && e == EncodeArgs(h, r, now)
    ensures CompileWith(t, names, Line(args), now) == Encoded(e.ok, [val] + e.bytes)
  {
    SelectFirst(Line(args), t, k);
    FirstToken(args);
  }

  /** The arguments fit the fields of a format and convert to `r`. */
  predicate AllFit(fmt: seq<Field>, args: seq<Arg>, r: seq<Conv>)
  {
    |args| == |fmt| == |r| && forall i :: 0 <= i < |args| ==> Fits(fmt[i], args[i]) && r[i] == Conv1(fmt[i], args[i])
  }

  /** Printed arguments that fit the fields of an entry are its conversions. */
  lemma FitsReady(t: seq<Description>, args: seq<Arg>, k: nat, r: seq<Conv>, fmt: seq<Field>)
    requires args != [] && Formats(t) && k < |t| && fmt == t[k].fmt
    requires AllFit(fmt, args, r)
    requires !fmt[|fmt| - 1].Lit? && 0 < t[k].count <= 32 && FieldCount(fmt) == t[k].count
    requires forall j :: 0 <= j < k ==> !Matches(Line(args), t[j])
    ensures Ready(t, args, k, t[k].handler, r)
  {
    ScanPrinted(fmt, args);
    assert r == Scan(Line(args), fmt);
    AllConverted(r, fmt);
  }

  function Cut(w: string, width: nat): (r: string)
  {
    if |w| <= width then w else w[..width]
  }

  /** An entry "name %<width>s": a word that is too long for its field is cut. */
  lemma WordReady(t: seq<Description>, args: seq<Arg>, k: nat, width: nat)
    requires |args| == 2 && args[0].W? && args[1].W? && IsWord(args[0].word) && IsWord(args[1].word) && width > 0
    requires Formats(t) && k < |t| && t[k].fmt == [Lit(args[0].word), Str(width)] && t[k].count == 1
    requires forall j :: 0 <= j < k ==> !Matches(Line(args), t[j])
    ensures Ready(t, args, k, t[k].handler, [L, S(Cut(args[1].word, width))])
  {
    var fmt, r := t[k].fmt, [L, S(Cut(args[1].word, width))];
    assert fmt[1..] == [Str(width)] && FieldCount(fmt) == FieldCount(fmt[1..]) == 1;
    if |args[1].word| <= width {
      FitsReady(t, args, k, r, fmt);
    } else {
      assert args == [args[0], args[1]];
      ScanCut(args[0].word, args[1].word, width, args);
      AllConverted(r, fmt);
    }
  }

  /** An entry "name %<width>s %i". */
  lemma WordIntReady(t: seq<Description>, args: seq<Arg>, k: nat, width: nat)
    requires |args| == 3 && args[0].W? && args[1].W? && args[2].N?
    requires IsWord(args[0].word) && IsWord(args[1].word) && |args[1].word| <= width
    requires Formats(t) && k < |t| && t[k].fmt == [Lit(args[0].word), Str(width), Int] && t[k].count == 2
    requires forall j :: 0 <= j < k ==> !Matches(Line(args), t[j])
    ensures Ready(t, args, k, t[k].handler, [L, S(args[1].word), I(ToInt32(args[2].num))])
  {
    var fmt := t[k].fmt;
    assert fmt[1..] == [Str(width), Int] && fmt[1..][1..] == [Int];
    assert FieldCount(fmt) == FieldCount(fmt[1..]) == 1 + FieldCount(fmt[1..][1..]);
    FitsReady(t, args, k, [L, S(args[1].word), I(ToInt32(args[2].num))], fmt);
  }

  /** An entry "name %<width>s %i %i". */
  lemma WordIntIntReady(t: seq<Description>, args: seq<Arg>, k: nat, width: nat)
    requires |args| == 4 && args[0].W? && args[1].W? && args[2].N? && args[3].N?
    requires IsWord(args[0].word) && IsWord(args[1].word) && |args[1].word| <= width
    requires Formats(t) && k < |t| && t[k].fmt == [Lit(args[0].word), Str(width), Int, Int] && t[k].count == 3
    requires forall j :: 0 <= j < k ==> !Matches(Line(args), t[j])
    ensures Ready(t, args, k, t[k].handler,
                  [L, S(args[1].word), I(ToInt32(args[2].num)), I(ToInt32(args[3].num))])
  {
    var fmt := t[k].fmt;
    assert fmt[1..] == [Str(width), Int, Int] && fmt[1..][1..] == [Int, Int] && fmt[1..][1..][1..] == [Int];
    assert FieldCount(fmt[1..][1..]) == 1 + FieldCount([Int]) == 2;
    assert FieldCount(fmt) == FieldCount(fmt[1..]) == 1 + FieldCount(fmt[1..][1..]);
    FitsReady(t, args, k, [L, S(args[1].word), I(ToInt32(args[2].num)), I(ToInt32(args[3].num))], fmt);
  }

  /** An entry "name %<width>s %i %<width>s". */
  lemma WordIntWordReady(t: seq<Description>, args: seq<Arg>, k: nat, width: nat)
    requires |args| == 4 && args[0].W? && args[1].W? && args[2].N? && args[3].W?
    requires IsWord(args[0].word) && IsWord(args[1].word) && |args[1].word| <= width
    requires IsWord(args[3].word) && |args[3].word| <= width
    requires Formats(t) && k < |t| && t[k].fmt == [Lit(args[0].word), Str(width), Int, Str(width)] && t[k].count == 3
    requires forall j :: 0 <= j < k ==> !Matches(Line(args), t[j])
    ensures Ready(t, args, k, t[k].handler, [L, S(args[1].word), I(ToInt32(args[2].num)), S(args[3].word)])
  {
    var fmt := t[k].fmt;
    assert fmt[1..] == [Str(width), Int, Str(width)] && fmt[1..][1..] == [Int, Str(width)];
    assert fmt[1..][1..][1..] == [Str(width)];
    assert FieldCount(fmt[1..][1..]) == 1 + FieldCount([Str(width)]) == 2;
    assert FieldCount(fmt) == FieldCount(fmt[1..]) == 1 + FieldCount(fmt[1..][1..]);
    FitsReady(t, args, k, [L, S(args[1].word), I(ToInt32(args[2].num)), S(args[3].word)], fmt);
  }

  /** A line that ends in the middle of a format does not make all its conversions. */
  lemma TooShort(t: seq<Description>, args: seq<Arg>, k: nat, fmt: seq<Field>)
    requires Formats(t) && k < |t| && fmt == t[k].fmt && 0 < |args| < |fmt| && t[k].count > |args|
    requires fmt[|args|] != Lit("") && forall i :: 0 <= i < |args| ==> Fits(fmt[i], args[i])
    ensures !Matches(Line(args), t[k])
  {
    ScanPrinted(fmt, args);
    assert Count(Scan(Line(args), fmt)) <= |args|;
  }

  /** A command name alone is compared as a whole. */
  lemma BareReady(t: seq<Description>, args: seq<Arg>, k: nat) returns (r: seq<Conv>)
    requires |args| == 1 && Formats(t) && k < |t| && t[k].fmt[0] == Lit(Show(args[0])) && t[k].count == 0
    requires forall j :: 0 <= j < k ==> !Matches(Line(args), t[j])
    ensures Ready(t, args, k, t[k].handler, r)
  {
    LineUnfolds(args);
    r := Scan(Line(args), t[k].fmt);
  }
}
