/** The part of sscanf() that the command table uses: literals, "%Ns" and "%i", separated by blanks. */
module Scanf {
  import opened Text

  /** One field of a format. Fields are separated by a blank, which matches any run of blanks. */
  datatype Field = Lit(text: string) | Str(width: nat) | Int

  /** What a field matched: a literal, a string or an integer. */
  datatype Conv = L | S(str: string) | I(val: int)

  /** "%i" reads a long and stores its low 32 bits in an int. */
  function ToInt32(n: int): (r: int)
    ensures -0x8000_0000 <= r < 0x8000_0000
    ensures -0x8000_0000 <= n < 0x8000_0000 ==> r == n
  {
    var long := if n > 0x7fff_ffff_ffff_ffff then 0x7fff_ffff_ffff_ffff
                else if n < -0x8000_0000_0000_0000 then -0x8000_0000_0000_0000 else n;
    var low := long % 0x1_0000_0000;
    if low < 0x8000_0000 then low else low - 0x1_0000_0000
  }

  /** The same 32 bits read through an unsigned int. */
  function ToUint32(n: int): (r: nat)
    ensures r < 0x1_0000_0000
    ensures 0 <= n < 0x1_0000_0000 ==> r == n
  {
    ToInt32(n) % 0x1_0000_0000
  }

  datatype IntScan = NoInt | SomeInt(val: int, used: nat)

  function Digits(s: string, base: nat, sign: int, skipped: nat): (r: IntScan)
    ensures r.SomeInt? ==> skipped < r.used <= skipped + |s|
  {
    var n := DigitRun(s, base);
    if n == 0 then NoInt else SomeInt(sign * Value(s[..n], base), skipped + n)
  }

  /** "%i" after its leading blanks: a sign, then a decimal, octal (0...) or hexadecimal (0x...) number. */
  function ScanInt(s: string): (r: IntScan)
    ensures r.SomeInt? ==> 0 < r.used <= |s|
  {
    if s != "" && (s[0] == '-' || s[0] == '+')
    then ScanUnsigned(s[1..], if s[0] == '-' then -1 else 1, 1)
    else ScanUnsigned(s, 1, 0)
  }

  function ScanUnsigned(u: string, sign: int, k: nat): (r: IntScan)
    ensures r.SomeInt? ==> k < r.used <= k + |u|
  {
    if |u| >= 2 && u[0] == '0' && (u[1] == 'x' || u[1] == 'X') then Digits(u[2..], 16, sign, k + 2)
    else if u != "" && u[0] == '0' then Digits(u, 8, sign, k)
    else Digits(u, 10, sign, k)
  }

  /** Length of the longest blank-free prefix of at most `width` characters. */
  function WordLen(s: string, width: nat): (n: nat)
    ensures n <= |s| && n <= width
    ensures NoBlank(s[..n])
  {
    if s == "" || width == 0 || IsBlank(s[0]) then 0 else 1 + WordLen(s[1..], width - 1)
  }

  /** What the fields matched, up to the first field that does not match. */
  function Scan(s: string, fmt: seq<Field>): (r: seq<Conv>)
    ensures |r| <= |fmt|
    ensures forall i :: 0 <= i < |r| ==> r[i].L? == fmt[i].Lit? && r[i].S? == fmt[i].Str?
    decreases |fmt|, s
  {
    if fmt == [] then []
    else match fmt[0]
      case Lit(t) => if t <= s then [L] + Scan(SkipBlanks(s[|t|..]), fmt[1..]) else []
      case Str(w) =>
        var u := SkipBlanks(s);
        var n := WordLen(u, w);
        if n == 0 then [] else [S(u[..n])] + Scan(SkipBlanks(u[n..]), fmt[1..])
      case Int =>
        var u := SkipBlanks(s);
        var i := ScanInt(u);
        if i.NoInt? then [] else [I(ToInt32(i.val))] + Scan(SkipBlanks(u[i.used..]), fmt[1..])
  }

  /** The value sscanf returns: the number of conversions made. */
  function Count(r: seq<Conv>): (n: nat)
    ensures n <= |r|
  {
    if r == [] then 0 else (if r[0].L? then 0 else 1) + Count(r[1..])
  }

  /** The number of conversions of a format, the second column of the command table. */
  function FieldCount(fmt: seq<Field>): (n: nat)
    ensures n <= |fmt|
  {
    if fmt == [] then 0 else (if fmt[0].Lit? then 0 else 1) + FieldCount(fmt[1..])
  }

  /** All conversions of a format that ends with one are made exactly when every field matches. */
  lemma {:induction false} AllConverted(r: seq<Conv>, fmt: seq<Field>)
    requires |r| <= |fmt| && forall i :: 0 <= i < |r| ==> r[i].L? == fmt[i].Lit?
    requires fmt == [] || !fmt[|fmt| - 1].Lit?
    ensures Count(r) == FieldCount(fmt) <==> |r| == |fmt|
    ensures Count(r) <= FieldCount(fmt)
  {
    if r == [] {
      if fmt != [] { LastCounts(fmt); }
    } else {
      AllConverted(r[1..], fmt[1..]);
    }
  }

  lemma {:induction false} LastCounts(fmt: seq<Field>)
    requires fmt != [] && !fmt[|fmt| - 1].Lit?
    ensures FieldCount(fmt) > 0
  {
    if |fmt| > 1 { LastCounts(fmt[1..]); }
  }

  // ----- Scanning what was printed -------------------------------------------------------------

  /** An argument of a command, before it is turned into text. */
  datatype Arg = W(word: string) | N(num: int)

  function Show(a: Arg): (s: string)
  {
    match a
    case W(w) => w
    case N(n) => DecInt(n)
  }

  function Words(args: seq<Arg>): (r: seq<string>)
    ensures |r| == |args|
  {
    if args == [] then [] else [Show(args[0])] + Words(args[1..])
  }

  /** ' '.join(...) of the printed arguments. */
  function Line(args: seq<Arg>): (s: string)
  {
    Join(Words(args), ' ')
  }

  predicate Fits(f: Field, a: Arg)
  {
    match f
    case Lit(t) => a == W(t) && IsWord(t)
    case Str(w) => IsWord(Show(a)) && |Show(a)| <= w
    case Int => a.N?
  }

  function Conv1(f: Field, a: Arg): (r: Conv)
  {
    match f
    case Lit(_) => L
    case Str(_) => S(Show(a))
    case Int => I(ToInt32(if a.N? then a.num else 0))
  }

  lemma {:induction false} WordLenIs(w: string, rest: string, width: nat)
    requires NoBlank(w) && |w| <= width && (rest == "" || IsBlank(rest[0]))
    ensures WordLen(w + rest, width) == |w|
  {
    if w == "" {
      assert w + rest == rest;
    } else {
      assert (w + rest)[1..] == w[1..] + rest;
      WordLenIs(w[1..], rest, width - 1);
    }
  }

  lemma ScanPrintedNat(n: nat, rest: string, sign: int, k: nat)
    requires rest == "" || rest[0] == ' '
    ensures ScanUnsigned(Dec(n) + rest, sign, k) == SomeInt(sign * n, k + |Dec(n)|)
  {
    var u := Dec(n) + rest;
    ValueOfDec(n);
    assert u[..|Dec(n)|] == Dec(n);
    if n == 0 {
      assert Dec(n) == "0";
      DigitRunIs("0", rest, 8);
      assert Value("0", 8) == 0;
    } else {
      assert u[0] == Dec(n)[0] && u[0] != '0';
      DigitRunIs(Dec(n), rest, 10);
    }
  }

  lemma ScanPrintedInt(n: int, rest: string)
    requires rest == "" || rest[0] == ' '
    ensures ScanInt(DecInt(n) + rest) == SomeInt(n, |DecInt(n)|)
  {
    if n < 0 { ScanNegative(n, rest); } else { ScanPositive(n, rest); }
  }

  lemma ScanNegative(n: int, rest: string)
    requires n < 0 && (rest == "" || rest[0] == ' ')
    ensures ScanInt(DecInt(n) + rest) == SomeInt(n, |DecInt(n)|)
  {
    ScanPrintedNat(-n, rest, -1, 1);
    assert DecInt(n) + rest == "-" + (Dec(-n) + rest);
    NegativeText(Dec(-n) + rest);
  }

  lemma ScanPositive(n: nat, rest: string)
    requires rest == "" || rest[0] == ' '
    ensures ScanInt(DecInt(n) + rest) == SomeInt(n, |DecInt(n)|)
  {
    ScanPrintedNat(n, rest, 1, 0);
    PositiveText(Dec(n) + rest);
  }

  lemma NegativeText(u: string)
    ensures ScanInt("-" + u) == ScanUnsigned(u, -1, 1)
  {
    assert ("-" + u)[1..] == u;
  }

  lemma PositiveText(u: string)
    requires u != "" && DigitVal(u[0]) < 10
    ensures ScanInt(u) == ScanUnsigned(u, 1, 0)
  {
    assert u[0] != '-' && u[0] != '+';
  }

  function Tail(args: seq<Arg>): (s: string)
  {
    if args == [] then "" else " " + Line(args)
  }

  lemma LineUnfolds(args: seq<Arg>)
    requires args != []
    ensures Line(args) == Show(args[0]) + Tail(args[1..])
  {
    if |args| == 1 {
      assert Words(args[1..]) == [];
    } else {
      assert Words(args)[1..] == Words(args[1..]);
    }
  }

  lemma TailIsNextLine(args: seq<Arg>)
    requires args != [] ==> IsWord(Show(args[0]))
    ensures SkipBlanks(Tail(args)) == Line(args)
  {
    if args != [] {
      LineUnfolds(args);
      assert Line(args)[0] == Show(args[0])[0];
      assert Tail(args)[1..] == Line(args);
    }
  }

  lemma ScanOne(fmt: seq<Field>, args: seq<Arg>)
    requires args != [] && fmt != [] && Fits(fmt[0], args[0])
    requires |args| > 1 ==> IsWord(Show(args[1]))
    ensures Scan(Line(args), fmt) == [Conv1(fmt[0], args[0])] + Scan(Line(args[1..]), fmt[1..])
  {
    LineUnfolds(args);
    var w, rest := Show(args[0]), Tail(args[1..]);
    var s := w + rest;
    assert s[..|w|] == w && s[|w|..] == rest;
    assert s[0] == w[0] && !IsBlank(w[0]);
    TailIsNextLine(args[1..]);
    match fmt[0] {
      case Lit(t) =>
      case Str(width) =>
        WordLenIs(w, rest, width);
      case Int =>
        ScanPrintedInt(args[0].num, rest);
    }
  }

  /** Scanning a printed line with a format whose fields fit the arguments gives the arguments back;
      when the format goes on after the line has ended, scanning stops there. */
  lemma {:induction false} ScanPrinted(fmt: seq<Field>, args: seq<Arg>)
    requires |args| <= |fmt|
    requires forall i :: 0 <= i < |args| ==> Fits(fmt[i], args[i])
    requires |args| < |fmt| ==> fmt[|args|] != Lit("")
    ensures var r := Scan(Line(args), fmt);
            |r| == |args| && forall i :: 0 <= i < |args| ==> r[i] == Conv1(fmt[i], args[i])
    decreases |args|
  {
    if args == [] {
      if fmt != [] {
        assert ScanInt("").NoInt?;
      }
    } else {
      assert |args| > 1 ==> Fits(fmt[1], args[1]);
      ScanOne(fmt, args);
      ScanPrinted(fmt[1..], args[1..]);
    }
  }

  lemma {:induction false} WordLenCut(w: string, rest: string, width: nat)
    requires NoBlank(w) && width <= |w|
    ensures WordLen(w + rest, width) == width
  {
    if width > 0 {
      assert (w + rest)[1..] == w[1..] + rest;
      WordLenCut(w[1..], rest, width - 1);
    }
  }

  /** A last word that is longer than the field is cut. */
  lemma ScanCut(t: string, w: string, width: nat, args: seq<Arg>)
    requires args == [W(t), W(w)] && IsWord(t) && IsWord(w) && 0 < width <= |w|
    ensures Scan(Line(args), [Lit(t), Str(width)]) == [L, S(w[..width])]
  {
    var fmt := [Lit(t), Str(width)];
    ScanOne(fmt, args);
    assert args[1..] == [W(w)] && fmt[1..] == [Str(width)];
    LineUnfolds(args[1..]);
    assert Line(args[1..]) == w + "";
    WordLenCut(w, "", width);
    assert (w + "")[..width] == w[..width] && fmt[1..][1..] == [];
  }
}
