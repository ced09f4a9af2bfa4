/** Strings as both programs handle them: decimal numbers, blanks, Python's split and join. */
module Text {

  /** isspace() in the C locale, and the characters that Python's strip() removes. */
  predicate IsBlank(c: char)
  {
    c == ' ' || c == '\t' || c == '\n' || c == '\r' || c == '\U{0B}' || c == '\U{0C}'
  }

  predicate NoBlank(s: string)
  {
    forall i :: 0 <= i < |s| ==> !IsBlank(s[i])
  }

  predicate IsWord(s: string)
  {
    s != "" && NoBlank(s)
  }

  // ----- Numbers --------------------------------------------------------------------------------

  function DigitChar(d: nat): (c: char)
    requires d < 10
    ensures DigitVal(c) == d && !IsBlank(c) && c != ',' && c != ' '
  {
    '0' + d as char
  }

  /** The value of a digit in bases up to 16, or 16 for any other character. */
  function DigitVal(c: char): (d: nat)
    ensures d <= 16
  {
    if '0' <= c <= '9' then (c - '0') as nat
    else if 'a' <= c <= 'f' then 10 + (c - 'a') as nat
    else if 'A' <= c <= 'F' then 10 + (c - 'A') as nat
    else 16
  }

  function Dec(n: nat): (s: string)
    ensures |s| > 0
    ensures forall i :: 0 <= i < |s| ==> DigitVal(s[i]) < 10 && !IsBlank(s[i]) && s[i] != ','
    ensures n > 0 ==> DigitVal(s[0]) > 0
  {
    if n < 10 then [DigitChar(n)] else Dec(n / 10) + [DigitChar(n % 10)]
  }

  /** Python's str() and C's "%d" on an integer. */
  function DecInt(n: int): (s: string)
    ensures IsWord(s)
  {
    if n < 0 then "-" + Dec(-n) else Dec(n)
  }

  function Value(s: string, base: nat): (v: nat)
  {
    if s == "" then 0 else Value(s[..|s| - 1], base) * base + DigitVal(s[|s| - 1])
  }

  lemma {:induction false} ValueOfDec(n: nat)
    ensures Value(Dec(n), 10) == n
  {
    if n < 10 {
      assert Dec(n)[..0] == "";
    } else {
      ValueOfDec(n / 10);
      assert Dec(n)[..|Dec(n)| - 1] == Dec(n / 10);
    }
  }

  /** A decimal string without leading zeros is what is printed for the number it denotes. */
  lemma {:induction false} DecOfValue(s: string)
    requires s != "" && s[0] != '0' && forall i :: 0 <= i < |s| ==> '0' <= s[i] <= '9'
    ensures Value(s, 10) > 0 && Dec(Value(s, 10)) == s
  {
    var init, last := s[..|s| - 1], s[|s| - 1];
    assert DigitChar(DigitVal(last)) == last;
    if init == "" {
      assert Value(init, 10) == 0 && s == [last];
    } else {
      DecOfValue(init);
      var v := Value(s, 10);
      assert v / 10 == Value(init, 10) && v % 10 == DigitVal(last) && v >= 10;
      assert Dec(v) == Dec(v / 10) + [DigitChar(v % 10)];
      assert s == init + [last];
    }
  }

  /** Length of the longest prefix of digits of the given base. */
  function DigitRun(s: string, base: nat): (n: nat)
    ensures n <= |s|
  {
    if s == "" || DigitVal(s[0]) >= base then 0 else 1 + DigitRun(s[1..], base)
  }

  lemma {:induction false} DigitRunIs(d: string, rest: string, base: nat)
    requires forall i :: 0 <= i < |d| ==> DigitVal(d[i]) < base
    requires rest == "" || DigitVal(rest[0]) >= base
    ensures DigitRun(d + rest, base) == |d|
  {
    if d == "" {
      assert d + rest == rest;
    } else {
      assert (d + rest)[1..] == d[1..] + rest;
      DigitRunIs(d[1..], rest, base);
    }
  }

  // ----- Splitting and joining ------------------------------------------------------------------

  /** s.split(sep) for a one-character separator: never empty, keeps empty pieces. */
  function Split(s: string, sep: char): (r: seq<string>)
    ensures |r| > 0
  {
    if s == "" then [""]
    else
      var r := Split(s[1..], sep);
      if s[0] == sep then [""] + r else [[s[0]] + r[0]] + r[1..]
  }

  /** sep.join(words) */
  function Join(words: seq<string>, sep: char): (s: string)
  {
    if words == [] then ""
    else if |words| == 1 then words[0]
    else words[0] + [sep] + Join(words[1..], sep)
  }

  lemma {:induction false} SplitWord(w: string, sep: char)
    requires sep !in w
    ensures Split(w, sep) == [w]
  {
    if w != "" {
      assert w[0] in w && [w[0]] + w[1..] == w;
      SplitWord(w[1..], sep);
    }
  }

  lemma {:induction false} SplitAt(w: string, sep: char, rest: string)
    requires sep !in w
    ensures Split(w + [sep] + rest, sep) == [w] + Split(rest, sep)
  {
    var s := w + [sep] + rest;
    if w == "" {
      assert s[0] == sep && s[1..] == rest;
    } else {
      assert w[0] in w && [w[0]] + w[1..] == w;
      assert s[1..] == w[1..] + [sep] + rest;
      SplitAt(w[1..], sep, rest);
      assert Split(s[1..], sep)[1..] == Split(rest, sep);
    }
  }

  lemma {:induction false} SplitJoin(words: seq<string>, sep: char)
    requires words != [] && forall w :: w in words ==> sep !in w
    ensures Split(Join(words, sep), sep) == words
  {
    assert sep !in words[0];
    if |words| == 1 {
      SplitWord(words[0], sep);
    } else {
      SplitAt(words[0], sep, Join(words[1..], sep));
      SplitJoin(words[1..], sep);
    }
  }

  function SkipBlanks(s: string): (r: string)
    ensures r != "" ==> !IsBlank(r[0])
    ensures |r| <= |s|
    ensures s != "" && !IsBlank(s[0]) ==> r == s
  {
    if s != "" && IsBlank(s[0]) then SkipBlanks(s[1..]) else s
  }

  function DropTrailing(s: string): (r: string)
    ensures r <= s
    ensures s != "" && !IsBlank(s[0]) ==> r != "" && r[0] == s[0]
  {
    if s != "" && IsBlank(s[|s| - 1]) then DropTrailing(s[..|s| - 1]) else s
  }

  /** s.strip() */
  function Strip(s: string): (r: string)
  {
    DropTrailing(SkipBlanks(s))
  }

  /** Whatever follows the first word of a line, its first word is what split(' ') puts in front. */
  lemma {:induction false} FirstWordSurvives(w: string, rest: string)
    requires IsWord(w) && (rest == "" || rest[0] == ' ')
    ensures Split(Strip(w + rest), ' ')[0] == w
    ensures |rest| > 1 && !IsBlank(rest[|rest| - 1]) ==> Strip(w + rest) == w + rest
    decreases |rest|
  {
    var s := w + rest;
    assert !IsBlank(s[0]);
    assert ' ' !in w;
    if rest == "" {
      assert s == w;
      SplitWord(w, ' ');
    } else if IsBlank(s[|s| - 1]) {
      assert s[..|s| - 1] == w + rest[..|rest| - 1];
      assert Strip(s) == Strip(w + rest[..|rest| - 1]);
      FirstWordSurvives(w, rest[..|rest| - 1]);
    } else {
      assert s == w + [' '] + rest[1..];
      SplitAt(w, ' ', rest[1..]);
    }
  }
}
