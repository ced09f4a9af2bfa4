/** Radio channels: a comma-separated list in the text protocol, a 32-bit mask on the wire. */
module Channels {
  import opened Bits
  import opened Bytes
  import opened Text
  import opened Scanf

  const FIRST_CHANNEL := 11
  const LAST_CHANNEL := 26

  predicate IsChannel(c: int)
  {
    FIRST_CHANNEL <= c <= LAST_CHANNEL
  }

  // ----- The C side: parse_channels_list --------------------------------------------------------

  /** atoi(): blanks, a sign, then decimal digits; 0 when there are none. */
  function Atoi(s: string): (r: int)
  {
    var u := SkipBlanks(s);
    var signed := u != "" && (u[0] == '-' || u[0] == '+');
    var d := if signed then u[1..] else u;
    var v: int := Value(d[..DigitRun(d, 10)], 10);
    ToInt32(if signed && u[0] == '-' then -v else v)
  }

  function TokenFlag(token: string): (r: nat)
  {
    var c := Atoi(token);
    if IsChannel(c) then Pow2(c) else 0
  }

  function Accumulate(flag: nat, tokens: seq<string>): (r: nat)
    decreases |tokens|
  {
    if tokens == [] then flag else Accumulate(Or(flag, TokenFlag(tokens[0])), tokens[1..])
  }

  function ChannelsFlag(list: string): (r: nat)
  {
    Accumulate(0, Split(list, ','))
  }

  method ParseChannelsList(list: string) returns (flag: nat)
    ensures flag == ChannelsFlag(list)
  {
    flag := 0;
    var rest := list;
    while rest != ""
      invariant Accumulate(flag, Split(rest, ',')) == ChannelsFlag(list)
      decreases |rest|
    {
      // strtok skips the separators in front of a token
      if rest[0] == ',' {
        EmptyToken(flag);
        assert Split(rest, ',')[1..] == Split(rest[1..], ',');
        rest := rest[1..];
      } else {
        var n := 0;
        while n < |rest| && rest[n] != ','
          invariant 0 <= n <= |rest| && ',' !in rest[..n]
          invariant n == 0 ==> rest[0] != ','
        {
          n := n + 1;
        }
        var token := rest[..n];
        TakeToken(flag, rest, n);
        var channel := Atoi(token);
        if channel >= FIRST_CHANNEL && channel <= LAST_CHANNEL {
          flag := Or(flag, Pow2(channel));
        } else {
          OrZero(flag);
        }
        rest := if n < |rest| then rest[n + 1..] else "";
      }
    }
    EmptyToken(flag);
  }

  lemma EmptyToken(flag: nat)
    ensures TokenFlag("") == 0 && Or(flag, TokenFlag("")) == flag
    ensures Accumulate(flag, [""]) == flag
  {
    assert Value("", 10) == 0;
    OrZero(flag);
    assert [""][1..] == [];
  }

  lemma TakeToken(flag: nat, rest: string, n: nat)
    requires n <= |rest| && ',' !in rest[..n] && (n < |rest| ==> rest[n] == ',')
    ensures Accumulate(flag, Split(rest, ','))
         == Accumulate(Or(flag, TokenFlag(rest[..n])), Split(if n < |rest| then rest[n + 1..] else "", ','))
  {
    if n < |rest| {
      assert rest == rest[..n] + [','] + rest[n + 1..];
      SplitAt(rest[..n], ',', rest[n + 1..]);
    } else {
      assert rest[..n] == rest;
      SplitWord(rest, ',');
      assert [rest][1..] == [];
      EmptyToken(Or(flag, TokenFlag(rest)));
    }
  }

  lemma {:induction false} AccumulateBits(flag: nat, tokens: seq<string>, c: nat)
    ensures Bit(Accumulate(flag, tokens), c)
       <==> Bit(flag, c) || (IsChannel(c) && exists t :: t in tokens && Atoi(t) == c)
    decreases |tokens|
  {
    if tokens != [] {
      var f := TokenFlag(tokens[0]);
      AccumulateBits(Or(flag, f), tokens[1..], c);
      BitOr(flag, f, c);
      if f == 0 { BitOfZero(c); } else { BitPow2(Atoi(tokens[0]), c); }
      assert tokens == [tokens[0]] + tokens[1..];
    }
  }

  lemma {:induction false} AccumulateBound(flag: nat, tokens: seq<string>)
    requires flag < Pow2(32)
    ensures Accumulate(flag, tokens) < Pow2(32)
    decreases |tokens|
  {
    if tokens != [] {
      var f := TokenFlag(tokens[0]);
      if f != 0 { Pow2Grows(Atoi(tokens[0]), 32); }
      OrBound(flag, f, 32);
      AccumulateBound(Or(flag, f), tokens[1..]);
    }
  }

  /** The mask fits in a uint32_t, whatever the list. */
  lemma FlagFits(list: string)
    ensures ChannelsFlag(list) < 0x1_0000_0000
  {
    AccumulateBound(0, Split(list, ','));
    Width32();
  }

  lemma Width32()
    ensures Pow2(32) == 0x1_0000_0000 == Pow256(4)
  {
    Octet(0);
    Octet(8);
    Octet(16);
    Octet(24);
    assert Pow256(2) == 256 * Pow256(1) && Pow256(4) == 256 * Pow256(3);
  }

  lemma Octet(k: nat)
    ensures Pow2(k + 8) == 256 * Pow2(k)
  {
    assert Pow2(k + 2) == 4 * Pow2(k) && Pow2(k + 4) == 4 * Pow2(k + 2);
    assert Pow2(k + 6) == 4 * Pow2(k + 4) && Pow2(k + 8) == 4 * Pow2(k + 6);
  }

  lemma {:induction false} Pow2Grows(a: nat, b: nat)
    requires a < b
    ensures Pow2(a) < Pow2(b)
    decreases b
  {
    if a < b - 1 { Pow2Grows(a, b - 1); }
  }

  // ----- The Python side: ','.join(str(x) for x in sorted(list(set(channels)))) ------------------

  /** The channels of a set in increasing order, starting at `from`. */
  function Sorted(s: set<int>, from: int): (r: seq<int>)
    decreases LAST_CHANNEL + 1 - from, s
  {
    if from > LAST_CHANNEL then []
    else (if from in s then [from] else []) + Sorted(s, from + 1)
  }

  /** sorted() of a set of channels: strictly increasing and with the same elements. */
  lemma {:induction false} SortedIsSorted(s: set<int>, from: int)
    requires from >= FIRST_CHANNEL
    ensures forall i, j :: 0 <= i < j < |Sorted(s, from)| ==> Sorted(s, from)[i] < Sorted(s, from)[j]
    ensures forall c :: c in Sorted(s, from) <==> c in s && from <= c <= LAST_CHANNEL
    ensures |Sorted(s, from)| <= if from > LAST_CHANNEL then 0 else LAST_CHANNEL + 1 - from
    decreases LAST_CHANNEL + 1 - from
  {
    if from <= LAST_CHANNEL {
      SortedIsSorted(s, from + 1);
      var rest := Sorted(s, from + 1);
      assert forall i :: 0 <= i < |rest| ==> rest[i] in rest;
    }
  }

  function Decs(cs: seq<int>): (r: seq<string>)
    ensures |r| == |cs|
    ensures forall i :: 0 <= i < |cs| ==> r[i] == DecInt(cs[i])
  {
    if cs == [] then [] else [DecInt(cs[0])] + Decs(cs[1..])
  }

  function ListText(s: set<int>): (r: string)
  {
    Join(Decs(Sorted(s, FIRST_CHANNEL)), ',')
  }

  predicate AllChannels(cs: seq<int>)
  {
    forall i :: 0 <= i < |cs| ==> IsChannel(cs[i])
  }

  lemma AtoiOfDec(n: nat)
    requires n < 0x8000_0000
    ensures Atoi(Dec(n)) == n
  {
    var d := Dec(n);
    assert DigitVal(d[0]) < 10;
    assert SkipBlanks(d) == d;
    DigitRunIs(d, "", 10);
    assert d + "" == d && d[..|d|] == d;
    ValueOfDec(n);
  }

  /** A printed channel list is a word of at most 47 characters. */
  lemma {:induction false} JoinShort(cs: seq<int>)
    requires AllChannels(cs)
    ensures NoBlank(Join(Decs(cs), ',')) && |Join(Decs(cs), ',')| <= 3 * |cs|
    ensures cs != [] ==> Join(Decs(cs), ',') != ""
  {
    if cs != [] {
      var n := cs[0];
      assert IsChannel(n);
      assert DecInt(n) == Dec(n / 10) + [DigitChar(n % 10)] && Dec(n / 10) == [DigitChar(n / 10)];
      JoinShort(cs[1..]);
      assert Decs(cs)[1..] == Decs(cs[1..]);
    }
  }

  predicate ChannelSet(s: set<int>)
  {
    s != {} && forall x :: x in s ==> IsChannel(x)
  }

  /** A set of channels and its sorted list have the same elements, and the list is not empty. */
  lemma SortedCovers(s: set<int>) returns (cs: seq<int>)
    requires ChannelSet(s)
    ensures cs == Sorted(s, FIRST_CHANNEL) && AllChannels(cs) && 0 < |cs| <= 16
    ensures forall c :: c in cs <==> c in s
    ensures |s| > 1 <==> |cs| > 1
    ensures |cs| > 1 ==> cs[0] != cs[1]
  {
    cs := Sorted(s, FIRST_CHANNEL);
    SortedSame(s, cs);
    SizeOfElements(s, cs);
  }

  lemma SortedSame(s: set<int>, cs: seq<int>)
    requires ChannelSet(s) && cs == Sorted(s, FIRST_CHANNEL)
    ensures AllChannels(cs) && |cs| <= 16
    ensures forall c :: c in cs <==> c in s
    ensures forall i, j :: 0 <= i < j < |cs| ==> cs[i] != cs[j]
  {
    SortedIsSorted(s, FIRST_CHANNEL);
    assert forall i :: 0 <= i < |cs| ==> cs[i] in cs;
  }

  /** The size of a set and the length of a list of its elements without repetition. */
  lemma SizeOfElements(s: set<int>, cs: seq<int>)
    requires s != {} && forall c :: c in cs <==> c in s
    requires forall i, j :: 0 <= i < j < |cs| ==> cs[i] != cs[j]
    ensures |cs| > 0 && (|s| > 1 <==> |cs| > 1)
  {
    if |cs| <= 1 {
      assert forall x :: x in s ==> x in cs;
      AtMostOne(s, cs);
    } else {
      assert cs[0] in cs && cs[1] in cs;
      TwoElements(s, cs[0], cs[1]);
    }
  }

  lemma AtMostOne<T>(s: set<T>, cs: seq<T>)
    requires s != {} && |cs| <= 1 && forall x :: x in s ==> x in cs
    ensures |cs| == 1 && |s| == 1
  {
    if cs == [] {
      assert false;
    }
    assert s == {cs[0]};
  }

  lemma TwoElements<T>(s: set<T>, a: T, b: T)
    requires a in s && b in s && a != b
    ensures |s| > 1
  {
    assert s == {a, b} + (s - {a, b});
  }

  /** Printing a set of channels and reading the list back sets exactly the bits of its channels. */
  lemma ChannelSetAsBitmask(s: set<int>, c: nat)
    requires ChannelSet(s)
    ensures Bit(ChannelsFlag(ListText(s)), c) <==> c in s
    ensures 0 < ChannelsFlag(ListText(s)) < Pow2(32)
  {
    var cs := SortedCovers(s);
    FlagBits(cs, c);
    FlagBits(cs, cs[0]);
    assert cs[0] in cs;
    if ChannelsFlag(ListText(s)) == 0 { BitOfZero(cs[0]); }
    AccumulateBound(0, Split(ListText(s), ','));
  }

  lemma ListTextIsWord(s: set<int>)
    requires ChannelSet(s)
    ensures IsWord(ListText(s)) && |ListText(s)| <= 48
  {
    var cs := SortedCovers(s);
    JoinShort(cs);
  }

  lemma FlagBits(cs: seq<int>, c: nat)
    requires cs != [] && AllChannels(cs)
    ensures Bit(ChannelsFlag(Join(Decs(cs), ',')), c) <==> c in cs
  {
    var ds := Decs(cs);
    forall w | w in ds
      ensures ',' !in w
    {
    }
    SplitJoin(ds, ',');
    AccumulateBits(0, ds, c);
    BitOfZero(c);
    forall i | 0 <= i < |cs|
      ensures Atoi(ds[i]) == cs[i]
    {
      AtoiOfDec(cs[i]);
    }
    if c in cs {
      var i :| 0 <= i < |cs| && cs[i] == c;
      assert ds[i] in ds;
    }
  }

  /** The mask has several bits exactly when the set has several channels. */
  lemma SeveralChannels(s: set<int>)
    requires ChannelSet(s)
    ensures var f := ChannelsFlag(ListText(s)); f > 0 && (TwoBits(f) <==> |s| > 1)
  {
    var f := ChannelsFlag(ListText(s));
    var cs := SortedCovers(s);
    ChannelSetAsBitmask(s, cs[0]);
    if i: nat, j: nat :| BothSet(f, i, j) {
      ChannelSetAsBitmask(s, i);
      ChannelSetAsBitmask(s, j);
      TwoElements<int>(s, i, j);
    }
    if |s| > 1 {
      var a: nat, b: nat := cs[0], cs[1];
      assert a in cs && b in cs;
      ChannelSetAsBitmask(s, b);
      assert BothSet(f, if a < b then a else b, if a < b then b else a);
    }
  }
}
