/** C's unsigned bit operations, as recursions over the binary digits of a natural number. */
module Bits {

  predicate Bit(x: nat, k: nat)
  {
    if k == 0 then x % 2 == 1 else Bit(x / 2, k - 1)
  }

  function Pow2(k: nat): (r: nat)
    ensures r > 0
  {
    if k == 0 then 1 else 2 * Pow2(k - 1)
  }

  function Or(x: nat, y: nat): (r: nat)
  {
    if x == 0 && y == 0 then 0
    else (if x % 2 == 1 || y % 2 == 1 then 1 else 0) + 2 * Or(x / 2, y / 2)
  }

  function And(x: nat, y: nat): (r: nat)
  {
    if x == 0 || y == 0 then 0
    else (if x % 2 == 1 && y % 2 == 1 then 1 else 0) + 2 * And(x / 2, y / 2)
  }

  lemma {:induction false} BitOfZero(k: nat)
    ensures !Bit(0, k)
  {
    if k > 0 { BitOfZero(k - 1); }
  }

  lemma {:induction false} BitOr(x: nat, y: nat, k: nat)
    ensures Bit(Or(x, y), k) <==> Bit(x, k) || Bit(y, k)
    decreases k
  {
    if x == 0 && y == 0 {
      BitOfZero(k);
    } else if k > 0 {
      BitOr(x / 2, y / 2, k - 1);
    }
  }

  lemma {:induction false} BitPow2(c: nat, k: nat)
    ensures Bit(Pow2(c), k) <==> k == c
    decreases c
  {
    if c == 0 {
      if k > 0 { BitOfZero(k - 1); }
    } else if k > 0 {
      BitPow2(c - 1, k - 1);
    }
  }

  lemma {:induction false} OrBound(x: nat, y: nat, n: nat)
    requires x < Pow2(n) && y < Pow2(n)
    ensures Or(x, y) < Pow2(n)
  {
    if n > 0 { OrBound(x / 2, y / 2, n - 1); }
  }

  lemma {:induction false} SomeBit(x: nat) returns (k: nat)
    requires x > 0
    ensures Bit(x, k)
  {
    if x % 2 == 1 { k := 0; } else { k := SomeBit(x / 2); k := k + 1; }
  }

  lemma {:induction false} AndSelf(x: nat)
    ensures And(x, x) == x
  {
    if x > 0 { AndSelf(x / 2); }
  }

  predicate BothSet(x: nat, i: nat, j: nat)
  {
    i < j && Bit(x, i) && Bit(x, j)
  }

  /** At least two bits are set. */
  ghost predicate TwoBits(x: nat)
  {
    exists i: nat, j: nat :: BothSet(x, i, j)
  }

  /** `x & (x - 1)` is the usual test for several bits: it is zero exactly when no two bits are set. */
  lemma {:induction false} SeveralBits(x: nat)
    requires x > 0
    ensures And(x, x - 1) != 0 <==> TwoBits(x)
  {
    if x % 2 == 1 {
      OddSeveralBits(x);
    } else {
      SeveralBits(x / 2);
      assert (x - 1) / 2 == x / 2 - 1 && And(x, x - 1) == 2 * And(x / 2, x / 2 - 1);
      if i: nat, j: nat :| BothSet(x / 2, i, j) {
        assert BothSet(x, i + 1, j + 1);
      }
      if i: nat, j: nat :| BothSet(x, i, j) {
        assert BothSet(x / 2, i - 1, j - 1);
      }
    }
  }

  lemma OddSeveralBits(x: nat)
    requires x % 2 == 1
    ensures And(x, x - 1) != 0 <==> TwoBits(x)
  {
    AndSelf(x / 2);
    if x > 1 {
      assert (x - 1) / 2 == x / 2 && And(x, x - 1) == 2 * And(x / 2, x / 2);
      var k := SomeBit(x / 2);
      assert BothSet(x, 0, k + 1);
    } else if i: nat, j: nat :| BothSet(x, i, j) {
      BitOfZero(j - 1);
    }
  }

  lemma {:induction false} OrZero(x: nat)
    ensures Or(x, 0) == x && Or(0, x) == x
  {
    if x > 0 { OrZero(x / 2); }
  }

  /** Setting a clear bit is an addition. */
  lemma {:induction false} OrClearBit(x: nat, k: nat)
    requires !Bit(x, k)
    ensures Or(x, Pow2(k)) == x + Pow2(k)
  {
    if k == 0 { OrZero(x / 2); } else { OrClearBit(x / 2, k - 1); }
  }

  /** Joining a multiple of 2^n and a smaller number is an addition. */
  lemma {:induction false} OrDisjoint(x: nat, y: nat, n: nat)
    requires y < Pow2(n)
    ensures Or(y, Pow2(n) * x) == y + Pow2(n) * x
    decreases n
  {
    if n == 0 {
      OrZero(x);
    } else {
      var m := Pow2(n - 1) * x;
      assert Pow2(n) * x == 2 * m;
      OrDisjoint(x, y / 2, n - 1);
    }
  }

  lemma {:induction false} AndBit(x: nat, k: nat)
    ensures And(x, Pow2(k)) != 0 <==> Bit(x, k)
  {
    if x == 0 {
      BitOfZero(k);
    } else if k > 0 {
      AndBit(x / 2, k - 1);
    } else {
      assert And(x / 2, 0) == 0;
    }
  }

  lemma AndShift(x: nat, y: nat)
    ensures And(x, 2 * y) == 2 * And(x / 2, y)
  {
  }

  lemma LowMask(y: nat)
    ensures And(y, 7) == y % 8
  {
    assert And(y / 2 / 2, 1) == y / 4 % 2;
    assert And(y / 2, 3) == y / 2 % 2 + 2 * And(y / 2 / 2, 1);
  }
}
