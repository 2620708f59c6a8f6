/**
 * Bit operations on Java `int` values held as mathematical integers, for
 * the row bytes of the kindergarten tables. Bit c of x is read off by
 * halving (Dafny's division by 2 rounds down, so negative numbers behave
 * as in two's complement and `~x` is `-x - 1`).
 */
module Bits {

  /** `(x & (1 << c)) != 0`. */
  function Bit(x: int, c: nat): bool
    decreases c
  {
    if c == 0 then x % 2 == 1 else Bit(x / 2, c - 1)
  }

  /** `1 << c`. */
  function Pow2(c: nat): (p: nat)
    ensures p >= 1
  {
    if c == 0 then 1 else 2 * Pow2(c - 1)
  }

  /** `x & y` for non-negative x and y. */
  function And(x: nat, y: nat): nat
    decreases x
  {
    if x == 0 || y == 0 then 0
    else 2 * And(x / 2, y / 2) + (if x % 2 == 1 && y % 2 == 1 then 1 else 0)
  }

  /** `x | y` for non-negative x and y. */
  function Or(x: nat, y: nat): nat
    decreases x + y
  {
    if x == 0 then y
    else if y == 0 then x
    else 2 * Or(x / 2, y / 2) + (if x % 2 == 1 || y % 2 == 1 then 1 else 0)
  }

  /** `~x`. */
  function Complement(x: int): int
  {
    -x - 1
  }

  lemma {:induction false} BitOfZero(c: nat)
    ensures !Bit(0, c)
    decreases c
  {
    if c > 0 {
      BitOfZero(c - 1);
    }
  }

  /** Bit c of `x & y` is set exactly when it is set in both. */
  lemma {:induction false} AndBit(x: nat, y: nat, c: nat)
    ensures Bit(And(x, y), c) <==> Bit(x, c) && Bit(y, c)
    decreases c
  {
    if x == 0 || y == 0 {
      BitOfZero(c);
    } else if c > 0 {
      AndBit(x / 2, y / 2, c - 1);
      assert And(x, y) / 2 == And(x / 2, y / 2);
    }
  }

  /** Bit c of `x | y` is set exactly when it is set in either. */
  lemma {:induction false} OrBit(x: nat, y: nat, c: nat)
    ensures Bit(Or(x, y), c) <==> Bit(x, c) || Bit(y, c)
    decreases c
  {
    if x == 0 {
      BitOfZero(c);
    } else if y == 0 {
      BitOfZero(c);
    } else if c > 0 {
      OrBit(x / 2, y / 2, c - 1);
      assert Or(x, y) / 2 == Or(x / 2, y / 2);
    }
  }

  /** Bit c of `~x` is set exactly when it is clear in x. */
  lemma {:induction false} ComplementBit(x: int, c: nat)
    ensures Bit(Complement(x), c) <==> !Bit(x, c)
    decreases c
  {
    if c > 0 {
      ComplementBit(x / 2, c - 1);
      assert Complement(x) / 2 == Complement(x / 2);
    }
  }

  /** `x & y` is no larger than x. */
  lemma {:induction false} AndBound(x: nat, y: nat)
    ensures And(x, y) <= x
    decreases x
  {
    if x != 0 && y != 0 {
      AndBound(x / 2, y / 2);
    }
  }

  /** A value below `1 << k` with none of its k low bits set is 0. */
  lemma {:induction false} NoBits(x: nat, k: nat)
    requires x < Pow2(k)
    requires forall c: nat :: c < k ==> !Bit(x, c)
    ensures x == 0
    decreases k
  {
    if k > 0 {
      assert !Bit(x, 0);
      forall c: nat | c < k - 1
        ensures !Bit(x / 2, c)
      {
        assert Bit(x, c + 1) == Bit(x / 2, c);
      }
      NoBits(x / 2, k - 1);
    }
  }
}
