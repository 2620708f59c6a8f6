/**
 * Bitboards. The program keeps a set of board squares in a Java `long`,
 * bit i standing for square i (0..63). The model keeps the same sets as
 * `set<int>`: `a | b` is `a + b`, `a & b` is `a * b`, `a & ~b` is `a - b`,
 * `~b` is `Not(b)`, `-1L` is `ALL`, `1L << sq` is `{sq}` and
 * `Long.bitCount(b)` is `|b|`.
 */
module Bitboards {

  /** The 64 squares of the board; also the bitboard `-1L`. */
  const ALL: set<int> := set i | 0 <= i < 64

  /** A `long` read as a set of squares. */
  type Bitboard = b: set<int> | b <= ALL

  /** `~b`. */
  function Not(b: Bitboard): Bitboard
  {
    ALL - b
  }

  /** The squares i with lo <= i < hi. */
  function Range(lo: int, hi: int): set<int>
  {
    set i | i in ALL && lo <= i < hi
  }

  lemma {:induction false} RangeCard(lo: int, hi: int)
    requires 0 <= lo <= hi <= 64
    ensures |Range(lo, hi)| == hi - lo
    decreases hi - lo
  {
    if lo < hi {
      RangeCard(lo + 1, hi);
      assert Range(lo, hi) == {lo} + Range(lo + 1, hi);
    } else {
      assert Range(lo, hi) == {};
    }
  }

  /** The board has 64 squares. */
  lemma AllCard()
    ensures |ALL| == 64
  {
    RangeCard(0, 64);
    assert ALL == Range(0, 64);
  }

  /** `Long.bitCount(~b) == 64 - Long.bitCount(b)`. */
  lemma NotCard(b: Bitboard)
    ensures |Not(b)| == 64 - |b|
  {
    AllCard();
  }

  /** `b << k`: every square moves up by k and the squares pushed past 63 drop out. */
  function ShiftLeft(b: Bitboard, k: nat): (r: Bitboard)
    ensures forall x :: x in r <==> 0 <= x - k && x - k in b && x < 64
  {
    var r := set s | s in b && s + k < 64 :: s + k;
    assert forall x :: x in r <==> 0 <= x - k && x - k in b && x < 64 by {
      forall x | 0 <= x - k && x - k in b && x < 64
        ensures x in r
      {
        assert (x - k) + k == x;
      }
    }
    r
  }

  // ---------------------------------------------------------------------
  // The lowest square (`Long.numberOfTrailingZeros`).

  function LowestFrom(b: Bitboard, i: int): (r: int)
    requires 0 <= i < 64
    requires exists x :: x in b && x >= i
    requires forall x :: x in b ==> x >= i
    ensures r in b && forall x :: x in b ==> r <= x
    decreases 64 - i
  {
    if i in b then i else LowestFrom(b, i + 1)
  }

  /** `Long.numberOfTrailingZeros(b)` for a non-empty b: its lowest square. */
  function Lowest(b: Bitboard): (r: int)
    requires b != {}
    ensures r in b && forall x :: x in b ==> r <= x
  {
    assert exists x :: x in b && x >= 0;
    LowestFrom(b, 0)
  }

  // ---------------------------------------------------------------------
  // The ascending list of the squares of a bitboard.

  /** The squares of b at or above i, in ascending order. */
  function SquareListFrom(b: Bitboard, i: int): seq<int>
    requires 0 <= i <= 64
    decreases 64 - i
  {
    if i == 64 then []
    else if i in b then [i] + SquareListFrom(b, i + 1)
    else SquareListFrom(b, i + 1)
  }

  /** The squares of b in ascending order, as a loop over `numberOfTrailingZeros` visits them. */
  function SquareList(b: Bitboard): seq<int>
  {
    SquareListFrom(b, 0)
  }

  /** A list with each entry greater than the one before. */
  predicate Ascending(s: seq<int>)
  {
    forall k, l :: 0 <= k < l < |s| ==> s[k] < s[l]
  }

  lemma {:induction false} SquareListFromMembers(b: Bitboard, i: int)
    requires 0 <= i <= 64
    ensures forall x :: x in SquareListFrom(b, i) <==> x in b && x >= i
    ensures Ascending(SquareListFrom(b, i))
    decreases 64 - i
  {
    if i < 64 {
      SquareListFromMembers(b, i + 1);
      var rest := SquareListFrom(b, i + 1);
      assert forall k :: 0 <= k < |rest| ==> rest[k] in rest;
      if i in b {
        assert SquareListFrom(b, i) == [i] + rest;
      }
    }
  }

  lemma {:induction false} SquareListFromCount(b: Bitboard, i: int)
    requires 0 <= i <= 64
    ensures |SquareListFrom(b, i)| == |b * Range(i, 64)|
    decreases 64 - i
  {
    if i == 64 {
      assert b * Range(i, 64) == {};
    } else {
      SquareListFromCount(b, i + 1);
      if i in b {
        assert b * Range(i, 64) == {i} + b * Range(i + 1, 64);
      } else {
        assert b * Range(i, 64) == b * Range(i + 1, 64);
      }
    }
  }

  /**
   * SquareList(b) lists exactly the squares of b, in strictly ascending order
   * (so each once), and has `Long.bitCount(b)` entries.
   */
  lemma SquareListSpec(b: Bitboard)
    ensures forall x :: x in SquareList(b) <==> x in b
    ensures Ascending(SquareList(b))
    ensures |SquareList(b)| == |b|
  {
    SquareListFromMembers(b, 0);
    SquareListFromCount(b, 0);
    assert b * Range(0, 64) == b;
  }

  lemma {:induction false} SquareListFromSkip(b: Bitboard, i: int, r: int)
    requires 0 <= i <= r <= 64
    requires forall x :: x in b ==> x < i || x >= r
    ensures SquareListFrom(b, i) == SquareListFrom(b, r)
    decreases r - i
  {
    if i < r {
      SquareListFromSkip(b, i + 1, r);
    }
  }

  lemma {:induction false} SquareListFromAgree(a: Bitboard, b: Bitboard, i: int)
    requires 0 <= i <= 64
    requires forall x :: x >= i ==> (x in a <==> x in b)
    ensures SquareListFrom(a, i) == SquareListFrom(b, i)
    decreases 64 - i
  {
    if i < 64 {
      SquareListFromAgree(a, b, i + 1);
    }
  }

  /**
   * Taking the lowest square off a non-empty bitboard
   * (`b ^= 1L << numberOfTrailingZeros(b)`) peels the first entry off its
   * ascending list.
   */
  lemma SquareListLowest(b: Bitboard)
    requires b != {}
    ensures SquareList(b) == [Lowest(b)] + SquareList(b - {Lowest(b)})
  {
    var r := Lowest(b);
    var c := b - {r};
    SquareListFromSkip(b, 0, r);
    SquareListFromAgree(b, c, r + 1);
    SquareListFromSkip(c, 0, r + 1);
  }

  /** The empty bitboard has no squares. */
  lemma SquareListEmpty()
    ensures SquareList({}) == []
  {
    SquareListSpec({});
  }
}
