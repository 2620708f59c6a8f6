/**
 * `Square`: one board square with its parity quadrant, and the flips of a
 * move there. The program keeps one immutable Square per index in a
 * static table.
 */
module Squares {
  import opened Bitboards
  import opened Rays
  import KindergartenEastWest

  // ---------------------------------------------------------------------
  // Parity quadrants.

  /** The squares of row r at columns lo..lo+3: one nibble of the mask. */
  function Four(r: int, lo: int): Bitboard
  {
    Range(8 * r + lo, 8 * r + lo + 4)
  }

  /** `0x0F0F0F0F`: columns 0..3 of rows 0..3. */
  function BottomRight(): Bitboard
  {
    Block(0, 0)
  }

  /** `BOTTOM_RIGHT << 4`. */
  function BottomLeft(): Bitboard
  {
    ShiftLeft(BottomRight(), 4)
  }

  /** `BOTTOM_RIGHT << 32`. */
  function TopRight(): Bitboard
  {
    ShiftLeft(BottomRight(), 32)
  }

  /** `TOP_RIGHT << 4`. */
  function TopLeft(): Bitboard
  {
    ShiftLeft(TopRight(), 4)
  }

  lemma ShiftRange(lo: int, hi: int, k: nat)
    requires 0 <= lo <= hi && hi + k <= 64
    ensures ShiftLeft(Range(lo, hi), k) == Range(lo + k, hi + k)
  {
    assert forall x :: x in ShiftLeft(Range(lo, hi), k) <==> x in Range(lo + k, hi + k);
  }

  lemma ShiftUnion(a: Bitboard, b: Bitboard, k: nat)
    ensures ShiftLeft(a + b, k) == ShiftLeft(a, k) + ShiftLeft(b, k)
  {
  }

  /** The nibbles of columns lo..lo+3 on rows r..r+3. */
  function Block(r: int, lo: int): Bitboard
  {
    Four(r, lo) + Four(r + 1, lo) + Four(r + 2, lo) + Four(r + 3, lo)
  }

  /** Shifting a block by k moves each of its nibbles by k. */
  lemma ShiftBlock(r: int, lo: int, k: nat)
    requires 0 <= r && 0 <= lo && 8 * (r + 3) + lo + 4 + k <= 64
    ensures ShiftLeft(Block(r, lo), k) ==
      Range(8 * r + lo + k, 8 * r + lo + k + 4) + Range(8 * (r + 1) + lo + k, 8 * (r + 1) + lo + k + 4)
      + Range(8 * (r + 2) + lo + k, 8 * (r + 2) + lo + k + 4) + Range(8 * (r + 3) + lo + k, 8 * (r + 3) + lo + k + 4)
  {
    var a, b, c, d := Four(r, lo), Four(r + 1, lo), Four(r + 2, lo), Four(r + 3, lo);
    ShiftUnion(a + b + c, d, k);
    ShiftUnion(a + b, c, k);
    ShiftUnion(a, b, k);
    ShiftRange(8 * r + lo, 8 * r + lo + 4, k);
    ShiftRange(8 * (r + 1) + lo, 8 * (r + 1) + lo + 4, k);
    ShiftRange(8 * (r + 2) + lo, 8 * (r + 2) + lo + 4, k);
    ShiftRange(8 * (r + 3) + lo, 8 * (r + 3) + lo + 4, k);
  }

  lemma BottomLeftBlock()
    ensures BottomLeft() == Block(0, 4)
  {
    ShiftBlock(0, 0, 4);
  }

  lemma TopRightBlock()
    ensures TopRight() == Block(4, 0)
  {
    ShiftBlock(0, 0, 32);
  }

  lemma TopLeftBlock()
    ensures TopLeft() == Block(4, 4)
  {
    TopRightBlock();
    ShiftBlock(4, 0, 4);
  }

  lemma FourCard(r: int, lo: int)
    requires 0 <= r < 8 && (lo == 0 || lo == 4)
    ensures |Four(r, lo)| == 4
  {
    RangeCard(8 * r + lo, 8 * r + lo + 4);
  }

  /** Ranges one after the other share no square. */
  lemma RangesDisjoint(a: int, b: int, c: int, d: int)
    requires b <= c
    ensures Range(a, b) * Range(c, d) == {}
  {
    assert forall x :: x !in Range(a, b) * Range(c, d);
  }

  /** A block of four nibbles holds 16 squares. */
  lemma BlockCard(r: int, lo: int)
    requires (r == 0 || r == 4) && (lo == 0 || lo == 4)
    ensures |Block(r, lo)| == 16
  {
    var a, b, c, d := Four(r, lo), Four(r + 1, lo), Four(r + 2, lo), Four(r + 3, lo);
    FourCard(r, lo);
    FourCard(r + 1, lo);
    FourCard(r + 2, lo);
    FourCard(r + 3, lo);
    RangesDisjoint(8 * r + lo, 8 * r + lo + 4, 8 * (r + 1) + lo, 8 * (r + 1) + lo + 4);
    assert |a + b| == 8;
    assert (a + b) * c == {} by {
      RangesDisjoint(8 * r + lo, 8 * r + lo + 4, 8 * (r + 2) + lo, 8 * (r + 2) + lo + 4);
      RangesDisjoint(8 * (r + 1) + lo, 8 * (r + 1) + lo + 4, 8 * (r + 2) + lo, 8 * (r + 2) + lo + 4);
    }
    assert |a + b + c| == 12;
    assert (a + b + c) * d == {} by {
      RangesDisjoint(8 * r + lo, 8 * r + lo + 4, 8 * (r + 3) + lo, 8 * (r + 3) + lo + 4);
      RangesDisjoint(8 * (r + 1) + lo, 8 * (r + 1) + lo + 4, 8 * (r + 3) + lo, 8 * (r + 3) + lo + 4);
      RangesDisjoint(8 * (r + 2) + lo, 8 * (r + 2) + lo + 4, 8 * (r + 3) + lo, 8 * (r + 3) + lo + 4);
    }
  }

  /** Membership of the four quadrant masks, nibble by nibble. */
  lemma QuadrantMembers(x: int)
    ensures x in BottomRight() <==> 0 <= x < 4 || 8 <= x < 12 || 16 <= x < 20 || 24 <= x < 28
    ensures x in BottomLeft() <==> 4 <= x < 8 || 12 <= x < 16 || 20 <= x < 24 || 28 <= x < 32
    ensures x in TopRight() <==> 32 <= x < 36 || 40 <= x < 44 || 48 <= x < 52 || 56 <= x < 60
    ensures x in TopLeft() <==> 36 <= x < 40 || 44 <= x < 48 || 52 <= x < 56 || 60 <= x < 64
  {
    BottomLeftBlock();
    TopRightBlock();
    TopLeftBlock();
  }

  /** The four quadrant masks are pairwise disjoint. */
  lemma QuadrantsDisjoint()
    ensures BottomRight() * BottomLeft() == {} && BottomRight() * TopRight() == {} && BottomRight() * TopLeft() == {}
    ensures BottomLeft() * TopRight() == {} && BottomLeft() * TopLeft() == {} && TopRight() * TopLeft() == {}
  {
    forall x
      ensures x !in BottomRight() * BottomLeft() && x !in BottomRight() * TopRight() && x !in BottomRight() * TopLeft()
      ensures x !in BottomLeft() * TopRight() && x !in BottomLeft() * TopLeft() && x !in TopRight() * TopLeft()
    {
      QuadrantMembers(x);
    }
  }

  /** Every square of the board is in one of the quadrant masks. */
  lemma QuadrantsCover()
    ensures BottomRight() + BottomLeft() + TopRight() + TopLeft() == ALL
  {
    forall x | x in ALL
      ensures x in BottomRight() + BottomLeft() + TopRight() + TopLeft()
    {
      QuadrantMembers(x);
    }
  }

  /** Each quadrant mask holds 16 squares. */
  lemma QuadrantSizes()
    ensures |BottomRight()| == 16 && |BottomLeft()| == 16 && |TopRight()| == 16 && |TopLeft()| == 16
  {
    BlockCard(0, 0);
    BottomLeftBlock();
    BlockCard(0, 4);
    TopRightBlock();
    BlockCard(4, 0);
    TopLeftBlock();
    BlockCard(4, 4);
  }

  // ---------------------------------------------------------------------
  // Squares.

  /** A Square: its index and the squares whose parity is counted with it. */
  datatype Square = Square(sq: int, parityRegion: Bitboard)

  /** `new Square(sq)`: the parity region is picked by the constructor's if-chain. */
  function NewSquare(sq: int): Square
  {
    var region :=
      if sq in TopLeft() then TopLeft()
      else if sq in TopRight() then TopRight()
      else if sq in BottomLeft() then BottomLeft()
      else BottomRight();
    Square(sq, region)
  }

  /** The parity region of a board square is one of the quadrants and contains it. */
  lemma ParityRegionSpec(sq: int)
    requires sq in ALL
    ensures NewSquare(sq).sq == sq
    ensures sq in NewSquare(sq).parityRegion
    ensures NewSquare(sq).parityRegion == TopLeft() || NewSquare(sq).parityRegion == TopRight() ||
            NewSquare(sq).parityRegion == BottomLeft() || NewSquare(sq).parityRegion == BottomRight()
  {
    QuadrantsCover();
  }

  /** The static `squares` table: one Square per index. */
  function SquareTable(): (t: seq<Square>)
    ensures |t| == 64
    ensures forall i :: 0 <= i < 64 ==> t[i] == NewSquare(i)
  {
    seq(64, NewSquare)
  }

  /** The static initializer of `squares`. */
  method CreateSquares() returns (squares: array<Square>)
    ensures fresh(squares)
    ensures squares[..] == SquareTable()
  {
    squares := new Square[64](_ => NewSquare(0));
    for i := 0 to 64
      invariant forall k :: 0 <= k < i ==> squares[k] == NewSquare(k)
    {
      squares[i] := NewSquare(i);
    }
  }

  /** `Square.of(sq)`. */
  function Of(sq: int): Square
    requires sq in ALL
  {
    SquareTable()[sq]
  }

  /** `Square.of(i).sq == i`, and its parity region is its quadrant. */
  lemma OfSpec(i: int)
    requires i in ALL
    ensures Of(i).sq == i
    ensures i in Of(i).parityRegion
  {
    ParityRegionSpec(i);
  }

  /** Distinct indices give distinct Squares. */
  lemma OfInjective(i: int, j: int)
    requires i in ALL && j in ALL && i != j
    ensures Of(i) != Of(j)
  {
  }

  /** `placement()`: the bitboard `1L << sq`. */
  function Placement(s: Square): Bitboard
    requires s.sq in ALL
  {
    {s.sq}
  }

  /** The placement has exactly one square set: the Square's own. */
  lemma PlacementSingle(s: Square)
    requires s.sq in ALL
    ensures |Placement(s)| == 1
    ensures forall x :: x in Placement(s) <==> x == s.sq
  {
  }

  // ---------------------------------------------------------------------
  // Flips.

  /** `KindergartenUpDown.flips`; that class is not part of this model, so its rule stands in. */
  function UpDownFlips(sq: int, mover: Bitboard, enemy: Bitboard): Bitboard
    requires sq in ALL
  {
    RayFlips(mover, enemy, sq, North) + RayFlips(mover, enemy, sq, South)
  }

  /** `FlipperURDL.flips`, by the same rule. */
  function UrdlFlips(sq: int, mover: Bitboard, enemy: Bitboard): Bitboard
    requires sq in ALL
  {
    RayFlips(mover, enemy, sq, NorthEast) + RayFlips(mover, enemy, sq, SouthWest)
  }

  /** `FlipperULDR.flips`, by the same rule. */
  function UldrFlips(sq: int, mover: Bitboard, enemy: Bitboard): Bitboard
    requires sq in ALL
  {
    RayFlips(mover, enemy, sq, NorthWest) + RayFlips(mover, enemy, sq, SouthEast)
  }

  /** `calcFlips(mover, enemy)`: the OR of the four line flippers. */
  function CalcFlips(s: Square, mover: Bitboard, enemy: Bitboard): Bitboard
    requires s.sq in ALL
  {
    KindergartenEastWest.Flips(s.sq, mover, enemy) + UpDownFlips(s.sq, mover, enemy)
    + UrdlFlips(s.sq, mover, enemy) + UldrFlips(s.sq, mover, enemy)
  }

  /**
   * On an empty square and disjoint discs, calcFlips is what the rules
   * flip, so it is 0 exactly when the move is illegal.
   */
  lemma CalcFlipsSpec(s: Square, mover: Bitboard, enemy: Bitboard)
    requires s.sq in ALL && mover * enemy == {} && s.sq !in mover && s.sq !in enemy
    ensures CalcFlips(s, mover, enemy) == RefFlips(mover, enemy, s.sq)
    ensures CalcFlips(s, mover, enemy) == {} <==> !IsLegal(mover, enemy, s.sq)
    ensures CalcFlips(s, mover, enemy) <= enemy
  {
    RefFlipsRays(mover, enemy, s.sq);
    KindergartenEastWest.FlipsSpec(s.sq, mover, enemy);
  }

  /**
   * `square.calcFlips(mover, enemy)` as the solver calls it: the flips of
   * the move, empty exactly when the move is illegal.
   */
  method CalcFlipsOf(s: Square, mover: Bitboard, enemy: Bitboard) returns (flips: Bitboard)
    requires s.sq in ALL && mover * enemy == {} && s.sq !in mover && s.sq !in enemy
    ensures flips == RefFlips(mover, enemy, s.sq)
    ensures flips == {} <==> !IsLegal(mover, enemy, s.sq)
  {
    CalcFlipsSpec(s, mover, enemy);
    flips := CalcFlips(s, mover, enemy);
  }

  /**
   * `Square.of(sq)` as the solver calls it: the entry of the table the
   * static initializer fills, which is `new Square(sq)`.
   */
  method SquareOf(sq: int) returns (s: Square)
    requires sq in ALL
    ensures s == SquareTable()[sq] && s == NewSquare(sq)
    ensures s.sq == sq
  {
    OfSpec(sq);
    s := Of(sq);
  }
}
