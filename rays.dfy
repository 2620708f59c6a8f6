/**
 * The rules of Othello as a reference: a move on an empty square flips,
 * in each of the eight directions, the run of enemy discs that ends on a
 * disc of the mover. Square sq lies on row sq / 8 and column sq % 8.
 *
 * The program computes these flips with lookup tables and bit tricks
 * (`KindergartenEastWest`, `KindergartenUpDown`, the two diagonal
 * flippers); this module is the specification they are compared with.
 */
module Rays {
  import opened Bitboards
  import opened Optional

  datatype Direction = North | South | East | West | NorthEast | NorthWest | SouthEast | SouthWest

  /** Row step of a direction (rows grow towards North). */
  function DRow(d: Direction): int
  {
    match d
    case North | NorthEast | NorthWest => 1
    case South | SouthEast | SouthWest => -1
    case East | West => 0
  }

  /** Column step of a direction (columns grow towards East). */
  function DCol(d: Direction): int
  {
    match d
    case East | NorthEast | SouthEast => 1
    case West | NorthWest | SouthWest => -1
    case North | South => 0
  }

  predicate OnBoard(row: int, col: int)
  {
    0 <= row < 8 && 0 <= col < 8
  }

  /** The square at (row, col). */
  function At(row: int, col: int): (sq: int)
    requires OnBoard(row, col)
    ensures sq in ALL && sq / 8 == row && sq % 8 == col
  {
    8 * row + col
  }

  function Row(sq: int): int
  {
    sq / 8
  }

  function Col(sq: int): int
  {
    sq % 8
  }

  /** The number of squares left in direction d before the edge. */
  function Room(row: int, col: int, d: Direction): nat
    requires OnBoard(row, col)
  {
    if DRow(d) == 1 then 7 - row
    else if DRow(d) == -1 then row
    else if DCol(d) == 1 then 7 - col
    else col
  }

  /**
   * The run of enemy discs that starts next to (row, col) in direction d:
   * Some(run) when the run ends on a mover disc, None when it ends on an
   * empty square or at the edge of the board.
   */
  function Run(mover: Bitboard, enemy: Bitboard, row: int, col: int, d: Direction): (r: Option<Bitboard>)
    requires OnBoard(row, col)
    ensures r.Some? ==> r.value <= enemy
    decreases Room(row, col, d)
  {
    var row', col' := row + DRow(d), col + DCol(d);
    if !OnBoard(row', col') then None
    else
      var s := At(row', col');
      if s in mover then Some({})
      else if s in enemy then
        match Run(mover, enemy, row', col', d)
        case Some(run) => Some(run + {s})
        case None => None
      else None
  }

  /** The discs a move on sq flips in direction d. */
  function RayFlips(mover: Bitboard, enemy: Bitboard, sq: int, d: Direction): (r: Bitboard)
    requires sq in ALL
    ensures r <= enemy
  {
    match Run(mover, enemy, Row(sq), Col(sq), d)
    case Some(run) => run
    case None => {}
  }

  /** The eight directions, in the order a move's flips are gathered. */
  const DIRECTIONS: seq<Direction> := [North, South, East, West, NorthEast, SouthWest, NorthWest, SouthEast]

  /** The discs a move on sq flips along the first n directions of DIRECTIONS. */
  function FlipsAlong(mover: Bitboard, enemy: Bitboard, sq: int, n: nat): (r: Bitboard)
    requires sq in ALL && n <= |DIRECTIONS|
    ensures r <= enemy
  {
    if n == 0 then {}
    else FlipsAlong(mover, enemy, sq, n - 1) + RayFlips(mover, enemy, sq, DIRECTIONS[n - 1])
  }

  /** All the discs a move on sq flips. */
  function RefFlips(mover: Bitboard, enemy: Bitboard, sq: int): (r: Bitboard)
    requires sq in ALL
    ensures r <= enemy
  {
    FlipsAlong(mover, enemy, sq, |DIRECTIONS|)
  }

  /** The flips of a move are the union of its flips in the eight directions. */
  lemma RefFlipsRays(mover: Bitboard, enemy: Bitboard, sq: int)
    requires sq in ALL
    ensures RefFlips(mover, enemy, sq) ==
      RayFlips(mover, enemy, sq, North) + RayFlips(mover, enemy, sq, South)
      + RayFlips(mover, enemy, sq, East) + RayFlips(mover, enemy, sq, West)
      + RayFlips(mover, enemy, sq, NorthEast) + RayFlips(mover, enemy, sq, SouthWest)
      + RayFlips(mover, enemy, sq, NorthWest) + RayFlips(mover, enemy, sq, SouthEast)
  {
    assert FlipsAlong(mover, enemy, sq, 1) == RayFlips(mover, enemy, sq, North);
    assert FlipsAlong(mover, enemy, sq, 2) == FlipsAlong(mover, enemy, sq, 1) + RayFlips(mover, enemy, sq, South);
    assert FlipsAlong(mover, enemy, sq, 3) == FlipsAlong(mover, enemy, sq, 2) + RayFlips(mover, enemy, sq, East);
    assert FlipsAlong(mover, enemy, sq, 4) == FlipsAlong(mover, enemy, sq, 3) + RayFlips(mover, enemy, sq, West);
    assert FlipsAlong(mover, enemy, sq, 5) == FlipsAlong(mover, enemy, sq, 4) + RayFlips(mover, enemy, sq, NorthEast);
    assert FlipsAlong(mover, enemy, sq, 6) == FlipsAlong(mover, enemy, sq, 5) + RayFlips(mover, enemy, sq, SouthWest);
    assert FlipsAlong(mover, enemy, sq, 7) == FlipsAlong(mover, enemy, sq, 6) + RayFlips(mover, enemy, sq, NorthWest);
    assert FlipsAlong(mover, enemy, sq, 8) == FlipsAlong(mover, enemy, sq, 7) + RayFlips(mover, enemy, sq, SouthEast);
  }

  /** A move on sq is legal when sq is empty and the move flips at least one disc. */
  predicate IsLegal(mover: Bitboard, enemy: Bitboard, sq: int)
  {
    sq in ALL && sq !in mover && sq !in enemy && RefFlips(mover, enemy, sq) != {}
  }

  /** The mover's legal moves (`BitBoardUtils.calcMoves`). */
  function LegalMoves(mover: Bitboard, enemy: Bitboard): (r: Bitboard)
    ensures forall sq :: sq in r <==> IsLegal(mover, enemy, sq)
  {
    set sq | 0 <= sq < 64 && IsLegal(mover, enemy, sq)
  }

  /** Whether the mover has a legal move (`calcMoves(mover, enemy) != 0`). */
  predicate CanMove(mover: Bitboard, enemy: Bitboard)
  {
    exists sq :: 0 <= sq < 64 && IsLegal(mover, enemy, sq)
  }

  lemma CanMoveIff(mover: Bitboard, enemy: Bitboard)
    ensures CanMove(mover, enemy) <==> LegalMoves(mover, enemy) != {}
  {
    if CanMove(mover, enemy) {
      var sq :| 0 <= sq < 64 && IsLegal(mover, enemy, sq);
      assert sq in LegalMoves(mover, enemy);
    }
  }

  /**
   * A move flips a disc exactly when some direction holds a run of one or
   * more enemy discs closed by a mover disc.
   */
  lemma LegalIffBracket(mover: Bitboard, enemy: Bitboard, sq: int)
    requires sq in ALL && sq !in mover && sq !in enemy
    ensures IsLegal(mover, enemy, sq) <==>
      exists d: Direction :: Run(mover, enemy, Row(sq), Col(sq), d).Some? &&
                             Run(mover, enemy, Row(sq), Col(sq), d).value != {}
  {
    var r, c := Row(sq), Col(sq);
    RefFlipsRays(mover, enemy, sq);
    if IsLegal(mover, enemy, sq) {
      var d: Direction;
      if RayFlips(mover, enemy, sq, North) != {} { d := North; }
      else if RayFlips(mover, enemy, sq, South) != {} { d := South; }
      else if RayFlips(mover, enemy, sq, East) != {} { d := East; }
      else if RayFlips(mover, enemy, sq, West) != {} { d := West; }
      else if RayFlips(mover, enemy, sq, NorthEast) != {} { d := NorthEast; }
      else if RayFlips(mover, enemy, sq, SouthWest) != {} { d := SouthWest; }
      else if RayFlips(mover, enemy, sq, NorthWest) != {} { d := NorthWest; }
      else { d := SouthEast; }
      assert Run(mover, enemy, r, c, d).Some? && Run(mover, enemy, r, c, d).value != {};
    }
  }
}
