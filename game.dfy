/**
 * Othello positions as the solver sees them: the mover's and the enemy's
 * discs, a move, the final disc differential, and the perfect-play value
 * that the exact solver computes. Scores are net discs for the mover, and
 * at the end of the game the empty squares are awarded to nobody.
 */
module Game {
  import opened Bitboards
  import opened Rays

  /** The solver's marker for "the mover has no legal move". */
  const NO_MOVE: int := -65

  /** The two sides never share a square. */
  predicate Disjoint(mover: Bitboard, enemy: Bitboard)
  {
    mover !! enemy
  }

  /** `~(mover | enemy)`. */
  function Empties(mover: Bitboard, enemy: Bitboard): Bitboard
  {
    Not(mover + enemy)
  }

  /** `bitCount(~(mover | enemy))`. */
  function EmptyCount(mover: Bitboard, enemy: Bitboard): nat
  {
    |Empties(mover, enemy)|
  }

  /** `terminalScore`: net discs for the mover; empties count for nobody. */
  function TerminalScore(mover: Bitboard, enemy: Bitboard): int
  {
    |mover| - |enemy|
  }

  function Max(x: int, y: int): int
  {
    if x >= y then x else y
  }

  /** The new mover after a move on sq: `enemy & ~flips`. */
  function NextMover(mover: Bitboard, enemy: Bitboard, sq: int): Bitboard
    requires sq in ALL
  {
    enemy - RefFlips(mover, enemy, sq)
  }

  /** The new enemy after a move on sq: `mover | flips | placement`. */
  function NextEnemy(mover: Bitboard, enemy: Bitboard, sq: int): Bitboard
    requires sq in ALL
  {
    mover + RefFlips(mover, enemy, sq) + {sq}
  }

  lemma DisjointSwap(mover: Bitboard, enemy: Bitboard)
    requires Disjoint(mover, enemy)
    ensures Disjoint(enemy, mover)
  {
    assert enemy * mover == mover * enemy;
  }

  lemma DisjointUnionCard(a: set<int>, b: set<int>)
    requires a * b == {}
    ensures |a + b| == |a| + |b|
  {
  }

  /** Both sides together hold at most the 64 squares. */
  lemma DiscCount(mover: Bitboard, enemy: Bitboard)
    requires Disjoint(mover, enemy)
    ensures |mover| + |enemy| + EmptyCount(mover, enemy) == 64
  {
    DisjointUnionCard(mover, enemy);
    NotCard(mover + enemy);
  }

  /** A move on an empty square keeps the sides disjoint. */
  lemma PlayDisjoint(mover: Bitboard, enemy: Bitboard, sq: int)
    requires Disjoint(mover, enemy) && sq in ALL && sq !in mover && sq !in enemy
    ensures Disjoint(NextMover(mover, enemy, sq), NextEnemy(mover, enemy, sq))
  {
    PlayFacts(mover, enemy, sq);
  }

  /**
   * A legal move keeps the sides disjoint, fills exactly the square played
   * and adds one disc to the board.
   */
  lemma PlayFacts(mover: Bitboard, enemy: Bitboard, sq: int)
    requires Disjoint(mover, enemy) && sq in ALL && sq !in mover && sq !in enemy
    ensures Disjoint(NextMover(mover, enemy, sq), NextEnemy(mover, enemy, sq))
    ensures Empties(NextMover(mover, enemy, sq), NextEnemy(mover, enemy, sq)) == Empties(mover, enemy) - {sq}
    ensures EmptyCount(NextMover(mover, enemy, sq), NextEnemy(mover, enemy, sq)) == EmptyCount(mover, enemy) - 1
  {
    var f := RefFlips(mover, enemy, sq);
    var m', e' := NextMover(mover, enemy, sq), NextEnemy(mover, enemy, sq);
    assert m' + e' == mover + enemy + {sq};
    assert Empties(m', e') == Empties(mover, enemy) - {sq};
  }

  // ---------------------------------------------------------------------
  // Perfect play.

  /**
   * The perfect-play value of a position for the mover: the best move's
   * value; if the mover must pass, minus the enemy's best; if neither can
   * move, the final disc differential.
   */
  function Value(mover: Bitboard, enemy: Bitboard): int
    requires Disjoint(mover, enemy)
    decreases EmptyCount(mover, enemy), 2, 0
  {
    var mv := MoverValue(mover, enemy);
    if mv != NO_MOVE then mv
    else
      assert enemy + mover == mover + enemy;
      var ev := MoverValue(enemy, mover);
      if ev != NO_MOVE then -ev else TerminalScore(mover, enemy)
  }

  /** The best value among the mover's legal moves, NO_MOVE when there are none. */
  function MoverValue(mover: Bitboard, enemy: Bitboard): int
    requires Disjoint(mover, enemy)
    decreases EmptyCount(mover, enemy), 1, 0
  {
    BestOf(LegalMoves(mover, enemy),
           sq => if IsLegal(mover, enemy, sq) then ChildValue(mover, enemy, sq) else NO_MOVE)
  }

  /** The largest f(sq) over the moves, NO_MOVE for no move. */
  function BestOf(moves: Bitboard, f: int -> int): int
    decreases |moves|
  {
    if moves == {} then NO_MOVE
    else
      var sq := Lowest(moves);
      if moves == {sq} then f(sq) else Max(f(sq), BestOf(moves - {sq}, f))
  }

  /** The value for the mover of playing the legal move sq. */
  function ChildValue(mover: Bitboard, enemy: Bitboard, sq: int): int
    requires Disjoint(mover, enemy) && IsLegal(mover, enemy, sq)
    decreases EmptyCount(mover, enemy), 0, 0
  {
    PlayFacts(mover, enemy, sq);
    -Value(NextMover(mover, enemy, sq), NextEnemy(mover, enemy, sq))
  }

  /** With no empty square left, nobody can move. */
  lemma NoEmptiesNoMoves(mover: Bitboard, enemy: Bitboard)
    requires Disjoint(mover, enemy) && EmptyCount(mover, enemy) == 0
    ensures LegalMoves(mover, enemy) == {}
  {
    forall sq | sq in ALL
      ensures !IsLegal(mover, enemy, sq)
    {
      assert sq !in Empties(mover, enemy);
    }
  }

  /**
   * BestOf is the maximum over the moves: no move beats it, and when there
   * is a move, one of them attains it.
   */
  lemma {:induction false} BestOfIsMax(moves: Bitboard, f: int -> int)
    ensures moves == {} ==> BestOf(moves, f) == NO_MOVE
    ensures forall sq :: sq in moves ==> f(sq) <= BestOf(moves, f)
    ensures moves != {} ==> exists sq :: sq in moves && f(sq) == BestOf(moves, f)
    decreases |moves|
  {
    if moves != {} {
      var sq := Lowest(moves);
      var rest := moves - {sq};
      BestOfIsMax(rest, f);
      if rest != {} && BestOf(rest, f) > f(sq) {
        var w :| w in rest && f(w) == BestOf(rest, f);
        assert w in moves;
      } else {
        assert f(sq) == BestOf(moves, f);
      }
    }
  }

  /** MoverValue is the maximum of ChildValue over the legal moves. */
  lemma MoverValueIsMax(mover: Bitboard, enemy: Bitboard)
    requires Disjoint(mover, enemy)
    ensures LegalMoves(mover, enemy) == {} ==> MoverValue(mover, enemy) == NO_MOVE
    ensures forall sq :: IsLegal(mover, enemy, sq) ==> ChildValue(mover, enemy, sq) <= MoverValue(mover, enemy)
    ensures LegalMoves(mover, enemy) != {} ==>
      exists sq :: IsLegal(mover, enemy, sq) && ChildValue(mover, enemy, sq) == MoverValue(mover, enemy)
  {
    BestOfIsMax(LegalMoves(mover, enemy),
                sq => if IsLegal(mover, enemy, sq) then ChildValue(mover, enemy, sq) else NO_MOVE);
  }

  /**
   * Perfect-play values lie in [-64, 64], and MoverValue is NO_MOVE
   * exactly when the mover has no legal move.
   */
  lemma {:induction false} ValueBounds(mover: Bitboard, enemy: Bitboard)
    requires Disjoint(mover, enemy)
    ensures -64 <= Value(mover, enemy) <= 64
    decreases EmptyCount(mover, enemy), 1
  {
    MoverValueBounds(mover, enemy);
    assert enemy + mover == mover + enemy;
    MoverValueBounds(enemy, mover);
    DiscCount(mover, enemy);
  }

  lemma {:induction false} MoverValueBounds(mover: Bitboard, enemy: Bitboard)
    requires Disjoint(mover, enemy)
    ensures MoverValue(mover, enemy) == NO_MOVE <==> LegalMoves(mover, enemy) == {}
    ensures MoverValue(mover, enemy) != NO_MOVE ==> -64 <= MoverValue(mover, enemy) <= 64
    decreases EmptyCount(mover, enemy), 0
  {
    MoverValueIsMax(mover, enemy);
    if LegalMoves(mover, enemy) != {} {
      var w :| IsLegal(mover, enemy, w) && ChildValue(mover, enemy, w) == MoverValue(mover, enemy);
      PlayFacts(mover, enemy, w);
      ValueBounds(NextMover(mover, enemy, w), NextEnemy(mover, enemy, w));
    }
  }

  /** The value of each legal move lies in [-64, 64]. */
  lemma ChildValueBounds(mover: Bitboard, enemy: Bitboard, sq: int)
    requires Disjoint(mover, enemy) && IsLegal(mover, enemy, sq)
    ensures -64 <= ChildValue(mover, enemy, sq) <= 64
  {
    PlayFacts(mover, enemy, sq);
    ValueBounds(NextMover(mover, enemy, sq), NextEnemy(mover, enemy, sq));
  }

  /** A full-board position is worth its disc differential. */
  lemma FullBoardValue(mover: Bitboard, enemy: Bitboard)
    requires Disjoint(mover, enemy) && EmptyCount(mover, enemy) == 0
    ensures Value(mover, enemy) == TerminalScore(mover, enemy)
  {
    NoEmptiesNoMoves(mover, enemy);
    assert enemy + mover == mover + enemy;
    NoEmptiesNoMoves(enemy, mover);
    MoverValueBounds(mover, enemy);
    MoverValueBounds(enemy, mover);
  }

  // ---------------------------------------------------------------------
  // Fail-soft alpha-beta.

  /**
   * r is a fail-soft alpha-beta result for value v searched with window
   * (alpha, beta): exact inside the window, and on the right side of it,
   * but no further than v, outside.
   */
  predicate FailSoft(r: int, v: int, alpha: int, beta: int)
  {
    (v >= beta ==> beta <= r <= v) &&
    (alpha <= v <= beta ==> r == v) &&
    (v <= alpha ==> v <= r <= alpha)
  }

  /** Negamax: a child's fail-soft result negated is a fail-soft result for the parent. */
  lemma FailSoftNegate(r: int, v: int, alpha: int, beta: int)
    requires FailSoft(r, v, -beta, -alpha)
    ensures FailSoft(-r, -v, alpha, beta)
  {
  }

  /** A search over a window that holds every value returns the value itself. */
  lemma FailSoftExact(r: int, v: int)
    requires -64 <= v <= 64 && FailSoft(r, v, -64, 64)
    ensures r == v
  {
  }

  /**
   * A result is on the same side of the window as the value, so a result
   * strictly inside the window is the value.
   */
  lemma FailSoftSides(r: int, v: int, alpha: int, beta: int)
    requires alpha < beta && FailSoft(r, v, alpha, beta)
    ensures r >= beta ==> v >= r
    ensures r <= alpha ==> v <= r
    ensures alpha < r < beta ==> r == v
  {
  }
}
