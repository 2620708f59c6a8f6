/**
 * `Solver`: the exact endgame solver. It searches the game tree to its
 * end with fail-soft alpha-beta, using parity ordering, a transposition
 * table, move sorting and Negascout according to the number of empties,
 * and special code for the last two and three empties. Every search
 * method is proved to return a fail-soft result for the perfect-play
 * value defined in module Game.
 */
module Solvers {
  import opened Bitboards
  import opened Rays
  import opened Game
  import opened Optional
  import opened Squares
  import opened EmptySquares
  import opened EndgameHash
  import opened EndgameSearch
  import opened MoveSorters

  /** From this many empties on, moves into odd parity regions are tried first. */
  const MIN_PARITY_DEPTH: nat := 5
  /** From this many empties on, the transposition table is used. */
  const MIN_HASH_DEPTH: nat := 6
  /** From this many empties on, moves after the first are searched with a null window. */
  const MIN_NEGASCOUT_DEPTH: nat := 10
  /** From this many empties on, the move sort checks for enhanced transposition cutoffs. */
  const MIN_ETC_DEPTH: nat := MIN_HASH_DEPTH + 1
  /** From this many empties on, the moves are fully sorted. */
  const MIN_SORT_DEPTH: nat := 6

  /** `Result`: the game value and a best move. */
  datatype SolveResult = SolveResult(score: int, sq: int)

  /** `getBit(parity, sq)`. */
  function ParityBit(parity: Bitboard, sq: int): int
  {
    if sq in parity then 1 else 0
  }

  /** A list of the empties of length one or two names them. */
  lemma ShortList(s: seq<int>, mover: Bitboard, enemy: Bitboard)
    requires ListsEmpties(s, mover, enemy)
    ensures |s| == 1 ==> Empties(mover, enemy) == {s[0]}
    ensures |s| == 2 ==> Empties(mover, enemy) == {s[0], s[1]} && s[0] != s[1]
  {
    if |s| == 1 {
      forall x
        ensures x in Empties(mover, enemy) <==> x == s[0]
      {
        assert x in s <==> x == s[0];
      }
    } else if |s| == 2 {
      forall x
        ensures x in Empties(mover, enemy) <==> x == s[0] || x == s[1]
      {
        assert x in s <==> x == s[0] || x == s[1];
      }
    }
  }

  /**
   * The closed form of `solve1`: with one empty square the result is
   * twice the final disc count of the side that gets to move there, or
   * the plain differential when neither can.
   */
  lemma OneEmptyValue(mover: Bitboard, enemy: Bitboard, sq: int)
    requires Disjoint(mover, enemy) && Empties(mover, enemy) == {sq}
    ensures sq in ALL
    ensures Value(mover, enemy) ==
      if IsLegal(mover, enemy, sq) then 2 * |mover + RefFlips(mover, enemy, sq)| - 62
      else if IsLegal(enemy, mover, sq) then 62 - 2 * |enemy + RefFlips(enemy, mover, sq)|
      else 2 * |mover| - 63
  {
    assert sq in Empties(mover, enemy);
    if IsLegal(mover, enemy, sq) {
      OneEmptyMover(mover, enemy, sq);
    } else if IsLegal(enemy, mover, sq) {
      OneEmptyEnemy(mover, enemy, sq);
    } else {
      OneEmptyNeither(mover, enemy, sq);
    }
  }

  /** One empty square that the mover can play: the value of that move. */
  lemma OneEmptyMover(mover: Bitboard, enemy: Bitboard, sq: int)
    requires Disjoint(mover, enemy) && Empties(mover, enemy) == {sq} && IsLegal(mover, enemy, sq)
    ensures Value(mover, enemy) == 2 * |mover + RefFlips(mover, enemy, sq)| - 62
  {
    MoverValueIsMax(mover, enemy);
    MoverValueBounds(mover, enemy);
    OnlyMove(mover, enemy, sq);
    assert MoverValue(mover, enemy) == ChildValue(mover, enemy, sq);
  }

  /** One empty square that only the enemy can play: minus the value of its move. */
  lemma OneEmptyEnemy(mover: Bitboard, enemy: Bitboard, sq: int)
    requires Disjoint(mover, enemy) && Empties(mover, enemy) == {sq}
    requires !IsLegal(mover, enemy, sq) && IsLegal(enemy, mover, sq)
    ensures Value(mover, enemy) == 62 - 2 * |enemy + RefFlips(enemy, mover, sq)|
  {
    assert enemy + mover == mover + enemy;
    NoOtherMove(mover, enemy, sq);
    MoverValueBounds(mover, enemy);
    MoverValueIsMax(enemy, mover);
    MoverValueBounds(enemy, mover);
    OnlyMove(enemy, mover, sq);
    assert MoverValue(enemy, mover) == ChildValue(enemy, mover, sq);
  }

  /** One empty square that nobody can play: the final differential, the empty counting for nobody. */
  lemma OneEmptyNeither(mover: Bitboard, enemy: Bitboard, sq: int)
    requires Disjoint(mover, enemy) && Empties(mover, enemy) == {sq}
    requires !IsLegal(mover, enemy, sq) && !IsLegal(enemy, mover, sq)
    ensures Value(mover, enemy) == 2 * |mover| - 63
  {
    assert enemy + mover == mover + enemy;
    NoOtherMove(mover, enemy, sq);
    NoOtherMove(enemy, mover, sq);
    MoverValueBounds(mover, enemy);
    MoverValueBounds(enemy, mover);
    DiscCount(mover, enemy);
  }

  /** With one empty square, a side that cannot play there has no move at all. */
  lemma NoOtherMove(mover: Bitboard, enemy: Bitboard, sq: int)
    requires Disjoint(mover, enemy) && Empties(mover, enemy) == {sq} && !IsLegal(mover, enemy, sq)
    ensures LegalMoves(mover, enemy) == {}
  {
    assert LegalMoves(mover, enemy) <= Empties(mover, enemy);
    assert sq !in LegalMoves(mover, enemy);
  }

  /** The value of the only move on a one-empty board, by counting discs. */
  lemma OnlyMove(mover: Bitboard, enemy: Bitboard, sq: int)
    requires Disjoint(mover, enemy) && Empties(mover, enemy) == {sq} && IsLegal(mover, enemy, sq)
    ensures ChildValue(mover, enemy, sq) == 2 * |mover + RefFlips(mover, enemy, sq)| - 62
    ensures forall x :: IsLegal(mover, enemy, x) ==> x == sq
  {
    forall x | IsLegal(mover, enemy, x)
      ensures x == sq
    {
      assert x in Empties(mover, enemy);
    }
    var f := RefFlips(mover, enemy, sq);
    PlayFacts(mover, enemy, sq);
    var m', e' := NextMover(mover, enemy, sq), NextEnemy(mover, enemy, sq);
    FullBoardValue(m', e');
    DiscCount(mover, enemy);
    DisjointUnionCard(mover, f);
    DisjointUnionCard(mover + f, {sq});
    assert |enemy - f| == |enemy| - |f|;
  }

  /** With two empty squares the mover's value is the better of its moves there. */
  lemma TwoEmptiesMoverValue(mover: Bitboard, enemy: Bitboard, e1: int, e2: int)
    requires Disjoint(mover, enemy) && Empties(mover, enemy) == {e1, e2}
    ensures MoverValue(mover, enemy) ==
      if IsLegal(mover, enemy, e1) && IsLegal(mover, enemy, e2) then Max(ChildValue(mover, enemy, e1), ChildValue(mover, enemy, e2))
      else if IsLegal(mover, enemy, e1) then ChildValue(mover, enemy, e1)
      else if IsLegal(mover, enemy, e2) then ChildValue(mover, enemy, e2)
      else NO_MOVE
  {
    MoverValueIsMax(mover, enemy);
    forall x | IsLegal(mover, enemy, x)
      ensures x == e1 || x == e2
    {
      assert x in Empties(mover, enemy);
    }
    if !IsLegal(mover, enemy, e1) && !IsLegal(mover, enemy, e2) {
      assert LegalMoves(mover, enemy) == {};
    }
  }

  /**
   * A legal move with two empties left leads to the position with just the
   * other one empty, worth minus the move's value.
   */
  lemma LastTwoChild(mover: Bitboard, enemy: Bitboard, sq: int, other: int)
    requires Disjoint(mover, enemy) && Empties(mover, enemy) == {sq, other} && sq != other
    requires IsLegal(mover, enemy, sq)
    ensures var f := RefFlips(mover, enemy, sq);
      Disjoint(enemy - f, mover + f + {sq}) &&
      Empties(enemy - f, mover + f + {sq}) == {other} &&
      ChildValue(mover, enemy, sq) == -Value(enemy - f, mover + f + {sq}) &&
      -64 <= ChildValue(mover, enemy, sq) <= 64
  {
    MoveFacts(mover, enemy, sq);
    ChildValueBounds(mover, enemy, sq);
  }

  /**
   * `moverResult2`'s guarantee, exact or a cutoff at or above beta, is a
   * fail-soft result for any window below beta.
   */
  lemma CutoffIsFailSoft(r: int, v: int, alpha: int, beta: int)
    requires alpha < beta && (r == v || beta <= r <= v)
    ensures FailSoft(r, v, alpha, beta)
  {
  }

  /**
   * `moverResultWithSorting`'s outcome for the full window (-64, 64) when
   * the mover has a move: a best move exists, and it and the result are
   * worth exactly the value of the position.
   */
  lemma FullWindowBest(mover: Bitboard, enemy: Bitboard, score: int, iBestMove: int, moves: seq<SorterMove>)
    requires Disjoint(mover, enemy) && LegalMoves(mover, enemy) != {}
    requires MoverResult(score, mover, enemy, -64, 64)
    requires -1 <= iBestMove < |moves| && (iBestMove == -1 <==> score == NO_MOVE)
    requires iBestMove >= 0 ==>
      IsLegal(mover, enemy, moves[iBestMove].sq) &&
      FailSoft(score, ChildValue(mover, enemy, moves[iBestMove].sq), -64, 64)
    ensures 0 <= iBestMove < |moves| && score == Value(mover, enemy)
    ensures IsLegal(mover, enemy, moves[iBestMove].sq) && ChildValue(mover, enemy, moves[iBestMove].sq) == score
  {
    MoverValueBounds(mover, enemy);
    FailSoftExact(score, MoverValue(mover, enemy));
    ChildValueBounds(mover, enemy, moves[iBestMove].sq);
    FailSoftExact(score, ChildValue(mover, enemy, moves[iBestMove].sq));
  }

  /**
   * A move of the sorter: on the listed square its node points to, legal,
   * with its flips, and with the enemy's replies as the moves to check.
   */
  ghost predicate GoodMove(mover: Bitboard, enemy: Bitboard, s: seq<int>, m: SorterMove)
    requires Disjoint(mover, enemy)
  {
    m.node.Some? && m.node.value < |s| && s[m.node.value] == m.sq &&
    IsLegal(mover, enemy, m.sq) && m.flips == RefFlips(mover, enemy, m.sq) &&
    m.enemyMoves == LegalMoves(enemy - m.flips, mover + m.flips + {m.sq})
  }

  /** Entry j of the sorter's moves, when there is one, is a GoodMove. */
  ghost predicate GoodAt(mover: Bitboard, enemy: Bitboard, s: seq<int>, moves: seq<SorterMove>, j: int)
    requires Disjoint(mover, enemy)
  {
    0 <= j < |moves| ==> GoodMove(mover, enemy, s, moves[j])
  }

  /** A legal move on sq is among the sorter's moves. */
  ghost predicate CoveredBy(mover: Bitboard, enemy: Bitboard, moves: seq<SorterMove>, sq: int)
  {
    IsLegal(mover, enemy, sq) ==> sq in MoveSquares(moves)
  }

  /** The squares of the sorter's moves. */
  ghost function MoveSquares(c: seq<SorterMove>): set<int>
  {
    set m | m in c :: m.sq
  }

  /** Every legal move in movesToCheck on a listed square is a sorter move. */
  lemma ListedCovered(s: seq<int>, mover: Bitboard, enemy: Bitboard, movesToCheck: Bitboard, c: seq<SorterMove>)
    requires Disjoint(mover, enemy) && ListsEmpties(s, mover, enemy)
    requires forall j :: 0 <= j < |s| && s[j] in movesToCheck && IsLegal(mover, enemy, s[j]) ==> s[j] in MoveSquares(c)
    ensures forall sq :: IsLegal(mover, enemy, sq) && sq in movesToCheck ==> sq in MoveSquares(c)
  {
    forall sq | IsLegal(mover, enemy, sq) && sq in movesToCheck
      ensures sq in MoveSquares(c)
    {
      assert sq in Empties(mover, enemy) && sq in s;
      var j :| 0 <= j < |s| && s[j] == sq;
    }
  }

  /** Visiting every sorter move visits every square of MoveSquares. */
  lemma AllVisited(c: seq<SorterMove>, visited: set<int>)
    requires forall j :: 0 <= j < |c| ==> c[j].sq in visited
    ensures MoveSquares(c) <= visited
  {
    forall x | x in MoveSquares(c)
      ensures x in visited
    {
      var m :| m in c && m.sq == x;
      var j :| 0 <= j < |c| && c[j] == m;
    }
  }

  class Solver {
    /** The empty squares in search order; a node is out of the list while its move is searched. */
    var empties: ListOfEmpties
    /** The transposition table. */
    const hashTable: HashTable
    /** `FixedMoveOrdering.masks`: the regions whose empties are listed in turn. */
    const masks: seq<Bitboard>
    /** The ordering score the move sorter gives a move on sq (mover, enemy, parity, sq). */
    const orderScore: (Bitboard, Bitboard, Bitboard, int) -> int

    /** The state a search of (mover, enemy) with n empties starts from. */
    ghost predicate Ready(mover: Bitboard, enemy: Bitboard, n: int)
      reads this, empties, hashTable
    {
      Disjoint(mover, enemy) && n == EmptyCount(mover, enemy) &&
      ListsEmpties(empties.squares, mover, enemy) && hashTable.Sound()
    }

    /** `new Solver()`, with the move-ordering regions and the sorter's scoring. */
    constructor(masks: seq<Bitboard>, orderScore: (Bitboard, Bitboard, Bitboard, int) -> int)
      ensures this.masks == masks && this.orderScore == orderScore
      ensures fresh(hashTable) && hashTable.entries == map[] && hashTable.Sound()
    {
      this.masks := masks;
      this.orderScore := orderScore;
      hashTable := new HashTable();
      empties := new ListOfEmpties();
      new;
      Clear();
    }

    /** `clear()`: empty the transposition table. */
    method Clear()
      modifies hashTable
      ensures hashTable.entries == map[] && hashTable.Sound()
    {
      hashTable.Clear();
    }

    /** `solve(mover, enemy)`: the value of the game to the mover. */
    method Solve(mover: Bitboard, enemy: Bitboard) returns (r: int)
      requires Disjoint(mover, enemy) && Partition(masks) && hashTable.Sound()
      modifies this, hashTable
      ensures hashTable.Sound()
      ensures r == Value(mover, enemy)
    {
      empties := CreateEmptiesList(mover, enemy, masks);
      OrderedEmptiesList(mover, enemy, masks);
      r := SolveWindow(mover, enemy, -64, 64);
      ValueBounds(mover, enemy);
      FailSoftExact(r, Value(mover, enemy));
    }

    /**
     * `solveWithMove(mover, enemy)`: the value of the game and a move that
     * attains it; IllegalArgumentException when the mover has no legal move.
     */
    method SolveWithMove(mover: Bitboard, enemy: Bitboard) returns (res: Result<SolveResult>)
      requires Disjoint(mover, enemy) && Partition(masks) && hashTable.Sound()
      modifies this, hashTable
      ensures hashTable.Sound()
      ensures res.Failure? <==> LegalMoves(mover, enemy) == {}
      ensures res.Success? ==>
        res.value.score == Value(mover, enemy) && IsLegal(mover, enemy, res.value.sq) &&
        ChildValue(mover, enemy, res.value.sq) == res.value.score
    {
      if LegalMoves(mover, enemy) == {} {
        return Failure("mover must have a legal move");
      }
      empties := CreateEmptiesList(mover, enemy, masks);
      OrderedEmptiesList(mover, enemy, masks);
      var nEmpties := |Not(mover + enemy)|;
      ListedAreEmpty(empties.squares, mover, enemy);
      var parity := CalcParity(empties);
      var score, iBestMove, moves := MoverResultWithSorting(mover, enemy, -64, 64, nEmpties, parity, ALL);
      FullWindowBest(mover, enemy, score, iBestMove, moves);
      var sq := moves[iBestMove].sq;
      res := Success(SolveResult(score, sq));
    }

    /** `solve(mover, enemy, alpha, beta)`: dispatch on the number of empties. */
    method SolveWindow(mover: Bitboard, enemy: Bitboard, alpha: int, beta: int) returns (r: int)
      requires -64 <= alpha < beta <= 64 && Ready(mover, enemy, EmptyCount(mover, enemy))
      modifies empties, hashTable
      ensures empties.squares == old(empties.squares) && hashTable.Sound()
      ensures FailSoft(r, Value(mover, enemy), alpha, beta)
    {
      var nEmpty := |Not(mover + enemy)|;
      ListLength(empties.squares, mover, enemy);
      ShortList(empties.squares, mover, enemy);
      if nEmpty == 0 {
        FullBoardValue(mover, enemy);
        r := |mover| - |enemy|;
      } else if nEmpty == 1 {
        r := Solve1(mover, enemy, empties.squares[0]);
      } else if nEmpty == 2 {
        r := Solve2(mover, enemy, alpha, beta, empties.squares[0], empties.squares[1]);
      } else if nEmpty < MIN_PARITY_DEPTH {
        r := SolveNoParity(mover, enemy, alpha, beta, nEmpty);
      } else {
        ListedAreEmpty(empties.squares, mover, enemy);
        var parity := CalcParity(empties);
        r := SolveDeep(mover, enemy, alpha, beta, nEmpty, parity, ALL);
      }
    }

    /** `solveDeep`: the mover's result, or the enemy's after a pass, or the final score. */
    method SolveDeep(mover: Bitboard, enemy: Bitboard, alpha: int, beta: int, nEmpties: nat, parity: Bitboard,
                     movesToCheck: Bitboard) returns (r: int)
      requires -64 <= alpha < beta <= 64 && Ready(mover, enemy, nEmpties)
      requires LegalMoves(mover, enemy) <= movesToCheck
      modifies empties, hashTable
      ensures empties.squares == old(empties.squares) && hashTable.Sound()
      ensures FailSoft(r, Value(mover, enemy), alpha, beta)
      decreases nEmpties, 5
    {
      if nEmpties < MIN_PARITY_DEPTH {
        r := SolveNoParity(mover, enemy, alpha, beta, nEmpties);
        return;
      }
      var result := MoverResultDeep(mover, enemy, alpha, beta, nEmpties, parity, movesToCheck);
      assert enemy + mover == mover + enemy;
      if result == NO_MOVE {
        var enemyResult := MoverResultDeep(enemy, mover, -beta, -alpha, nEmpties, parity, ALL);
        PassValue(mover, enemy, alpha, beta, result, enemyResult);
        if enemyResult == NO_MOVE {
          r := |mover| - |enemy|;
        } else {
          r := -enemyResult;
        }
      } else {
        PassValue(mover, enemy, alpha, beta, result, result);
        r := result;
      }
    }

    /** `moverResultDeep`: parity ordering below MIN_SORT_DEPTH, the hashed and sorted search from it on. */
    method MoverResultDeep(mover: Bitboard, enemy: Bitboard, alpha: int, beta: int, nEmpties: nat, parity: Bitboard,
                           movesToCheck: Bitboard) returns (r: int)
      requires -64 <= alpha < beta <= 64 && Ready(mover, enemy, nEmpties)
      requires LegalMoves(mover, enemy) <= movesToCheck
      modifies empties, hashTable
      ensures empties.squares == old(empties.squares) && hashTable.Sound()
      ensures MoverResult(r, mover, enemy, alpha, beta)
      decreases nEmpties, 4
    {
      if nEmpties < MIN_SORT_DEPTH {
        r := MoverResultNoSort(mover, enemy, alpha, beta, nEmpties, parity, movesToCheck);
      } else {
        r := MoverResultWithHash(mover, enemy, alpha, beta, nEmpties, parity, movesToCheck);
      }
    }

    /**
     * `moverResultNoSort`: two passes over the list, first the squares in
     * odd parity regions, then the others.
     */
    method MoverResultNoSort(mover: Bitboard, enemy: Bitboard, alpha: int, beta: int, nEmpties: nat, parity: Bitboard,
                             movesToCheck: Bitboard) returns (r: int)
      requires -64 <= alpha < beta <= 64 && Ready(mover, enemy, nEmpties)
      requires LegalMoves(mover, enemy) <= movesToCheck
      modifies empties, hashTable
      ensures empties.squares == old(empties.squares) && hashTable.Sound()
      ensures MoverResult(r, mover, enemy, alpha, beta)
      decreases nEmpties, 3
    {
      ghost var s := empties.squares;
      var result := NO_MOVE;
      var a := alpha;
      ghost var visited: set<int> := {};
      ghost var best := -1;
      SearchStart(mover, enemy, alpha, beta);
      var desiredParity := 1;
      while desiredParity >= 0
        invariant -1 <= desiredParity <= 1
        invariant empties.squares == s && hashTable.Sound()
        invariant Searched(mover, enemy, visited, alpha, a, beta, result, best)
        invariant forall j :: (0 <= j < |s| && s[j] in movesToCheck && IsLegal(mover, enemy, s[j]) &&
                               ParityBit(parity, s[j]) > desiredParity) ==> s[j] in visited
        decreases desiredParity + 1
      {
        var cut;
        cut, result, a, visited, best := NoSortPass(mover, enemy, alpha, beta, nEmpties, parity, movesToCheck,
                                                    desiredParity, result, a, visited, best);
        if cut {
          return result;
        }
        desiredParity := desiredParity - 1;
      }
      ListedMoves(s, mover, enemy, visited);
      SearchFinish(mover, enemy, visited, alpha, a, beta, result, best);
      r := result;
    }

    /**
     * One pass of `moverResultNoSort` over the list: the moves to check
     * whose parity bit is desiredParity, continuing the search state
     * (result, alpha, visited, best); cut when a move reached beta.
     */
    method NoSortPass(mover: Bitboard, enemy: Bitboard, alpha0: int, beta: int, nEmpties: nat, parity: Bitboard,
                      movesToCheck: Bitboard, desiredParity: int, result0: int, alpha1: int,
                      ghost visited0: set<int>, ghost best0: int)
      returns (cut: bool, result: int, a: int, ghost visited: set<int>, ghost best: int)
      requires -64 <= alpha1 < beta <= 64 && Ready(mover, enemy, nEmpties)
      requires Searched(mover, enemy, visited0, alpha0, alpha1, beta, result0, best0)
      requires forall j :: (0 <= j < |empties.squares| && empties.squares[j] in movesToCheck &&
                            IsLegal(mover, enemy, empties.squares[j]) &&
                            ParityBit(parity, empties.squares[j]) > desiredParity) ==> empties.squares[j] in visited0
      modifies empties, hashTable
      ensures empties.squares == old(empties.squares) && hashTable.Sound()
      ensures cut ==> MoverResult(result, mover, enemy, alpha0, beta)
      ensures !cut ==> Searched(mover, enemy, visited, alpha0, a, beta, result, best)
      ensures !cut ==> forall j :: (0 <= j < |empties.squares| && empties.squares[j] in movesToCheck &&
                                    IsLegal(mover, enemy, empties.squares[j]) &&
                                    ParityBit(parity, empties.squares[j]) >= desiredParity) ==> empties.squares[j] in visited
      decreases nEmpties, 2
    {
      ghost var s := empties.squares;
      cut, result, a, visited, best := false, result0, alpha1, visited0, best0;
      for k := 0 to |empties.squares|
        invariant empties.squares == s && hashTable.Sound()
        invariant Searched(mover, enemy, visited, alpha0, a, beta, result, best)
        invariant forall j :: (0 <= j < |s| && s[j] in movesToCheck && IsLegal(mover, enemy, s[j]) &&
                               (ParityBit(parity, s[j]) > desiredParity ||
                                (ParityBit(parity, s[j]) == desiredParity && j < k))) ==> s[j] in visited
      {
        var sq := empties.squares[k];
        if sq in movesToCheck && ParityBit(parity, sq) == desiredParity {
          var sub := NoSortMove(mover, enemy, a, beta, nEmpties, parity, k);
          if sub.Some? {
            var subResult := sub.value;
            SearchStep(mover, enemy, visited, alpha0, a, beta, result, best, sq, subResult);
            if subResult > result {
              result := subResult;
              best := sq;
              if subResult > a {
                if subResult >= beta {
                  return true, result, a, visited, best;
                }
                a := subResult;
              }
            }
            visited := visited + {sq};
          }
        }
      }
    }

    /**
     * The move of `moverResultNoSort` on node k: None when it is illegal;
     * otherwise the node is taken out while `solveDeep` searches the child
     * with the parity of the square's region flipped and every move to check.
     */
    method NoSortMove(mover: Bitboard, enemy: Bitboard, alpha: int, beta: int, nEmpties: nat, parity: Bitboard, k: nat)
      returns (sub: Option<int>)
      requires -64 <= alpha < beta <= 64 && Ready(mover, enemy, nEmpties) && k < |empties.squares|
      modifies empties, hashTable
      ensures empties.squares == old(empties.squares) && hashTable.Sound()
      ensures sub.Some? <==> IsLegal(mover, enemy, empties.squares[k])
      ensures sub.Some? ==> FailSoft(sub.value, ChildValue(mover, enemy, empties.squares[k]), alpha, beta)
      decreases nEmpties, 1
    {
      ghost var s := empties.squares;
      var sq := empties.squares[k];
      ListMove(s, k, mover, enemy);
      MoveFacts(mover, enemy, sq);
      var square := SquareOf(sq);
      var flips := CalcFlipsOf(square, mover, enemy);
      if flips == {} {
        return None;
      }
      var subMover := enemy - flips;
      var subEnemy := mover + flips + Placement(square);
      empties.Remove(k);
      var subValue := SolveDeep(subMover, subEnemy, -beta, -alpha, nEmpties - 1, Xor(parity, square.parityRegion), ALL);
      empties.Restore(k, sq);
      WithoutRestore(s, k);
      FailSoftNegate(subValue, Value(subMover, subEnemy), alpha, beta);
      sub := Some(-subValue);
    }

    /**
     * `moverResultWithHash`: answer from the transposition table when its
     * bounds decide the window, otherwise search the window narrowed to the
     * bounds and store what the search proved for the original window.
     */
    method MoverResultWithHash(mover: Bitboard, enemy: Bitboard, alpha: int, beta: int, nEmpties: nat, parity: Bitboard,
                               movesToCheck: Bitboard) returns (r: int)
      requires -64 <= alpha < beta <= 64 && Ready(mover, enemy, nEmpties)
      requires LegalMoves(mover, enemy) <= movesToCheck
      modifies empties, hashTable
      ensures empties.squares == old(empties.squares) && hashTable.Sound()
      ensures MoverResult(r, mover, enemy, alpha, beta)
      decreases nEmpties, 3
    {
      var searchAlpha, searchBeta := alpha, beta;
      var entry: Option<Entry> := None;
      MoverValueBounds(mover, enemy);
      if nEmpties >= MIN_HASH_DEPTH {
        entry := hashTable.Find(mover, enemy);
        if entry.Some? {
          var e := entry.value;
          HashCutoffs(e, MoverValue(mover, enemy), alpha, beta);
          if e.min >= beta {
            return e.min;
          }
          if e.max <= alpha {
            return e.max;
          }
          if e.min == e.max {
            return e.min;
          }
          if e.min > searchAlpha {
            searchAlpha := e.min;
          }
          if e.max < searchBeta {
            searchBeta := e.max;
          }
          NarrowedWindowSize(e, MoverValue(mover, enemy), alpha, beta);
        }
      }
      var score, iBestMove, moves := MoverResultWithSorting(mover, enemy, searchAlpha, searchBeta, nEmpties, parity, movesToCheck);
      if entry.Some? {
        NarrowedWindow(entry.value, MoverValue(mover, enemy), alpha, beta, score);
      }
      if nEmpties >= MIN_HASH_DEPTH {
        hashTable.Store(mover, enemy, alpha, beta, score);
      }
      r := score;
    }

    /**
     * `createWithoutEtc` / `createWithEtc`: the legal moves among the listed
     * squares in movesToCheck, inserted with their ordering scores.
     */
    method CreateSorter(mover: Bitboard, enemy: Bitboard, parity: Bitboard, movesToCheck: Bitboard) returns (sorter: MoveSorter)
      requires Disjoint(mover, enemy) && ListsEmpties(empties.squares, mover, enemy)
      ensures fresh(sorter) && fresh(sorter.sorterMoves) && sorter.Valid()
      ensures Sorted(sorter.Contents())
      ensures forall m :: m in sorter.Contents() ==> GoodMove(mover, enemy, empties.squares, m)
      ensures forall sq :: IsLegal(mover, enemy, sq) && sq in movesToCheck ==> sq in MoveSquares(sorter.Contents())
    {
      var s := empties.squares;
      ListLength(s, mover, enemy);
      DiscCount(mover, enemy);
      sorter := new MoveSorter();
      ghost var c: seq<SorterMove> := [];
      for k := 0 to |s|
        invariant fresh(sorter) && fresh(sorter.sorterMoves) && sorter.Valid()
        invariant sorter.sorterMoves.Length == CAPACITY && sorter.size <= k
        invariant sorter.Contents() == c && Sorted(c)
        invariant forall m :: m in c ==> GoodMove(mover, enemy, s, m)
        invariant forall j :: 0 <= j < k && s[j] in movesToCheck && IsLegal(mover, enemy, s[j]) ==> s[j] in MoveSquares(c)
      {
        var sq := s[k];
        if sq in movesToCheck {
          var candidate := SorterCandidate(mover, enemy, parity, k);
          if candidate.Some? {
            var m := candidate.value;
            sorter.Insert(m.sq, m.score, m.flips, m.enemyMoves, m.node);
            InsertedElements(c, m);
            InsertedSorted(c, m);
            c := Inserted(c, m);
            assert m in c;
          }
        }
      }
      ListedCovered(s, mover, enemy, movesToCheck, c);
    }

    /**
     * The move the sorter gets for node k: None when it is illegal,
     * otherwise its square, ordering score, flips, the enemy's replies and
     * the node.
     */
    method SorterCandidate(mover: Bitboard, enemy: Bitboard, parity: Bitboard, k: nat) returns (m: Option<SorterMove>)
      requires Disjoint(mover, enemy) && ListsEmpties(empties.squares, mover, enemy) && k < |empties.squares|
      ensures m.Some? <==> IsLegal(mover, enemy, empties.squares[k])
      ensures m.Some? ==> GoodMove(mover, enemy, empties.squares, m.value) && m.value.sq == empties.squares[k]
      ensures m.Some? ==> m.value.score == orderScore(mover, enemy, parity, empties.squares[k])
    {
      var sq := empties.squares[k];
      ListMove(empties.squares, k, mover, enemy);
      MoveFacts(mover, enemy, sq);
      var square := SquareOf(sq);
      var flips := CalcFlipsOf(square, mover, enemy);
      if flips == {} {
        return None;
      }
      var enemyMoves := LegalMoves(enemy - flips, mover + flips + Placement(square));
      m := Some(SorterMove(sq, orderScore(mover, enemy, parity, sq), flips, enemyMoves, Some(k)));
    }

    /**
     * `moverResultWithSorting`: search the sorted moves, the later ones
     * with Negascout from MIN_NEGASCOUT_DEPTH on. Also returns the sorter's
     * moves and the index of the best one among them, -1 when there is no move.
     */
    method MoverResultWithSorting(mover: Bitboard, enemy: Bitboard, alpha: int, beta: int, nEmpties: nat, parity: Bitboard,
                                  movesToCheck: Bitboard) returns (score: int, iBestMove: int, moves: seq<SorterMove>)
      requires -64 <= alpha < beta <= 64 && Ready(mover, enemy, nEmpties)
      requires LegalMoves(mover, enemy) <= movesToCheck
      modifies empties, hashTable
      ensures empties.squares == old(empties.squares) && hashTable.Sound()
      ensures MoverResult(score, mover, enemy, alpha, beta)
      ensures -1 <= iBestMove < |moves|
      ensures iBestMove == -1 <==> score == NO_MOVE
      ensures iBestMove >= 0 ==>
        IsLegal(mover, enemy, moves[iBestMove].sq) &&
        FailSoft(score, ChildValue(mover, enemy, moves[iBestMove].sq), alpha, beta)
      decreases nEmpties, 2
    {
      var sorter := CreateSorter(mover, enemy, parity, movesToCheck);
      moves := sorter.sorterMoves[..sorter.size];
      forall j
        ensures GoodAt(mover, enemy, empties.squares, moves, j)
      {
        if 0 <= j < |moves| {
          assert moves[j] in moves;
        }
      }
      forall sq
        ensures CoveredBy(mover, enemy, moves, sq)
      {
        if IsLegal(mover, enemy, sq) {
          assert sq in LegalMoves(mover, enemy);
        }
      }
      score, iBestMove := SearchSorted(mover, enemy, alpha, beta, nEmpties, parity, moves);
    }

    /** The loop of `moverResultWithSorting` over the sorter's moves, each searched by SortedMove. */
    method SearchSorted(mover: Bitboard, enemy: Bitboard, alpha: int, beta: int, nEmpties: nat, parity: Bitboard,
                        moves: seq<SorterMove>) returns (score: int, iBestMove: int)
      requires -64 <= alpha < beta <= 64 && Ready(mover, enemy, nEmpties)
      requires forall j :: GoodAt(mover, enemy, empties.squares, moves, j)
      requires forall sq :: CoveredBy(mover, enemy, moves, sq)
      modifies empties, hashTable
      ensures empties.squares == old(empties.squares) && hashTable.Sound()
      ensures MoverResult(score, mover, enemy, alpha, beta)
      ensures -1 <= iBestMove < |moves|
      ensures iBestMove == -1 <==> score == NO_MOVE
      ensures iBestMove >= 0 ==>
        IsLegal(mover, enemy, moves[iBestMove].sq) &&
        FailSoft(score, ChildValue(mover, enemy, moves[iBestMove].sq), alpha, beta)
      decreases nEmpties, 1
    {
      ghost var s := empties.squares;
      score, iBestMove := NO_MOVE, -1;
      var a := alpha;
      ghost var visited: set<int> := {};
      ghost var best := -1;
      SearchStart(mover, enemy, alpha, beta);
      for i := 0 to |moves|
        invariant empties.squares == s && Ready(mover, enemy, nEmpties)
        invariant Searched(mover, enemy, visited, alpha, a, beta, score, best)
        invariant forall j :: 0 <= j < i ==> moves[j].sq in visited
        invariant -1 <= iBestMove < i && (iBestMove == -1 <==> visited == {})
        invariant iBestMove >= 0 ==> best == moves[iBestMove].sq
      {
        var move := moves[i];
        assert GoodAt(mover, enemy, s, moves, i);
        var sq := move.sq;
        var subResult := SortedMove(mover, enemy, a, beta, nEmpties, parity, move, i > 0 && nEmpties >= MIN_NEGASCOUT_DEPTH);
        SearchStep(mover, enemy, visited, alpha, a, beta, score, best, sq, subResult);
        if subResult > score {
          score := subResult;
          iBestMove := i;
          best := sq;
          if subResult > a {
            if subResult >= beta {
              return;
            }
            a := subResult;
          }
        }
        visited := visited + {sq};
      }
      AllVisited(moves, visited);
      forall sq | IsLegal(mover, enemy, sq)
        ensures sq in visited
      {
        assert CoveredBy(mover, enemy, moves, sq);
      }
      SearchFinish(mover, enemy, visited, alpha, a, beta, score, best);
    }

    /**
     * The move of `moverResultWithSorting`: take its node out and search
     * the child with `solveDeep`, the enemy's replies being the moves to
     * check; with `negascout`, first with a null window and again with the
     * rest of the window when the result lands inside it.
     */
    method SortedMove(mover: Bitboard, enemy: Bitboard, alpha: int, beta: int, nEmpties: nat, parity: Bitboard,
                      move: SorterMove, negascout: bool) returns (subResult: int)
      requires -64 <= alpha < beta <= 64 && Ready(mover, enemy, nEmpties)
      requires GoodMove(mover, enemy, empties.squares, move)
      modifies empties, hashTable
      ensures empties.squares == old(empties.squares) && hashTable.Sound()
      ensures FailSoft(subResult, ChildValue(mover, enemy, move.sq), alpha, beta)
      decreases nEmpties, 0
    {
      ghost var s := empties.squares;
      var k := move.node.value;
      var sq := move.sq;
      ListMove(s, k, mover, enemy);
      MoveFacts(mover, enemy, sq);
      var square := SquareOf(sq);
      var subMover := enemy - move.flips;
      var subEnemy := mover + move.flips + Placement(square);
      var subParity := Xor(parity, square.parityRegion);
      ghost var v := Value(subMover, subEnemy);
      empties.Remove(k);
      if negascout {
        var sub := SolveDeep(subMover, subEnemy, -alpha - 1, -alpha, nEmpties - 1, subParity, move.enemyMoves);
        FailSoftNegate(sub, v, alpha, alpha + 1);
        subResult := -sub;
        ghost var r1 := subResult;
        if subResult > alpha && subResult < beta {
          sub := SolveDeep(subMover, subEnemy, -beta, -subResult, nEmpties - 1, subParity, move.enemyMoves);
          FailSoftNegate(sub, v, r1, beta);
          subResult := -sub;
        }
        NullWindowSearch(-v, alpha, beta, r1, subResult);
      } else {
        var sub := SolveDeep(subMover, subEnemy, -beta, -alpha, nEmpties - 1, subParity, move.enemyMoves);
        FailSoftNegate(sub, v, alpha, beta);
        subResult := -sub;
      }
      empties.Restore(k, sq);
      WithoutRestore(s, k);
    }

    /** `solveNoParity`: as solveDeep, with the plain list order. */
    method SolveNoParity(mover: Bitboard, enemy: Bitboard, alpha: int, beta: int, nEmpties: nat) returns (r: int)
      requires -64 <= alpha < beta <= 64 && Ready(mover, enemy, nEmpties)
      modifies empties, hashTable
      ensures empties.squares == old(empties.squares) && hashTable.Sound()
      ensures FailSoft(r, Value(mover, enemy), alpha, beta)
      decreases nEmpties, 4
    {
      if nEmpties == 3 {
        r := Solve3(mover, enemy, alpha, beta);
        return;
      }
      var result := MoverResultNoParity(mover, enemy, alpha, beta, nEmpties);
      assert enemy + mover == mover + enemy;
      if result == NO_MOVE {
        var enemyResult := MoverResultNoParity(enemy, mover, -beta, -alpha, nEmpties);
        PassValue(mover, enemy, alpha, beta, result, enemyResult);
        if enemyResult == NO_MOVE {
          r := |mover| - |enemy|;
        } else {
          r := -enemyResult;
        }
      } else {
        PassValue(mover, enemy, alpha, beta, result, result);
        r := result;
      }
    }

    /** `moverResultNoParity`: the moves in list order. */
    method MoverResultNoParity(mover: Bitboard, enemy: Bitboard, alpha: int, beta: int, nEmpties: nat) returns (r: int)
      requires -64 <= alpha < beta <= 64 && Ready(mover, enemy, nEmpties)
      modifies empties, hashTable
      ensures empties.squares == old(empties.squares) && hashTable.Sound()
      ensures MoverResult(r, mover, enemy, alpha, beta)
      decreases nEmpties, 3
    {
      ghost var s := empties.squares;
      var count := |empties.squares|;
      var result := NO_MOVE;
      var a := alpha;
      ghost var visited: set<int> := {};
      ghost var best := -1;
      SearchStart(mover, enemy, alpha, beta);
      for k := 0 to count
        invariant empties.squares == s && hashTable.Sound()
        invariant Searched(mover, enemy, visited, alpha, a, beta, result, best)
        invariant forall j :: 0 <= j < k && IsLegal(mover, enemy, s[j]) ==> s[j] in visited
      {
        var sq := empties.squares[k];
        var sub := NoParityMove(mover, enemy, a, beta, nEmpties, k);
        if sub.Some? {
          var subResult := sub.value;
          SearchStep(mover, enemy, visited, alpha, a, beta, result, best, sq, subResult);
          if subResult > result {
            result := subResult;
            best := sq;
            if subResult > a {
              if subResult >= beta {
                return result;
              }
              a := subResult;
            }
          }
          visited := visited + {sq};
        }
      }
      ListedMoves(s, mover, enemy, visited);
      SearchFinish(mover, enemy, visited, alpha, a, beta, result, best);
      r := result;
    }

    /**
     * The body of `moverResultNoParity`'s loop for node k: None when the
     * move there is illegal; otherwise take the node out, search the child
     * with `solveNoParity`, put the node back and return the negated result.
     */
    method NoParityMove(mover: Bitboard, enemy: Bitboard, alpha: int, beta: int, nEmpties: nat, k: nat)
      returns (sub: Option<int>)
      requires -64 <= alpha < beta <= 64 && Ready(mover, enemy, nEmpties) && k < |empties.squares|
      modifies empties, hashTable
      ensures empties.squares == old(empties.squares) && hashTable.Sound()
      ensures sub.Some? <==> IsLegal(mover, enemy, empties.squares[k])
      ensures sub.Some? ==> FailSoft(sub.value, ChildValue(mover, enemy, empties.squares[k]), alpha, beta)
      decreases nEmpties, 2
    {
      ghost var s := empties.squares;
      var sq := empties.squares[k];
      ListMove(s, k, mover, enemy);
      MoveFacts(mover, enemy, sq);
      var square := SquareOf(sq);
      var flips := CalcFlipsOf(square, mover, enemy);
      if flips == {} {
        return None;
      }
      var subMover := enemy - flips;
      var subEnemy := mover + flips + Placement(square);
      empties.Remove(k);
      var subValue := SolveNoParity(subMover, subEnemy, -beta, -alpha, nEmpties - 1);
      empties.Restore(k, sq);
      WithoutRestore(s, k);
      FailSoftNegate(subValue, Value(subMover, subEnemy), alpha, beta);
      sub := Some(-subValue);
    }

    /** `solve3`: three empties. */
    method Solve3(mover: Bitboard, enemy: Bitboard, alpha: int, beta: int) returns (r: int)
      requires -64 <= alpha < beta <= 64 && Ready(mover, enemy, 3)
      modifies empties
      ensures empties.squares == old(empties.squares)
      ensures FailSoft(r, Value(mover, enemy), alpha, beta)
    {
      var result := MoverResult3(mover, enemy, alpha, beta);
      assert enemy + mover == mover + enemy;
      if result == NO_MOVE {
        var enemyResult := MoverResult3(enemy, mover, -beta, -alpha);
        PassValue(mover, enemy, alpha, beta, result, enemyResult);
        if enemyResult == NO_MOVE {
          r := |mover| - |enemy|;
        } else {
          r := -enemyResult;
        }
      } else {
        PassValue(mover, enemy, alpha, beta, result, result);
        r := result;
      }
    }

    /** `moverResult3`: each move leads to a two-empties position, given its two squares from the list. */
    method MoverResult3(mover: Bitboard, enemy: Bitboard, alpha: int, beta: int) returns (r: int)
      requires -64 <= alpha < beta <= 64 && Ready(mover, enemy, 3)
      modifies empties
      ensures empties.squares == old(empties.squares)
      ensures MoverResult(r, mover, enemy, alpha, beta)
    {
      ghost var s := empties.squares;
      var count := |empties.squares|;
      var result := NO_MOVE;
      var a := alpha;
      ghost var visited: set<int> := {};
      ghost var best := -1;
      SearchStart(mover, enemy, alpha, beta);
      for k := 0 to count
        invariant empties.squares == s
        invariant Searched(mover, enemy, visited, alpha, a, beta, result, best)
        invariant forall j :: 0 <= j < k && IsLegal(mover, enemy, s[j]) ==> s[j] in visited
      {
        var sq := empties.squares[k];
        var sub := Move3(mover, enemy, a, beta, k);
        if sub.Some? {
          var subResult := sub.value;
          SearchStep(mover, enemy, visited, alpha, a, beta, result, best, sq, subResult);
          if subResult > result {
            result := subResult;
            best := sq;
            if subResult > a {
              if subResult >= beta {
                return result;
              }
              a := subResult;
            }
          }
          visited := visited + {sq};
        }
      }
      ListedMoves(s, mover, enemy, visited);
      SearchFinish(mover, enemy, visited, alpha, a, beta, result, best);
      r := result;
    }

    /**
     * The move of `moverResult3` on node k: None when it is illegal;
     * otherwise `solve2` on the two squares left in the list once the node
     * is taken out, negated.
     */
    method Move3(mover: Bitboard, enemy: Bitboard, alpha: int, beta: int, k: nat) returns (sub: Option<int>)
      requires -64 <= alpha < beta <= 64 && Disjoint(mover, enemy) && EmptyCount(mover, enemy) == 3
      requires ListsEmpties(empties.squares, mover, enemy) && k < |empties.squares|
      modifies empties
      ensures empties.squares == old(empties.squares)
      ensures sub.Some? <==> IsLegal(mover, enemy, empties.squares[k])
      ensures sub.Some? ==> FailSoft(sub.value, ChildValue(mover, enemy, empties.squares[k]), alpha, beta)
    {
      ghost var s := empties.squares;
      var sq := empties.squares[k];
      ListMove(s, k, mover, enemy);
      MoveFacts(mover, enemy, sq);
      var square := SquareOf(sq);
      var flips := CalcFlipsOf(square, mover, enemy);
      if flips == {} {
        return None;
      }
      var subMover := enemy - flips;
      var subEnemy := mover + flips + Placement(square);
      empties.Remove(k);
      ListLength(empties.squares, subMover, subEnemy);
      ShortList(empties.squares, subMover, subEnemy);
      var subValue := Solve2(subMover, subEnemy, -beta, -alpha, empties.squares[0], empties.squares[1]);
      empties.Restore(k, sq);
      WithoutRestore(s, k);
      FailSoftNegate(subValue, Value(subMover, subEnemy), alpha, beta);
      sub := Some(-subValue);
    }

    /** `solve2`: two empties, e1 and e2. */
    method Solve2(mover: Bitboard, enemy: Bitboard, alpha: int, beta: int, e1: int, e2: int) returns (r: int)
      requires -64 <= alpha < beta <= 64 && Disjoint(mover, enemy)
      requires Empties(mover, enemy) == {e1, e2} && e1 != e2
      ensures FailSoft(r, Value(mover, enemy), alpha, beta)
    {
      var result := MoverResult2(mover, enemy, beta, e1, e2);
      CutoffIsFailSoft(result, MoverValue(mover, enemy), alpha, beta);
      assert enemy + mover == mover + enemy;
      if result == NO_MOVE {
        var enemyResult := MoverResult2(enemy, mover, -alpha, e1, e2);
        CutoffIsFailSoft(enemyResult, MoverValue(enemy, mover), -beta, -alpha);
        PassValue(mover, enemy, alpha, beta, result, enemyResult);
        if enemyResult == NO_MOVE {
          r := |mover| - |enemy|;
        } else {
          r := -enemyResult;
        }
      } else {
        PassValue(mover, enemy, alpha, beta, result, result);
        r := result;
      }
    }

    /**
     * `moverResult2`: the mover's result over its moves on e1 and e2, exact
     * unless the first move already reaches beta; NO_MOVE when it has none.
     */
    method MoverResult2(mover: Bitboard, enemy: Bitboard, beta: int, e1: int, e2: int) returns (r: int)
      requires Disjoint(mover, enemy) && NO_MOVE < beta
      requires Empties(mover, enemy) == {e1, e2} && e1 != e2
      ensures r == MoverValue(mover, enemy) || beta <= r <= MoverValue(mover, enemy)
      ensures r == NO_MOVE <==> LegalMoves(mover, enemy) == {}
    {
      TwoEmptiesMoverValue(mover, enemy, e1, e2);
      MoverValueBounds(mover, enemy);
      assert e1 in Empties(mover, enemy) && e2 in Empties(mover, enemy);
      var result := NO_MOVE;
      var square1 := SquareOf(e1);
      var flips1 := CalcFlipsOf(square1, mover, enemy);
      if flips1 != {} {
        LastTwoChild(mover, enemy, e1, e2);
        var sub := Solve1(enemy - flips1, mover + flips1 + Placement(square1), e2);
        var subResult := -sub;
        if subResult > result {
          result := subResult;
          if subResult >= beta {
            return result;
          }
        }
      }
      var square2 := SquareOf(e2);
      var flips2 := CalcFlipsOf(square2, mover, enemy);
      if flips2 != {} {
        LastTwoChild(mover, enemy, e2, e1);
        var sub := Solve1(enemy - flips2, mover + flips2 + Placement(square2), e1);
        var subResult := -sub;
        if subResult > result {
          result := subResult;
        }
      }
      r := result;
    }

    /** `solve1`: the exact value with one empty square, by counting discs. */
    static method Solve1(mover: Bitboard, enemy: Bitboard, empty: int) returns (r: int)
      requires Disjoint(mover, enemy) && Empties(mover, enemy) == {empty}
      ensures r == Value(mover, enemy)
    {
      assert empty in Empties(mover, enemy);
      var square := SquareOf(empty);
      var moverFlips := CalcFlipsOf(square, mover, enemy);
      if moverFlips != {} {
        OneEmptyMover(mover, enemy, empty);
        r := 2 * |mover + moverFlips| - 62;
        return;
      }
      var enemyFlips := CalcFlipsOf(square, enemy, mover);
      if enemyFlips != {} {
        OneEmptyEnemy(mover, enemy, empty);
        r := 62 - 2 * |enemy + enemyFlips|;
        return;
      }
      OneEmptyNeither(mover, enemy, empty);
      r := 2 * |mover| - 63;
    }
  }
}
