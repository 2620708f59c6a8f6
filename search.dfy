/**
 * The facts the exact solver's move loops rest on: what one move does to
 * the position and the list of empties, the loop invariant of a fail-soft
 * move loop, and the steps that combine a mover result with a pass.
 */
module EndgameSearch {
  import opened Bitboards
  import opened Rays
  import opened Game
  import opened EmptySquares
  import opened Squares

  /**
   * `moverResult...` contract: a fail-soft result for MoverValue, and
   * NO_MOVE exactly when the mover has no legal move.
   */
  ghost predicate MoverResult(r: int, mover: Bitboard, enemy: Bitboard, alpha: int, beta: int)
    requires Disjoint(mover, enemy)
  {
    FailSoft(r, MoverValue(mover, enemy), alpha, beta) && (r == NO_MOVE <==> LegalMoves(mover, enemy) == {})
  }

  /**
   * A legal move on an empty square leads to the child position the solver
   * builds (`enemy & ~flips`, `mover | flips | placement`): disjoint, one
   * empty square fewer, and worth minus the move's value.
   */
  lemma MoveFacts(mover: Bitboard, enemy: Bitboard, sq: int)
    requires Disjoint(mover, enemy) && sq in Empties(mover, enemy)
    ensures sq in ALL && sq !in mover && sq !in enemy
    ensures IsLegal(mover, enemy, sq) ==>
      var f := RefFlips(mover, enemy, sq);
      var mover', enemy' := enemy - f, mover + f + {sq};
      Disjoint(mover', enemy') &&
      Empties(mover', enemy') == Empties(mover, enemy) - {sq} &&
      EmptyCount(mover', enemy') == EmptyCount(mover, enemy) - 1 &&
      ChildValue(mover, enemy, sq) == -Value(mover', enemy')
  {
    if IsLegal(mover, enemy, sq) {
      PlayFacts(mover, enemy, sq);
    }
  }

  /** Entry k of the list is a move whose child is listed by the list without entry k. */
  lemma ListMove(s: seq<int>, k: nat, mover: Bitboard, enemy: Bitboard)
    requires Disjoint(mover, enemy) && k < |s| && ListsEmpties(s, mover, enemy)
    ensures s[k] in Empties(mover, enemy)
    ensures IsLegal(mover, enemy, s[k]) ==>
      var f := RefFlips(mover, enemy, s[k]);
      ListsEmpties(Without(s, k), enemy - f, mover + f + {s[k]})
  {
    assert s[k] in s;
    MoveFacts(mover, enemy, s[k]);
    if IsLegal(mover, enemy, s[k]) {
      var f := RefFlips(mover, enemy, s[k]);
      WithoutListsEmpties(s, k, mover, enemy, enemy - f, mover + f + {s[k]});
    }
  }

  /** Every legal move is on a listed square. */
  lemma ListedMoves(s: seq<int>, mover: Bitboard, enemy: Bitboard, visited: set<int>)
    requires Disjoint(mover, enemy) && ListsEmpties(s, mover, enemy)
    requires forall j :: 0 <= j < |s| && IsLegal(mover, enemy, s[j]) ==> s[j] in visited
    ensures forall sq :: IsLegal(mover, enemy, sq) ==> sq in visited
  {
    forall sq | IsLegal(mover, enemy, sq)
      ensures sq in visited
    {
      assert sq in Empties(mover, enemy) && sq in s;
      var j :| 0 <= j < |s| && s[j] == sq;
    }
  }

  /**
   * The invariant of a fail-soft move loop started with window
   * (alpha0, beta): result is the best value of the visited moves as far
   * as fail-soft results tell, NO_MOVE before the first one; alpha is
   * raised to result once it exceeds alpha0, and then best is a move
   * worth exactly result.
   */
  ghost predicate Searched(mover: Bitboard, enemy: Bitboard, visited: set<int>, alpha0: int, alpha: int, beta: int, result: int, best: int)
    requires Disjoint(mover, enemy)
  {
    (forall sq :: sq in visited ==> IsLegal(mover, enemy, sq) && ChildValue(mover, enemy, sq) <= result) &&
    (visited == {} <==> result == NO_MOVE) &&
    -64 <= alpha0 <= alpha < beta && result < beta &&
    (visited != {} ==> best in visited) &&
    (result > alpha0 ==> best in visited && alpha == result && ChildValue(mover, enemy, best) == result) &&
    (result <= alpha0 ==> alpha == alpha0)
  }

  /** Nothing visited yet. */
  lemma SearchStart(mover: Bitboard, enemy: Bitboard, alpha: int, beta: int)
    requires Disjoint(mover, enemy) && -64 <= alpha < beta
    ensures Searched(mover, enemy, {}, alpha, alpha, beta, NO_MOVE, -1)
  {
  }

  /**
   * One move searched with the current window, giving r: either r is a
   * beta cutoff, and then a mover result for the whole loop, or the loop
   * invariant holds with the move visited and result, alpha and best
   * updated as the loop updates them.
   */
  lemma SearchStep(mover: Bitboard, enemy: Bitboard, visited: set<int>, alpha0: int, alpha: int, beta: int,
                   result: int, best: int, sq: int, r: int)
    requires Disjoint(mover, enemy) && Searched(mover, enemy, visited, alpha0, alpha, beta, result, best)
    requires IsLegal(mover, enemy, sq) && FailSoft(r, ChildValue(mover, enemy, sq), alpha, beta)
    ensures r > result && r > alpha && r >= beta ==>
      MoverResult(r, mover, enemy, alpha0, beta) && FailSoft(r, ChildValue(mover, enemy, sq), alpha0, beta)
    ensures !(r > result && r > alpha && r >= beta) ==>
      Searched(mover, enemy, visited + {sq}, alpha0, if r > result && r > alpha then r else alpha, beta,
               Max(result, r), if r > result then sq else best)
  {
    if r > result && r > alpha && r >= beta {
      SearchCutoff(mover, enemy, visited, alpha0, alpha, beta, result, best, sq, r);
    } else {
      SearchContinue(mover, enemy, visited, alpha0, alpha, beta, result, best, sq, r);
    }
  }

  lemma SearchCutoff(mover: Bitboard, enemy: Bitboard, visited: set<int>, alpha0: int, alpha: int, beta: int,
                     result: int, best: int, sq: int, r: int)
    requires Disjoint(mover, enemy) && Searched(mover, enemy, visited, alpha0, alpha, beta, result, best)
    requires IsLegal(mover, enemy, sq) && FailSoft(r, ChildValue(mover, enemy, sq), alpha, beta)
    requires r > alpha && r >= beta
    ensures MoverResult(r, mover, enemy, alpha0, beta) && FailSoft(r, ChildValue(mover, enemy, sq), alpha0, beta)
  {
    var v := ChildValue(mover, enemy, sq);
    MoverValueIsMax(mover, enemy);
    MoverValueBounds(mover, enemy);
    assert sq in LegalMoves(mover, enemy);
    assert v >= r;
  }

  lemma SearchContinue(mover: Bitboard, enemy: Bitboard, visited: set<int>, alpha0: int, alpha: int, beta: int,
                       result: int, best: int, sq: int, r: int)
    requires Disjoint(mover, enemy) && Searched(mover, enemy, visited, alpha0, alpha, beta, result, best)
    requires IsLegal(mover, enemy, sq) && FailSoft(r, ChildValue(mover, enemy, sq), alpha, beta)
    requires !(r > result && r > alpha && r >= beta)
    ensures Searched(mover, enemy, visited + {sq}, alpha0, if r > result && r > alpha then r else alpha, beta,
                     Max(result, r), if r > result then sq else best)
  {
    var v := ChildValue(mover, enemy, sq);
    ChildValueBounds(mover, enemy, sq);
    var visited', result' := visited + {sq}, Max(result, r);
    forall x | x in visited'
      ensures IsLegal(mover, enemy, x) && ChildValue(mover, enemy, x) <= result'
    {
      if x == sq {
        assert v <= Max(result, r) by {
          if v > alpha {
            assert r > alpha;
          }
        }
      }
    }
  }

  /**
   * Every legal move visited without a cutoff: result is a mover result for
   * the loop's window, and the best move's value is bracketed like it.
   */
  lemma SearchFinish(mover: Bitboard, enemy: Bitboard, visited: set<int>, alpha0: int, alpha: int, beta: int,
                     result: int, best: int)
    requires Disjoint(mover, enemy) && Searched(mover, enemy, visited, alpha0, alpha, beta, result, best)
    requires forall sq :: IsLegal(mover, enemy, sq) ==> sq in visited
    ensures MoverResult(result, mover, enemy, alpha0, beta)
    ensures visited != {} ==> IsLegal(mover, enemy, best) && FailSoft(result, ChildValue(mover, enemy, best), alpha0, beta)
  {
    if visited == {} {
      MoverValueBounds(mover, enemy);
      assert LegalMoves(mover, enemy) == {};
    } else {
      SearchFinishSome(mover, enemy, visited, alpha0, alpha, beta, result, best);
      BestBracketed(mover, enemy, visited, alpha0, alpha, beta, result, best);
    }
  }

  lemma BestBracketed(mover: Bitboard, enemy: Bitboard, visited: set<int>, alpha0: int, alpha: int, beta: int,
                      result: int, best: int)
    requires Disjoint(mover, enemy) && Searched(mover, enemy, visited, alpha0, alpha, beta, result, best)
    requires visited != {}
    ensures IsLegal(mover, enemy, best) && FailSoft(result, ChildValue(mover, enemy, best), alpha0, beta)
  {
  }

  lemma SearchFinishSome(mover: Bitboard, enemy: Bitboard, visited: set<int>, alpha0: int, alpha: int, beta: int,
                         result: int, best: int)
    requires Disjoint(mover, enemy) && Searched(mover, enemy, visited, alpha0, alpha, beta, result, best)
    requires forall sq :: IsLegal(mover, enemy, sq) ==> sq in visited
    requires visited != {}
    ensures MoverResult(result, mover, enemy, alpha0, beta)
  {
    MoverValueIsMax(mover, enemy);
    MoverValueBounds(mover, enemy);
    var mv := MoverValue(mover, enemy);
    assert best in LegalMoves(mover, enemy);
    var w :| IsLegal(mover, enemy, w) && ChildValue(mover, enemy, w) == mv;
    assert w in visited;
    assert mv <= result;
    if result > alpha0 {
      assert mv >= ChildValue(mover, enemy, best);
    }
  }

  /**
   * A node's value from its mover results (`solveDeep`, `solveNoParity`,
   * `solve3`): the mover's result when it has one; otherwise minus the
   * enemy's result searched with the negated window, or the final disc
   * differential when neither side can move.
   */
  lemma PassValue(mover: Bitboard, enemy: Bitboard, alpha: int, beta: int, r: int, er: int)
    requires Disjoint(mover, enemy) && Disjoint(enemy, mover) && alpha < beta
    requires MoverResult(r, mover, enemy, alpha, beta)
    requires r == NO_MOVE ==> MoverResult(er, enemy, mover, -beta, -alpha)
    ensures r != NO_MOVE ==> FailSoft(r, Value(mover, enemy), alpha, beta)
    ensures r == NO_MOVE && er != NO_MOVE ==> FailSoft(-er, Value(mover, enemy), alpha, beta)
    ensures r == NO_MOVE && er == NO_MOVE ==> TerminalScore(mover, enemy) == Value(mover, enemy)
  {
    MoverValueBounds(mover, enemy);
    MoverValueBounds(enemy, mover);
    if r == NO_MOVE && er != NO_MOVE {
      FailSoftNegate(er, MoverValue(enemy, mover), alpha, beta);
    }
  }

  /**
   * Negascout: a null-window search (alpha, alpha + 1) that lands inside
   * (alpha, beta) is re-searched with window (result, beta); either way the
   * outcome is a fail-soft result for (alpha, beta).
   */
  lemma NullWindowSearch(v: int, alpha: int, beta: int, r1: int, r2: int)
    requires alpha < beta && FailSoft(r1, v, alpha, alpha + 1)
    requires alpha < r1 < beta ==> FailSoft(r2, v, r1, beta)
    ensures FailSoft(if alpha < r1 < beta then r2 else r1, v, alpha, beta)
  {
    if alpha < r1 < beta {
      assert v >= r1;
    }
  }
}
