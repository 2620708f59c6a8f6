/**
 * The midgame transposition tables as the two searchers use them. The
 * tables' own code is not part of this model: each is a map from
 * positions to the last search stored for them, which is what the
 * searchers read back. `MidgameTable` has the find/store interface of
 * `MidgameSearcher`; `WidthTables` the interface of `MidgameSearch`,
 * whose entries are kept per MPC width.
 */
module MidgameHash {
  import opened Bitboards
  import opened Rays
  import opened Game
  import opened Optional

  /** An entry: the search depth, bounds [min, max] on the score, and the best move (-1 for none). */
  datatype MidgameEntry = MidgameEntry(depth: int, min: int, max: int, bestMove: int)

  /** `isExact()`: the bounds meet. */
  predicate IsExact(e: MidgameEntry)
  {
    e.min == e.max
  }

  /**
   * What a fail-soft search with window (alpha, beta) shows about its
   * score: a lower bound when it failed high, an upper bound when it
   * failed low, the exact value otherwise; noMove and -noMove stand for
   * the open ends.
   */
  function StoredEntry(noMove: int, alpha: int, beta: int, depth: int, bestMove: int, score: int): MidgameEntry
  {
    if score >= beta then MidgameEntry(depth, score, -noMove, bestMove)
    else if score <= alpha then MidgameEntry(depth, noMove, score, bestMove)
    else MidgameEntry(depth, score, score, bestMove)
  }

  /** The entry's bounds hold for v. */
  predicate Bounds(e: MidgameEntry, v: int)
  {
    e.min <= v <= e.max
  }

  /**
   * A fail-soft score for a value between noMove and -noMove yields an
   * entry whose bounds hold for that value.
   */
  lemma StoredEntryBounds(noMove: int, alpha: int, beta: int, depth: int, bestMove: int, score: int, v: int)
    requires alpha < beta && noMove <= v <= -noMove && FailSoft(score, v, alpha, beta)
    ensures Bounds(StoredEntry(noMove, alpha, beta, depth, bestMove, score), v)
    ensures IsExact(StoredEntry(noMove, alpha, beta, depth, bestMove, score)) ==> score == v
  {
  }

  /**
   * The cutoffs the searchers take from an entry whose bounds hold for v:
   * min at or above beta, max at or below alpha, or exact bounds, each is
   * a fail-soft result for v.
   */
  lemma EntryCutoffs(e: MidgameEntry, v: int, alpha: int, beta: int)
    requires alpha < beta && Bounds(e, v)
    ensures e.min >= beta ==> FailSoft(e.min, v, alpha, beta)
    ensures e.max <= alpha ==> FailSoft(e.max, v, alpha, beta)
    ensures IsExact(e) ==> FailSoft(e.max, v, alpha, beta)
  {
  }

  /** The entry's move is none, or legal in its position. */
  predicate MoveFits(mover: Bitboard, enemy: Bitboard, bestMove: int)
  {
    bestMove == -1 || IsLegal(mover, enemy, bestMove)
  }

  /** `MidgameHashTables` as `MidgameSearcher` uses it: `find` and `store` by position. */
  class MidgameTable {
    /** `NovelloUtils.NO_MOVE`, the open end of a bound. */
    const noMove: int
    var entries: map<(Bitboard, Bitboard), MidgameEntry>

    /** Every stored position is a position, and its move is none or legal there. */
    ghost predicate Sound()
      reads this
    {
      forall k :: k in entries ==> Disjoint(k.0, k.1) && MoveFits(k.0, k.1, entries[k].bestMove)
    }

    constructor(noMove: int)
      ensures this.noMove == noMove && entries == map[] && Sound()
    {
      this.noMove := noMove;
      entries := map[];
    }

    /** `clear(63)`: forget every entry. */
    method Clear()
      modifies this
      ensures entries == map[] && Sound()
    {
      entries := map[];
    }

    /** `find(mover, enemy)`: the position's entry, None for `null`; its move fits the position. */
    method Find(mover: Bitboard, enemy: Bitboard) returns (r: Option<MidgameEntry>)
      requires Sound()
      ensures r.Some? <==> (mover, enemy) in entries
      ensures r.Some? ==> r.value == entries[(mover, enemy)] && MoveFits(mover, enemy, r.value.bestMove)
    {
      if (mover, enemy) in entries {
        r := Some(entries[(mover, enemy)]);
      } else {
        r := None;
      }
    }

    /**
     * The position's entry, searched at least this deep, answers the window:
     * min at or above beta, max at or below alpha, or (when exactCuts, as in
     * `mpcMove`) exact bounds.
     */
    predicate CutsOff(mover: Bitboard, enemy: Bitboard, depth: int, alpha: int, beta: int, exactCuts: bool)
      reads this
    {
      (mover, enemy) in entries && entries[(mover, enemy)].depth >= depth &&
      (entries[(mover, enemy)].min >= beta || entries[(mover, enemy)].max <= alpha ||
       (exactCuts && IsExact(entries[(mover, enemy)])))
    }

    /** The position's entry has a move (`getSuggestedMove` takes it). */
    predicate HasMove(mover: Bitboard, enemy: Bitboard)
      reads this
    {
      (mover, enemy) in entries && entries[(mover, enemy)].bestMove >= 0
    }

    /** The move and score such a cutoff returns: min when it reaches beta, max otherwise. */
    function CutResult(mover: Bitboard, enemy: Bitboard, beta: int): (int, int)
      reads this
      requires (mover, enemy) in entries
    {
      var e := entries[(mover, enemy)];
      (e.bestMove, if e.min >= beta then e.min else e.max)
    }

    /** `store(mover, enemy, alpha, beta, depth, bestMove, score)`. */
    method Store(mover: Bitboard, enemy: Bitboard, alpha: int, beta: int, depth: int, bestMove: int, score: int)
      requires Sound() && Disjoint(mover, enemy) && MoveFits(mover, enemy, bestMove)
      modifies this
      ensures entries == old(entries)[(mover, enemy) := StoredEntry(noMove, alpha, beta, depth, bestMove, score)]
      ensures Sound()
    {
      entries := entries[(mover, enemy) := StoredEntry(noMove, alpha, beta, depth, bestMove, score)];
    }
  }

  /**
   * `MidgameHashTables` as `MidgameSearch` uses it: entries per MPC width
   * and position; the cutoff test only reads the entry of the search's own
   * width.
   */
  class WidthTables {
    const noMove: int
    var entries: map<(int, Bitboard, Bitboard), MidgameEntry>

    ghost predicate Sound()
      reads this
    {
      forall k :: k in entries ==> Disjoint(k.1, k.2) && MoveFits(k.1, k.2, entries[k].bestMove)
    }

    constructor(noMove: int)
      ensures this.noMove == noMove && entries == map[] && Sound()
    {
      this.noMove := noMove;
      entries := map[];
    }

    /** The move and score a cutoff on this width's entry returns: min when it reaches beta, max otherwise. */
    function CutResult(width: int, mover: Bitboard, enemy: Bitboard, beta: int): (int, int)
      reads this
      requires (width, mover, enemy) in entries
    {
      var e := entries[(width, mover, enemy)];
      (e.bestMove, if e.min >= beta then e.min else e.max)
    }

    /** The entry of this width and position gives a cutoff for the window at this depth. */
    predicate CutsOff(mover: Bitboard, enemy: Bitboard, depth: int, alpha: int, beta: int, width: int)
      reads this
    {
      (width, mover, enemy) in entries && entries[(width, mover, enemy)].depth >= depth &&
      (entries[(width, mover, enemy)].min >= beta || entries[(width, mover, enemy)].max <= alpha)
    }

    /**
     * `checkForHashCutoff(mover, enemy, depth, alpha, beta, width)`: the
     * entry's move and min when min reaches beta, its move and max when
     * max is at most alpha; None (`null`) without a cutoff.
     */
    method CheckForHashCutoff(mover: Bitboard, enemy: Bitboard, depth: int, alpha: int, beta: int, width: int)
      returns (r: Option<(int, int)>)
      requires Sound()
      ensures r.Some? <==> CutsOff(mover, enemy, depth, alpha, beta, width)
      ensures r.Some? ==> r.value == CutResult(width, mover, enemy, beta) && MoveFits(mover, enemy, r.value.0)
    {
      var key := (width, mover, enemy);
      if key in entries && entries[key].depth >= depth {
        var e := entries[key];
        if e.min >= beta {
          return Some((e.bestMove, e.min));
        }
        if e.max <= alpha {
          return Some((e.bestMove, e.max));
        }
      }
      r := None;
    }

    /**
     * `getSuggestedMove(mover, enemy)`: the move of an entry for the
     * position, at any width, or -1; which width wins is the table's
     * choice and is left open.
     */
    method GetSuggestedMove(mover: Bitboard, enemy: Bitboard) returns (sq: int)
      requires Sound()
      ensures MoveFits(mover, enemy, sq)
      ensures sq != -1 ==> Suggests(mover, enemy, sq)
      ensures sq == -1 <==> !HasAnyMove(mover, enemy)
    {
      var withMove := set k | k in entries && k.1 == mover && k.2 == enemy && entries[k].bestMove >= 0;
      if withMove != {} {
        var k :| k in withMove;
        sq := entries[k].bestMove;
        assert HasMove(k.0, mover, enemy);
      } else {
        forall w
          ensures !HasMove(w, mover, enemy)
        {
          assert (w, mover, enemy) in entries ==> (w, mover, enemy) !in withMove;
        }
        sq := -1;
      }
    }

    /** The table holds an entry with a move for this width and position. */
    predicate HasMove(w: int, mover: Bitboard, enemy: Bitboard)
      reads this
    {
      (w, mover, enemy) in entries && entries[(w, mover, enemy)].bestMove >= 0
    }

    /** Some width holds an entry with a move for the position. */
    ghost predicate HasAnyMove(mover: Bitboard, enemy: Bitboard)
      reads this
    {
      exists w :: HasMove(w, mover, enemy)
    }

    /** The move of some width's entry for the position is sq. */
    ghost predicate Suggests(mover: Bitboard, enemy: Bitboard, sq: int)
      reads this
    {
      exists w :: HasMove(w, mover, enemy) && entries[(w, mover, enemy)].bestMove == sq
    }

    /** `store(mover, enemy, alpha, beta, depth, width, bestMove, score)`. */
    method Store(mover: Bitboard, enemy: Bitboard, alpha: int, beta: int, depth: int, width: int, bestMove: int, score: int)
      requires Sound() && Disjoint(mover, enemy) && MoveFits(mover, enemy, bestMove)
      modifies this
      ensures entries == old(entries)[(width, mover, enemy) := StoredEntry(noMove, alpha, beta, depth, bestMove, score)]
      ensures Sound()
    {
      entries := entries[(width, mover, enemy) := StoredEntry(noMove, alpha, beta, depth, bestMove, score)];
    }
  }
}
