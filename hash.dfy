/**
 * The endgame transposition table as the solver uses it: a lookup by
 * position that yields bounds [min, max] on the position's mover result,
 * and a store that records what a fail-soft search with window
 * (alpha, beta) proved about it.
 */
module EndgameHash {
  import opened Bitboards
  import opened Rays
  import opened Game
  import opened Optional

  /** `HashTable.Entry`: bounds on the mover result of one position. */
  datatype Entry = Entry(min: int, max: int)

  /**
   * The entry's bounds hold for value v, the MoverValue of its position,
   * and a position without a legal move is recorded as exactly NO_MOVE.
   */
  predicate Bounds(e: Entry, v: int)
  {
    e.min <= v <= e.max && (v == NO_MOVE ==> e.max == NO_MOVE)
  }

  /**
   * What a search result proves: at least score when it failed high, at most
   * score when it failed low, and exactly score otherwise.
   */
  function StoredEntry(alpha: int, beta: int, score: int): (e: Entry)
  {
    if score >= beta then Entry(score, 64)
    else if score <= alpha then Entry(NO_MOVE, score)
    else Entry(score, score)
  }

  /**
   * A mover result of a fail-soft search, NO_MOVE exactly when the mover
   * has no move: the entry stored for it holds.
   */
  lemma StoredEntryBounds(alpha: int, beta: int, score: int, v: int)
    requires alpha < beta && NO_MOVE < beta && NO_MOVE <= v <= 64
    requires FailSoft(score, v, alpha, beta)
    requires v == NO_MOVE ==> score == NO_MOVE
    ensures Bounds(StoredEntry(alpha, beta, score), v)
  {
  }

  /**
   * The hash cutoffs of `moverResultWithHash`: a lower bound at or above
   * beta, an upper bound at or below alpha, or equal bounds each give a
   * fail-soft result for the original window.
   */
  lemma HashCutoffs(e: Entry, v: int, alpha: int, beta: int)
    requires alpha < beta && Bounds(e, v)
    ensures e.min >= beta ==> FailSoft(e.min, v, alpha, beta)
    ensures e.max <= alpha ==> FailSoft(e.max, v, alpha, beta)
    ensures e.min == e.max ==> e.min == v
  {
  }

  /** Without a cutoff, the window narrowed to the bounds is not empty. */
  lemma NarrowedWindowSize(e: Entry, v: int, alpha: int, beta: int)
    requires alpha < beta && Bounds(e, v)
    requires e.min < beta && e.max > alpha && e.min != e.max
    ensures -64 <= alpha ==> -64 <= (if e.min > alpha then e.min else alpha)
    ensures beta <= 64 ==> (if e.max < beta then e.max else beta) <= 64
    ensures (if e.min > alpha then e.min else alpha) < (if e.max < beta then e.max else beta)
  {
  }

  /**
   * Without a cutoff, a fail-soft result for the window narrowed to the
   * bounds is one for the original window.
   */
  lemma NarrowedWindow(e: Entry, v: int, alpha: int, beta: int, r: int)
    requires alpha < beta && Bounds(e, v)
    requires e.min < beta && e.max > alpha && e.min != e.max
    requires FailSoft(r, v, if e.min > alpha then e.min else alpha, if e.max < beta then e.max else beta)
    ensures FailSoft(r, v, alpha, beta)
  {
  }

  /**
   * `HashTable`: a map from positions (mover, enemy) to entries. Sound
   * says every entry bounds its position's mover result.
   */
  class HashTable {
    var entries: map<(Bitboard, Bitboard), Entry>

    ghost predicate Sound()
      reads this
    {
      forall k :: k in entries ==> Disjoint(k.0, k.1) && Bounds(entries[k], MoverValue(k.0, k.1))
    }

    constructor()
      ensures entries == map[] && Sound()
    {
      entries := map[];
    }

    /** `clear()`: forget every entry. */
    method Clear()
      modifies this
      ensures entries == map[] && Sound()
    {
      entries := map[];
    }

    /** `find(mover, enemy)`: the entry of the position, None for `null`. */
    method Find(mover: Bitboard, enemy: Bitboard) returns (r: Option<Entry>)
      requires Disjoint(mover, enemy) && Sound()
      ensures r.Some? <==> (mover, enemy) in entries
      ensures r.Some? ==> r.value == entries[(mover, enemy)] && Bounds(r.value, MoverValue(mover, enemy))
    {
      if (mover, enemy) in entries {
        r := Some(entries[(mover, enemy)]);
      } else {
        r := None;
      }
    }

    /** `store(mover, enemy, alpha, beta, score)`: record what the search proved. */
    method Store(mover: Bitboard, enemy: Bitboard, alpha: int, beta: int, score: int)
      requires Disjoint(mover, enemy) && Sound() && alpha < beta && NO_MOVE < beta
      requires FailSoft(score, MoverValue(mover, enemy), alpha, beta)
      requires MoverValue(mover, enemy) == NO_MOVE ==> score == NO_MOVE
      modifies this
      ensures entries == old(entries)[(mover, enemy) := StoredEntry(alpha, beta, score)]
      ensures Sound()
    {
      MoverValueBounds(mover, enemy);
      StoredEntryBounds(alpha, beta, score, MoverValue(mover, enemy));
      entries := entries[(mover, enemy) := StoredEntry(alpha, beta, score)];
    }
  }
}
