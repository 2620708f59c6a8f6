/**
 * `MoveSorter`'s buffer: the moves of one search node, kept in descending
 * score order by insertion; a move whose score ties existing moves goes
 * after all of them.
 */
module MoveSorters {
  import opened Bitboards
  import opened Optional

  /**
   * `SorterMove`: a move with its ordering score, the discs it flips and
   * the enemy's replies; `node` is the position of its square in the
   * list of empties (None for `null`).
   */
  datatype SorterMove = SorterMove(sq: int, score: int, flips: Bitboard, enemyMoves: Bitboard, node: Option<nat>)

  /** The buffer of MoveSorter has room for this many moves. */
  const CAPACITY: nat := 64

  /** Non-increasing scores. */
  predicate Sorted(s: seq<SorterMove>)
  {
    forall i, j {:trigger s[i].score, s[j].score} :: 0 <= i < j < |s| ==> s[i].score >= s[j].score
  }

  /** Where a move of the given score goes: after the last move scoring at least as much. */
  function InsertPos(s: seq<SorterMove>, score: int): (k: nat)
    ensures k <= |s|
  {
    if s == [] || s[|s| - 1].score >= score then |s|
    else InsertPos(s[..|s| - 1], score)
  }

  /** s with m inserted at its place. */
  function Inserted(s: seq<SorterMove>, m: SorterMove): seq<SorterMove>
  {
    var k := InsertPos(s, m.score);
    s[..k] + [m] + s[k..]
  }

  /** The squares of the moves, in buffer order. */
  function Squares(s: seq<SorterMove>): seq<int>
  {
    seq(|s|, i requires 0 <= i < |s| => s[i].sq)
  }

  /** Every move after the insert position scores lower, and the one before it does not. */
  lemma {:induction false} InsertPosSpec(s: seq<SorterMove>, score: int)
    ensures forall i :: InsertPos(s, score) <= i < |s| ==> s[i].score < score
    ensures InsertPos(s, score) > 0 ==> s[InsertPos(s, score) - 1].score >= score
    decreases |s|
  {
    if s != [] && s[|s| - 1].score < score {
      InsertPosSpec(s[..|s| - 1], score);
    }
  }

  /** The insert position is the one the two conditions of InsertPosSpec pin down. */
  lemma {:induction false} InsertPosAt(s: seq<SorterMove>, score: int, k: nat)
    requires k <= |s|
    requires forall i :: k <= i < |s| ==> s[i].score < score
    requires k > 0 ==> s[k - 1].score >= score
    ensures InsertPos(s, score) == k
    decreases |s|
  {
    if k < |s| {
      InsertPosAt(s[..|s| - 1], score, k);
    }
  }

  /** A lower-scoring last move is passed over. */
  lemma InsertPosDrop(s: seq<SorterMove>, score: int, j: nat)
    requires 0 < j <= |s| && s[j - 1].score < score
    ensures InsertPos(s[..j], score) == InsertPos(s[..j - 1], score)
  {
    assert s[..j][..j - 1] == s[..j - 1];
  }

  /** Inserting adds exactly the new move and one slot: nothing lost or duplicated. */
  lemma InsertedIsPermutation(s: seq<SorterMove>, m: SorterMove)
    ensures |Inserted(s, m)| == |s| + 1
    ensures multiset(Inserted(s, m)) == multiset(s) + multiset{m}
  {
    var k := InsertPos(s, m.score);
    assert s == s[..k] + s[k..];
  }

  /** The moves after inserting are the moves before and the new one. */
  lemma InsertedElements(s: seq<SorterMove>, m: SorterMove)
    ensures forall x :: x in Inserted(s, m) <==> x in s || x == m
  {
    InsertedIsPermutation(s, m);
    forall x
      ensures x in Inserted(s, m) <==> x in s || x == m
    {
      assert x in Inserted(s, m) <==> x in multiset(Inserted(s, m));
      assert x in s <==> x in multiset(s);
    }
  }

  /** Inserting into a sorted buffer keeps it sorted. */
  lemma InsertedSorted(s: seq<SorterMove>, m: SorterMove)
    requires Sorted(s)
    ensures Sorted(Inserted(s, m))
  {
    var k := InsertPos(s, m.score);
    InsertPosSpec(s, m.score);
    var t := Inserted(s, m);
    forall i, j | 0 <= i < j < |t|
      ensures t[i].score >= t[j].score
    {
      if i < k && j > k {
        assert t[i] == s[i] && t[j] == s[j - 1];
      }
    }
  }

  /**
   * In a sorted buffer, the new move comes after exactly the moves scoring
   * at least as much as it, so after every tie (stability).
   */
  lemma InsertedAfterTies(s: seq<SorterMove>, m: SorterMove)
    requires Sorted(s)
    ensures Inserted(s, m)[InsertPos(s, m.score)] == m
    ensures forall i :: 0 <= i < |s| ==> (i < InsertPos(s, m.score) <==> s[i].score >= m.score)
  {
    var k := InsertPos(s, m.score);
    InsertPosSpec(s, m.score);
    forall i | 0 <= i < k
      ensures s[i].score >= m.score
    {
      assert s[i].score >= s[k - 1].score;
    }
  }

  /** The buffer of one node: `sorterMoves[0..size)`. */
  class MoveSorter {
    var sorterMoves: array<SorterMove>
    var size: nat

    predicate Valid()
      reads this
    {
      size <= sorterMoves.Length
    }

    /** The moves in the buffer, best first. */
    function Contents(): seq<SorterMove>
      reads this, sorterMoves
      requires Valid()
    {
      sorterMoves[..size]
    }

    constructor()
      ensures Valid() && fresh(sorterMoves)
      ensures sorterMoves.Length == CAPACITY && size == 0
    {
      sorterMoves := new SorterMove[CAPACITY](_ => SorterMove(-1, 0, {}, {}, None));
      size := 0;
    }

    /**
     * The loop of `insert`: move each last move scoring below `score` up one
     * slot; j is the gap left, the insert position.
     */
    method OpenGap(score: int) returns (j: nat)
      requires Valid() && size < sorterMoves.Length
      modifies sorterMoves
      ensures j <= size && j == InsertPos(old(sorterMoves[..size]), score)
      ensures forall i :: 0 <= i < j ==> sorterMoves[i] == old(sorterMoves[i])
      ensures forall i :: j < i <= size ==> sorterMoves[i] == old(sorterMoves[i - 1])
    {
      ghost var s := sorterMoves[..size];
      j := size;
      assert s[..j] == s;
      while j > 0 && sorterMoves[j - 1].score < score
        invariant 0 <= j <= size
        invariant forall i :: 0 <= i < j ==> sorterMoves[i] == s[i]
        invariant forall i :: j < i <= size ==> sorterMoves[i] == s[i - 1]
        invariant InsertPos(s, score) == InsertPos(s[..j], score)
      {
        InsertPosDrop(s, score, j);
        sorterMoves[j] := sorterMoves[j - 1];
        j := j - 1;
      }
      InsertPosAt(s[..j], score, j);
    }

    /** `insert`: open the gap and put the move in it. */
    method Insert(sq: int, score: int, flips: Bitboard, enemyMoves: Bitboard, node: Option<nat>)
      requires Valid() && size < sorterMoves.Length
      modifies this, sorterMoves
      ensures Valid() && sorterMoves == old(sorterMoves) && size == old(size) + 1
      ensures Contents() == Inserted(old(Contents()), SorterMove(sq, score, flips, enemyMoves, node))
    {
      var m := SorterMove(sq, score, flips, enemyMoves, node);
      ghost var s := sorterMoves[..size];
      var j := OpenGap(score);
      sorterMoves[j] := m;
      size := size + 1;
      ghost var t := s[..j] + [m] + s[j..];
      forall i | 0 <= i < size
        ensures sorterMoves[i] == t[i]
      {
        if i < j {
          assert t[i] == s[i];
        } else if i > j {
          assert t[i] == s[i - 1];
        }
      }
      assert sorterMoves[..size] == t;
    }
  }

  /**
   * The insertions of `testInsert`: squares 33..38 with scores
   * 10, 11, 8, 9, 8, 11 leave the buffer as 34, 38, 33, 36, 35, 37.
   */
  lemma InsertTestSequence(m33: SorterMove, m34: SorterMove, m35: SorterMove, m36: SorterMove, m37: SorterMove, m38: SorterMove)
    requires m33.score == 10 && m34.score == 11 && m35.score == 8
    requires m36.score == 9 && m37.score == 8 && m38.score == 11
    ensures Inserted([], m33) == [m33]
    ensures Inserted([m33], m34) == [m34, m33]
    ensures Inserted([m34, m33], m35) == [m34, m33, m35]
    ensures Inserted([m34, m33, m35], m36) == [m34, m33, m36, m35]
    ensures Inserted([m34, m33, m36, m35], m37) == [m34, m33, m36, m35, m37]
    ensures Inserted([m34, m33, m36, m35, m37], m38) == [m34, m38, m33, m36, m35, m37]
  {
    InsertPosAt([m33], 11, 0);
    InsertPosAt([m34, m33], 8, 2);
    InsertPosAt([m34, m33, m35], 9, 2);
    // a tie at the end
    InsertPosAt([m34, m33, m36, m35], 8, 4);
    // a tie at the front
    InsertPosAt([m34, m33, m36, m35, m37], 11, 1);
  }

  /** `testInsert` run against the buffer: the record of the first insert, the sizes, the final order. */
  method ReplayInsertTest() returns (first: SorterMove, sizes: seq<nat>, contents: seq<SorterMove>)
    ensures first == SorterMove(33, 10, {3, 7}, {2, 10}, None)
    ensures sizes == [1, 2, 3, 4, 5, 6]
    ensures Squares(contents) == [34, 38, 33, 36, 35, 37]
  {
    var m33 := SorterMove(33, 10, {3, 7}, {2, 10}, None);
    var m34, m35, m36 := SorterMove(34, 11, {}, {}, None), SorterMove(35, 8, {}, {}, None), SorterMove(36, 9, {}, {}, None);
    var m37, m38 := SorterMove(37, 8, {}, {}, None), SorterMove(38, 11, {}, {}, None);
    InsertTestSequence(m33, m34, m35, m36, m37, m38);
    var sorter := new MoveSorter();
    sorter.Insert(33, 10, {3, 7}, {2, 10}, None);
    first := sorter.sorterMoves[0];
    var n1 := sorter.size;
    sorter.Insert(34, 11, {}, {}, None);
    var n2 := sorter.size;
    sorter.Insert(35, 8, {}, {}, None);
    var n3 := sorter.size;
    sorter.Insert(36, 9, {}, {}, None);
    var n4 := sorter.size;
    sorter.Insert(37, 8, {}, {}, None);
    var n5 := sorter.size;
    sorter.Insert(38, 11, {}, {}, None);
    var n6 := sorter.size;
    sizes := [n1, n2, n3, n4, n5, n6];
    contents := sorter.sorterMoves[..sorter.size];
    SquaresOfTest(m33, m34, m35, m36, m37, m38);
  }

  lemma SquaresOfTest(m33: SorterMove, m34: SorterMove, m35: SorterMove, m36: SorterMove, m37: SorterMove, m38: SorterMove)
    requires m33.sq == 33 && m34.sq == 34 && m35.sq == 35 && m36.sq == 36 && m37.sq == 37 && m38.sq == 38
    ensures Squares([m34, m38, m33, m36, m35, m37]) == [34, 38, 33, 36, 35, 37]
  {
  }
}
