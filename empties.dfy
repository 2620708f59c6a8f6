/**
 * `ListOfEmpties`: the solver's list of empty squares in a fixed search
 * order. A node is taken out while its move is searched and put back in
 * the same place afterwards, so the list is unchanged between moves. The
 * list is kept as a sequence of square indices; node i is entry i.
 */
module EmptySquares {
  import opened Bitboards
  import opened Game
  import Squares

  /** No square appears twice. */
  predicate Distinct(s: seq<int>)
  {
    forall i, j :: 0 <= i < j < |s| ==> s[i] != s[j]
  }

  /** s lists every empty square of the position exactly once. */
  ghost predicate ListsEmpties(s: seq<int>, mover: Bitboard, enemy: Bitboard)
  {
    Distinct(s) && forall x {:trigger x in s} :: x in s <==> x in Empties(mover, enemy)
  }

  /** s with entry k taken out (`node.remove()`). */
  function Without(s: seq<int>, k: nat): (r: seq<int>)
    requires k < |s|
    ensures |r| == |s| - 1
    ensures forall i :: 0 <= i < k ==> r[i] == s[i]
    ensures forall i :: k <= i < |r| ==> r[i] == s[i + 1]
  {
    s[..k] + s[k + 1..]
  }

  /** Putting entry k back (`node.restore()`) gives the list it was taken from. */
  lemma WithoutRestore(s: seq<int>, k: nat)
    requires k < |s|
    ensures Without(s, k)[..k] + [s[k]] + Without(s, k)[k..] == s
  {
    var r := Without(s, k);
    var t := r[..k] + [s[k]] + r[k..];
    forall i | 0 <= i < |s|
      ensures t[i] == s[i]
    {
      if i < k {
        assert t[i] == r[i];
      } else if i > k {
        assert t[i] == r[i - 1];
      }
    }
  }

  /** A duplicate-free list of a position's empties has one entry per empty square. */
  lemma {:induction false} DistinctCard(s: seq<int>)
    requires Distinct(s)
    ensures |set x | x in s| == |s|
    decreases |s|
  {
    if s != [] {
      var t := s[..|s| - 1];
      DistinctCard(t);
      assert (set x | x in s) == (set x | x in t) + {s[|s| - 1]};
      assert s[|s| - 1] !in t;
    }
  }

  /** The list of a position's empties has EmptyCount entries. */
  lemma ListLength(s: seq<int>, mover: Bitboard, enemy: Bitboard)
    requires ListsEmpties(s, mover, enemy)
    ensures |s| == EmptyCount(mover, enemy)
  {
    DistinctCard(s);
    assert (set x | x in s) == Empties(mover, enemy);
  }

  /** Every entry of the list of a position's empties is an empty square. */
  lemma ListedAreEmpty(s: seq<int>, mover: Bitboard, enemy: Bitboard)
    requires ListsEmpties(s, mover, enemy)
    ensures forall i :: 0 <= i < |s| ==> s[i] in Empties(mover, enemy)
  {
    forall i | 0 <= i < |s|
      ensures s[i] in Empties(mover, enemy)
    {
      assert s[i] in s;
    }
  }

  /** Taking out square s[k] leaves a list of the empties without it. */
  lemma WithoutListsEmpties(s: seq<int>, k: nat, mover: Bitboard, enemy: Bitboard, mover': Bitboard, enemy': Bitboard)
    requires k < |s| && ListsEmpties(s, mover, enemy)
    requires Empties(mover', enemy') == Empties(mover, enemy) - {s[k]}
    ensures ListsEmpties(Without(s, k), mover', enemy')
  {
    var r := Without(s, k);
    forall x
      ensures x in r <==> x in Empties(mover', enemy')
    {
      if x in r {
        var i :| 0 <= i < |r| && r[i] == x;
        if i < k {
          assert s[i] == x;
        } else {
          assert s[i + 1] == x;
        }
        assert x in s;
      }
      if x in Empties(mover', enemy') {
        assert x in s;
        var i :| 0 <= i < |s| && s[i] == x;
        if i < k {
          assert r[i] == x;
        } else {
          assert r[i - 1] == x;
        }
      }
    }
  }

  class ListOfEmpties {
    var squares: seq<int>

    constructor()
      ensures squares == []
    {
      squares := [];
    }

    /** `add(square)`: append at the end. */
    method Add(sq: int)
      modifies this
      ensures squares == old(squares) + [sq]
    {
      squares := squares + [sq];
    }

    /** `node.remove()` for node k. */
    method Remove(k: nat)
      requires k < |squares|
      modifies this
      ensures squares == Without(old(squares), k)
    {
      squares := squares[..k] + squares[k + 1..];
    }

    /** `node.restore()` for node k holding sq. */
    method Restore(k: nat, sq: int)
      requires k <= |squares|
      modifies this
      ensures squares == old(squares)[..k] + [sq] + old(squares)[k..]
    {
      squares := squares[..k] + [sq] + squares[k..];
    }
  }

  // ---------------------------------------------------------------------
  // Building the list (`createEmptiesList`, `populateUnsorted`).

  /** The empties of each mask in turn, in ascending order inside a mask. */
  function OrderedEmpties(empties: Bitboard, masks: seq<Bitboard>): seq<int>
  {
    if masks == [] then []
    else OrderedEmpties(empties, masks[..|masks| - 1]) + SquareList(empties * masks[|masks| - 1])
  }

  /** The squares of all the masks. */
  function MasksUnion(masks: seq<Bitboard>): set<int>
  {
    if masks == [] then {} else MasksUnion(masks[..|masks| - 1]) + masks[|masks| - 1]
  }

  /** The masks cover the board and never share a square. */
  predicate Partition(masks: seq<Bitboard>)
  {
    (forall i, j :: 0 <= i < j < |masks| ==> masks[i] * masks[j] == {}) && ALL <= MasksUnion(masks)
  }

  /** A square is in the union of the masks exactly when it is in one of them. */
  lemma {:induction false} MasksUnionSpec(masks: seq<Bitboard>, x: int)
    ensures x in MasksUnion(masks) <==> exists i :: 0 <= i < |masks| && x in masks[i]
    decreases |masks|
  {
    if masks != [] {
      var init := masks[..|masks| - 1];
      MasksUnionSpec(init, x);
      if x in MasksUnion(init) {
        var i :| 0 <= i < |init| && x in init[i];
        assert x in masks[i];
      }
      if exists i :: 0 <= i < |masks| && x in masks[i] {
        var i :| 0 <= i < |masks| && x in masks[i];
        if i < |init| {
          assert x in init[i];
        }
      }
    }
  }

  /** The squares OrderedEmpties lists, each once. */
  lemma {:induction false} OrderedEmptiesSpec(empties: Bitboard, masks: seq<Bitboard>)
    requires forall i, j :: 0 <= i < j < |masks| ==> masks[i] * masks[j] == {}
    ensures Distinct(OrderedEmpties(empties, masks))
    ensures forall x :: x in OrderedEmpties(empties, masks) <==> x in empties && x in MasksUnion(masks)
    decreases |masks|
  {
    if masks != [] {
      var init := masks[..|masks| - 1];
      var last := masks[|masks| - 1];
      OrderedEmptiesSpec(empties, init);
      var a, b := OrderedEmpties(empties, init), SquareList(empties * last);
      SquareListSpec(empties * last);
      assert OrderedEmpties(empties, masks) == a + b;
      assert MasksUnion(masks) == MasksUnion(init) + last;
      forall x | x in a
        ensures x !in b
      {
        MasksUnionSpec(init, x);
        var k :| 0 <= k < |init| && x in init[k];
        assert masks[k] * last == {};
        assert x in masks[k] && x !in masks[k] * last;
        assert x !in empties * last;
      }
      assert Distinct(b);
      DistinctConcat(a, b);
    }
  }

  lemma DistinctConcat(a: seq<int>, b: seq<int>)
    requires Distinct(a) && Distinct(b)
    requires forall x :: x in a ==> x !in b
    ensures Distinct(a + b)
  {
    forall i, j | 0 <= i < j < |a + b|
      ensures (a + b)[i] != (a + b)[j]
    {
      if i < |a| && j >= |a| {
        assert (a + b)[i] in a;
        assert (a + b)[j] == b[j - |a|];
      } else if i >= |a| {
        assert (a + b)[i] == b[i - |a|] && (a + b)[j] == b[j - |a|];
      }
    }
  }

  /** With masks that partition the board, the list holds each empty square once. */
  lemma OrderedEmptiesList(mover: Bitboard, enemy: Bitboard, masks: seq<Bitboard>)
    requires Partition(masks)
    ensures ListsEmpties(OrderedEmpties(Empties(mover, enemy), masks), mover, enemy)
  {
    OrderedEmptiesSpec(Empties(mover, enemy), masks);
    var s := OrderedEmpties(Empties(mover, enemy), masks);
    forall x
      ensures x in s <==> x in Empties(mover, enemy)
    {
      if x in Empties(mover, enemy) {
        assert x in ALL;
      }
    }
  }

  /** `populateUnsorted(list, empties)`: append the squares of empties, lowest first. */
  method PopulateUnsorted(list: ListOfEmpties, empties: Bitboard)
    modifies list
    ensures list.squares == old(list.squares) + SquareList(empties)
  {
    var rest: Bitboard := empties;
    while rest != {}
      invariant old(list.squares) + SquareList(empties) == list.squares + SquareList(rest)
      decreases |rest|
    {
      var sq := Lowest(rest);
      SquareListLowest(rest);
      rest := rest - {sq};
      list.Add(sq);
    }
    SquareListEmpty();
  }

  /** `createEmptiesList(mover, enemy)`: the empties of each fixed-order mask in turn. */
  method CreateEmptiesList(mover: Bitboard, enemy: Bitboard, masks: seq<Bitboard>) returns (list: ListOfEmpties)
    ensures fresh(list)
    ensures list.squares == OrderedEmpties(Empties(mover, enemy), masks)
  {
    var empties := Not(mover + enemy);
    list := new ListOfEmpties();
    for i := 0 to |masks|
      invariant list.squares == OrderedEmpties(empties, masks[..i])
    {
      PopulateUnsorted(list, empties * masks[i]);
      assert masks[..i + 1][..i] == masks[..i];
    }
    assert masks[..|masks|] == masks;
  }

  // ---------------------------------------------------------------------
  // Parity (`calcParity`).

  /** `a ^ b`. */
  function Xor(a: Bitboard, b: Bitboard): Bitboard
  {
    (a - b) + (b - a)
  }

  /** The XOR of the parity regions of the listed squares. */
  function ParityOf(s: seq<int>): Bitboard
    requires forall i :: 0 <= i < |s| ==> s[i] in ALL
  {
    if s == [] then {}
    else Xor(ParityOf(s[..|s| - 1]), Squares.Of(s[|s| - 1]).parityRegion)
  }

  /** How many listed squares have x in their parity region. */
  function RegionCount(s: seq<int>, x: int): nat
    requires forall i :: 0 <= i < |s| ==> s[i] in ALL
  {
    if s == [] then 0
    else RegionCount(s[..|s| - 1], x) + (if x in Squares.Of(s[|s| - 1]).parityRegion then 1 else 0)
  }

  /**
   * A square is in the parity mask exactly when its quadrant holds an odd
   * number of the listed squares.
   */
  lemma {:induction false} ParityOfOdd(s: seq<int>, x: int)
    requires forall i :: 0 <= i < |s| ==> s[i] in ALL
    ensures x in ParityOf(s) <==> RegionCount(s, x) % 2 == 1
    decreases |s|
  {
    if s != [] {
      var init := s[..|s| - 1];
      var region := Squares.Of(s[|s| - 1]).parityRegion;
      ParityOfOdd(init, x);
      assert ParityOf(s) == Xor(ParityOf(init), region);
      assert RegionCount(s, x) == RegionCount(init, x) + (if x in region then 1 else 0);
    }
  }

  /** `calcParity()`: XOR the parity regions of the listed empties. */
  method CalcParity(list: ListOfEmpties) returns (parity: Bitboard)
    requires forall i :: 0 <= i < |list.squares| ==> list.squares[i] in ALL
    ensures parity == ParityOf(list.squares)
  {
    parity := {};
    for k := 0 to |list.squares|
      invariant parity == ParityOf(list.squares[..k])
    {
      assert list.squares[..k + 1][..k] == list.squares[..k];
      parity := Xor(parity, Squares.Of(list.squares[k]).parityRegion);
    }
    assert list.squares[..|list.squares|] == list.squares;
  }
}
