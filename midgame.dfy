/**
 * What the two midgame searchers (`MidgameSearcher`, `MidgameSearch`)
 * share: scores in centi-discs and their conversion to the solver's disc
 * windows, the packed key that orders the moves, the fixed masks of the
 * unsorted move order, the search options, the `BA` record, and a
 * specification of their fail-soft move loop.
 */
module MidgameCommon {
  import opened Bitboards
  import opened Game
  import opened EmptySquares
  import opened JavaInts

  /** `CoefficientCalculator.DISK_VALUE`: centi-discs per disc. */
  const DISK_VALUE: int := 100
  /** `LIMIT`: the score of a 64-disc win in centi-discs. */
  const LIMIT: int := 64 * DISK_VALUE
  /** `SOLVER_START_DEPTH`: with this many empties or fewer, the midgame search calls the solver. */
  const SOLVER_START_DEPTH: int := 6

  // ---------------------------------------------------------------------
  // Windows in centi-discs and in discs (`solverAlpha`, `solverBeta`).

  /** Java's `a / DISK_VALUE` on ints: the quotient rounded toward zero. */
  function DivDisk(a: int): int
  {
    if a >= 0 then a / DISK_VALUE else -((-a) / DISK_VALUE)
  }

  /** `solverAlpha(alpha)`. */
  function SolverAlpha(alpha: int): int
  {
    if alpha < -LIMIT then -64 else DivDisk(65 * DISK_VALUE + alpha) - 65
  }

  /** `solverBeta(beta)`. */
  function SolverBeta(beta: int): int
  {
    if beta > LIMIT then 64 else DivDisk(65 * DISK_VALUE + beta - 1) - 64
  }

  /**
   * For alpha up to LIMIT, `solverAlpha` is -64 below -LIMIT and otherwise
   * the floor of alpha / DISK_VALUE: the largest disc score whose
   * centi-disc value is at most alpha.
   */
  lemma SolverAlphaSpec(alpha: int)
    requires alpha <= LIMIT
    ensures alpha < -LIMIT ==> SolverAlpha(alpha) == -64
    ensures -LIMIT <= alpha ==> SolverAlpha(alpha) * DISK_VALUE <= alpha < SolverAlpha(alpha) * DISK_VALUE + DISK_VALUE
    ensures -64 <= SolverAlpha(alpha) <= 64
  {
    if -LIMIT <= alpha {
      var a := 65 * DISK_VALUE + alpha;
      assert a >= 0;
      assert a / DISK_VALUE * DISK_VALUE <= a < a / DISK_VALUE * DISK_VALUE + DISK_VALUE;
    }
  }

  /**
   * For beta from -LIMIT on, `solverBeta` is 64 above LIMIT and otherwise
   * the ceiling of beta / DISK_VALUE: the smallest disc score whose
   * centi-disc value is at least beta.
   */
  lemma SolverBetaSpec(beta: int)
    requires -LIMIT <= beta
    ensures beta > LIMIT ==> SolverBeta(beta) == 64
    ensures beta <= LIMIT ==> SolverBeta(beta) * DISK_VALUE - DISK_VALUE < beta <= SolverBeta(beta) * DISK_VALUE
    ensures -64 <= SolverBeta(beta) <= 64
  {
    if beta <= LIMIT {
      var a := 65 * DISK_VALUE + beta - 1;
      assert a >= 0;
      assert a / DISK_VALUE * DISK_VALUE <= a < a / DISK_VALUE * DISK_VALUE + DISK_VALUE;
    }
  }

  /**
   * The disc window never shrinks the centi-disc one: a fail-soft result
   * of the solver for (solverAlpha(alpha), solverBeta(beta)), scaled by
   * DISK_VALUE, is a fail-soft result for (alpha, beta).
   */
  lemma SolverWindowSound(alpha: int, beta: int, r: int, v: int)
    requires alpha <= LIMIT && -LIMIT <= beta && alpha < beta && -64 <= v <= 64
    requires FailSoft(r, v, SolverAlpha(alpha), SolverBeta(beta))
    ensures FailSoft(r * DISK_VALUE, v * DISK_VALUE, alpha, beta)
  {
    SolverAlphaSpec(alpha);
    SolverBetaSpec(beta);
  }

  // ---------------------------------------------------------------------
  // The packed ordering key `sortIndex = -value * 256 + sq`.

  /** `-value * 256 + sq`, computed in Java ints. */
  function SortIndex(value: int, sq: int): int
  {
    Int32(-value * 256 + sq)
  }

  /** `x & 0xFF` on a Java int; the low byte of two's complement is the Euclidean remainder. */
  function LowByte(x: int): int
  {
    x % 256
  }

  /** Whatever the value, even one that overflows, `sortIndex & 0xFF` gives the square back. */
  lemma SortIndexSquare(value: int, sq: int)
    requires 0 <= sq < 256
    ensures LowByte(SortIndex(value, sq)) == sq
  {
    var y := -value * 256 + sq;
    var q := (y + 0x8000_0000) / 0x1_0000_0000;
    assert SortIndex(value, sq) == y - q * 0x1_0000_0000;
    assert y - q * 0x1_0000_0000 == (-value - q * 0x100_0000) * 256 + sq;
  }

  /**
   * Without overflow (values of magnitude below 2^23), ascending keys mean
   * descending values, and ascending squares among equal values.
   */
  lemma SortIndexOrder(v1: int, s1: int, v2: int, s2: int)
    requires -0x7F_FFFF <= v1 <= 0x7F_FFFF && -0x7F_FFFF <= v2 <= 0x7F_FFFF
    requires 0 <= s1 < 256 && 0 <= s2 < 256
    ensures SortIndex(v1, s1) < SortIndex(v2, s2) <==> v1 > v2 || (v1 == v2 && s1 < s2)
    ensures SortIndex(v1, s1) == SortIndex(v2, s2) <==> v1 == v2 && s1 == s2
  {
    assert SortIndex(v1, s1) == -v1 * 256 + s1;
    assert SortIndex(v2, s2) == -v2 * 256 + s2;
  }

  // ---------------------------------------------------------------------
  // `Arrays.sort(int[])`, as a function on the array's contents.

  predicate NonDecreasing(s: seq<int>)
  {
    forall i, j :: 0 <= i < j < |s| ==> s[i] <= s[j]
  }

  function InsertInt(x: int, s: seq<int>): seq<int>
  {
    if s == [] || x <= s[0] then [x] + s else [s[0]] + InsertInt(x, s[1..])
  }

  /** The ascending sort, by insertion. */
  function SortInts(s: seq<int>): seq<int>
  {
    if s == [] then [] else InsertInt(s[0], SortInts(s[1..]))
  }

  /** The low bytes of the keys: the squares they encode. */
  function LowBytes(s: seq<int>): (r: seq<int>)
    ensures |r| == |s| && forall i :: 0 <= i < |s| ==> r[i] == LowByte(s[i])
  {
    seq(|s|, i requires 0 <= i < |s| => LowByte(s[i]))
  }

  /** Inserting adds exactly x. */
  lemma {:induction false} InsertIntMultiset(x: int, s: seq<int>)
    ensures multiset(InsertInt(x, s)) == multiset(s) + multiset{x}
    decreases |s|
  {
    if s != [] && x > s[0] {
      InsertIntMultiset(x, s[1..]);
      assert s == [s[0]] + s[1..];
    }
  }

  /** Inserting into an ascending sequence keeps it ascending. */
  lemma {:induction false} InsertIntSorted(x: int, s: seq<int>)
    requires NonDecreasing(s)
    ensures NonDecreasing(InsertInt(x, s))
    decreases |s|
  {
    if s != [] && x > s[0] {
      var rest := InsertInt(x, s[1..]);
      InsertIntSorted(x, s[1..]);
      InsertIntMultiset(x, s[1..]);
      forall j | 0 <= j < |rest|
        ensures s[0] <= rest[j]
      {
        assert rest[j] in multiset(rest);
        assert rest[j] in s[1..] || rest[j] == x;
      }
      assert InsertInt(x, s) == [s[0]] + rest;
    }
  }

  /** A list with a first square is duplicate-free when the rest is and lacks that square. */
  lemma DistinctCons(a: int, t: seq<int>)
    ensures Distinct([a] + t) <==> a !in t && Distinct(t)
  {
    var s := [a] + t;
    if a !in t && Distinct(t) {
      forall i, j | 0 <= i < j < |s|
        ensures s[i] != s[j]
      {
        assert s[j] == t[j - 1];
        if i > 0 {
          assert s[i] == t[i - 1];
        }
      }
    }
    if Distinct(s) {
      forall i, j | 0 <= i < j < |t|
        ensures t[i] != t[j]
      {
        assert t[i] == s[i + 1] && t[j] == s[j + 1];
      }
      forall k | 0 <= k < |t|
        ensures t[k] != a
      {
        assert t[k] == s[k + 1] && a == s[0];
      }
    }
  }

  /** The squares the keys encode: the new key's square is added, and distinct squares stay distinct. */
  lemma {:induction false} InsertIntBytes(x: int, s: seq<int>)
    ensures forall y :: y in LowBytes(InsertInt(x, s)) <==> y in LowBytes(s) || y == LowByte(x)
    ensures Distinct(LowBytes(s)) && LowByte(x) !in LowBytes(s) ==> Distinct(LowBytes(InsertInt(x, s)))
    decreases |s|
  {
    if s != [] && x > s[0] {
      var rest := InsertInt(x, s[1..]);
      InsertIntBytes(x, s[1..]);
      assert LowBytes(s) == [LowByte(s[0])] + LowBytes(s[1..]);
      assert LowBytes(InsertInt(x, s)) == [LowByte(s[0])] + LowBytes(rest);
      DistinctCons(LowByte(s[0]), LowBytes(s[1..]));
      DistinctCons(LowByte(s[0]), LowBytes(rest));
    } else {
      assert LowBytes(InsertInt(x, s)) == [LowByte(x)] + LowBytes(s);
      DistinctCons(LowByte(x), LowBytes(s));
    }
  }

  /**
   * `Arrays.sort`: the result is in ascending order and holds the same keys;
   * keys that encode distinct squares still do, and the same squares.
   */
  lemma {:induction false} SortIntsSpec(s: seq<int>)
    ensures NonDecreasing(SortInts(s))
    ensures multiset(SortInts(s)) == multiset(s)
    ensures forall y :: y in LowBytes(SortInts(s)) <==> y in LowBytes(s)
    ensures Distinct(LowBytes(s)) ==> Distinct(LowBytes(SortInts(s)))
    decreases |s|
  {
    if s != [] {
      SortIntsSpec(s[1..]);
      InsertIntMultiset(s[0], SortInts(s[1..]));
      InsertIntSorted(s[0], SortInts(s[1..]));
      InsertIntBytes(s[0], SortInts(s[1..]));
      assert s == [s[0]] + s[1..];
      assert LowBytes(s) == [LowByte(s[0])] + LowBytes(s[1..]);
    }
  }

  /**
   * After `Arrays.sort`, moves come by descending shallow value and, among
   * equal values, by ascending square, as long as no key overflowed.
   */
  lemma SortedKeysOrder(t: seq<int>, i: int, j: int, v1: int, s1: int, v2: int, s2: int)
    requires NonDecreasing(t) && 0 <= i < j < |t|
    requires -0x7F_FFFF <= v1 <= 0x7F_FFFF && -0x7F_FFFF <= v2 <= 0x7F_FFFF
    requires 0 <= s1 < 256 && 0 <= s2 < 256
    requires t[i] == SortIndex(v1, s1) && t[j] == SortIndex(v2, s2)
    ensures v1 > v2 || (v1 == v2 && s1 <= s2)
  {
    SortIndexOrder(v1, s1, v2, s2);
  }

  // ---------------------------------------------------------------------
  // The unsorted move order (`masks`).

  /** `BitBoardUtils.CORNERS`. */
  const CORNERS: Bitboard := {0, 7, 56, 63}
  /** `BitBoardUtils.X_SQUARES`: the squares diagonally inside the corners. */
  const X_SQUARES: Bitboard := {9, 14, 49, 54}

  /** `masks`: corners first, then the squares that are neither corners nor X-squares, then X-squares. */
  function OrderMasks(): seq<Bitboard>
  {
    [CORNERS, Not(CORNERS + X_SQUARES), X_SQUARES]
  }

  /** The three masks partition the board. */
  lemma OrderMasksPartition()
    ensures Partition(OrderMasks())
  {
    var m := OrderMasks();
    assert m[..1][..0] == [] && m[..2][..1] == m[..1] && m[..3][..2] == m[..2] && m[..3] == m;
    assert MasksUnion(m[..1]) == CORNERS;
    assert MasksUnion(m[..2]) == CORNERS + Not(CORNERS + X_SQUARES);
    assert MasksUnion(m) == CORNERS + Not(CORNERS + X_SQUARES) + X_SQUARES;
    assert CORNERS * X_SQUARES == {};
  }

  /**
   * The unsorted loop visits the moves corners first, then the other
   * non-X-squares, then the X-squares, ascending inside each mask: each
   * move exactly once.
   */
  lemma UnsortedOrderSpec(moves: Bitboard)
    ensures Distinct(OrderedEmpties(moves, OrderMasks()))
    ensures forall x :: x in OrderedEmpties(moves, OrderMasks()) <==> x in moves
  {
    OrderMasksPartition();
    OrderedEmptiesSpec(moves, OrderMasks());
    forall x | x in moves
      ensures x in MasksUnion(OrderMasks())
    {
      assert x in ALL;
    }
  }

  // ---------------------------------------------------------------------
  // The order a node visits its moves in.

  /**
   * The keys `sortMoves` leaves in `sortIndices`: the move found k-th by
   * `numberOfTrailingZeros` goes to slot `bitCount` of the moves left
   * after it, so the list of moves in ascending order ends up reversed.
   */
  function KeysRev(value: int -> int, sqs: seq<int>): (keys: seq<int>)
    ensures |keys| == |sqs|
  {
    if sqs == [] then [] else KeysRev(value, sqs[1..]) + [SortIndex(value(sqs[0]), sqs[0])]
  }

  /** The key of the k-th square sits k places from the end. */
  lemma KeysRevAt(value: int -> int, sqs: seq<int>, k: int)
    requires 0 <= k < |sqs|
    ensures KeysRev(value, sqs)[|sqs| - 1 - k] == SortIndex(value(sqs[k]), sqs[k])
  {
    KeysRevSpec(value, sqs);
  }

  lemma {:induction false} KeysRevSpec(value: int -> int, sqs: seq<int>)
    ensures forall k :: 0 <= k < |sqs| ==> KeysRev(value, sqs)[|sqs| - 1 - k] == SortIndex(value(sqs[k]), sqs[k])
    decreases |sqs|
  {
    if sqs != [] {
      KeysRevSpec(value, sqs[1..]);
      forall k | 0 <= k < |sqs|
        ensures KeysRev(value, sqs)[|sqs| - 1 - k] == SortIndex(value(sqs[k]), sqs[k])
      {
        if k > 0 {
          assert sqs[k] == sqs[1..][k - 1];
        }
      }
    }
  }

  /** The low bytes of the keys are the squares, last first. */
  lemma KeysRevLow(value: int -> int, sqs: seq<int>)
    requires forall k :: 0 <= k < |sqs| ==> sqs[k] in ALL
    ensures forall j :: 0 <= j < |sqs| ==> LowBytes(KeysRev(value, sqs))[j] == sqs[|sqs| - 1 - j]
  {
    var n := |sqs|;
    forall j | 0 <= j < n
      ensures LowBytes(KeysRev(value, sqs))[j] == sqs[n - 1 - j]
    {
      var k := n - 1 - j;
      KeysRevAt(value, sqs, k);
      assert n - 1 - k == j;
      SortIndexSquare(value(sqs[k]), sqs[k]);
    }
  }

  /** Every key is the key of the square in its low byte. */
  lemma {:induction false} KeysRevKeys(value: int -> int, sqs: seq<int>)
    requires forall k :: 0 <= k < |sqs| ==> sqs[k] in ALL
    ensures forall x :: x in KeysRev(value, sqs) ==> KeyOf(value, x)
    decreases |sqs|
  {
    if sqs != [] {
      var rest := sqs[1..];
      assert forall k :: 0 <= k < |rest| ==> rest[k] == sqs[k + 1];
      KeysRevKeys(value, rest);
      SortIndexSquare(value(sqs[0]), sqs[0]);
      assert KeyOf(value, SortIndex(value(sqs[0]), sqs[0]));
    }
  }

  /** x is the key of the square in its low byte. */
  predicate KeyOf(value: int -> int, x: int)
  {
    0 <= LowByte(x) < 64 && x == SortIndex(value(LowByte(x)), LowByte(x))
  }

  /** The squares of a bitboard are squares of the board. */
  lemma InAll(sqs: seq<int>, moves: Bitboard)
    requires forall x :: x in sqs <==> x in moves
    ensures forall k :: 0 <= k < |sqs| ==> sqs[k] in ALL
  {
    forall k | 0 <= k < |sqs|
      ensures sqs[k] in ALL
    {
      assert sqs[k] in sqs;
    }
  }

  /**
   * The order a node with these moves visits them in: at depth 5 and more,
   * by the sorted keys of the shallow values; below, by the masks.
   */
  function VisitOrder(value: int -> int, moves: Bitboard, depth: int): seq<int>
  {
    if depth >= 5 then LowBytes(SortInts(KeysRev(value, SquareList(moves))))
    else OrderedEmpties(moves, OrderMasks())
  }

  /** The low bytes of the keys of a bitboard's moves: each move once; and each key is its square's. */
  lemma KeysRevBytes(value: int -> int, moves: Bitboard)
    ensures Distinct(LowBytes(KeysRev(value, SquareList(moves))))
    ensures forall x :: x in LowBytes(KeysRev(value, SquareList(moves))) <==> x in moves
    ensures forall x :: x in KeysRev(value, SquareList(moves)) ==> KeyOf(value, x)
  {
    var sqs := SquareList(moves);
    SquareListSpec(moves);
    InAll(sqs, moves);
    KeysRevLow(value, sqs);
    KeysRevKeys(value, sqs);
    var bytes := LowBytes(KeysRev(value, sqs));
    var n := |sqs|;
    forall i, j | 0 <= i < j < n
      ensures bytes[i] != bytes[j]
    {
      assert bytes[i] == sqs[n - 1 - i] && bytes[j] == sqs[n - 1 - j];
    }
    forall x
      ensures x in bytes <==> x in sqs
    {
      if x in bytes {
        var i :| 0 <= i < n && bytes[i] == x;
        assert sqs[n - 1 - i] == x;
      }
      if x in sqs {
        var k :| 0 <= k < n && sqs[k] == x;
        assert bytes[n - 1 - k] == sqs[n - 1 - (n - 1 - k)];
      }
    }
  }

  /** Either way, each move is visited exactly once and nothing else is. */
  lemma VisitOrderSpec(value: int -> int, moves: Bitboard, depth: int)
    ensures Distinct(VisitOrder(value, moves, depth))
    ensures forall x :: x in VisitOrder(value, moves, depth) <==> x in moves
  {
    if depth >= 5 {
      KeysRevBytes(value, moves);
      SortIntsSpec(KeysRev(value, SquareList(moves)));
    } else {
      UnsortedOrderSpec(moves);
    }
  }

  /**
   * At depth 5 and more, as long as no key overflows, the moves come by
   * descending shallow value, and among equal values by ascending square.
   */
  lemma SortedVisitOrder(value: int -> int, moves: Bitboard, depth: int, i: int, j: int)
    requires depth >= 5 && 0 <= i < j < |VisitOrder(value, moves, depth)|
    requires forall sq :: sq in moves ==> -0x7F_FFFF <= value(sq) <= 0x7F_FFFF
    ensures var v := VisitOrder(value, moves, depth);
      value(v[i]) > value(v[j]) || (value(v[i]) == value(v[j]) && v[i] < v[j])
  {
    var keys := KeysRev(value, SquareList(moves));
    KeysRevBytes(value, moves);
    var t := SortInts(keys);
    SortIntsSpec(keys);
    var v := LowBytes(t);
    assert t[i] in multiset(keys) && t[j] in multiset(keys);
    assert KeyOf(value, t[i]) && KeyOf(value, t[j]);
    assert v[i] == LowByte(t[i]) && v[j] == LowByte(t[j]);
    assert v[i] in moves && v[j] in moves && v[i] != v[j];
    SortedKeysOrder(t, i, j, value(v[i]), v[i], value(v[j]), v[j]);
  }

  /** The masks up to i list a prefix of what all the masks list. */
  lemma {:induction false} OrderedEmptiesPrefix(e: Bitboard, masks: seq<Bitboard>, j: int)
    requires 0 <= j <= |masks|
    ensures |OrderedEmpties(e, masks[..j])| <= |OrderedEmpties(e, masks)|
    ensures OrderedEmpties(e, masks)[..|OrderedEmpties(e, masks[..j])|] == OrderedEmpties(e, masks[..j])
    decreases |masks|
  {
    if j < |masks| {
      var init := masks[..|masks| - 1];
      OrderedEmptiesPrefix(e, init, j);
      assert init[..j] == masks[..j];
    } else {
      assert masks[..j] == masks;
    }
  }

  /** Where mask i's squares sit in the whole order: right after those of the masks before it. */
  lemma MaskSlice(e: Bitboard, masks: seq<Bitboard>, i: int)
    requires 0 <= i < |masks|
    ensures var p, l := OrderedEmpties(e, masks[..i]), SquareList(e * masks[i]);
      OrderedEmpties(e, masks[..i + 1]) == p + l && |l| == |e * masks[i]| &&
      |p| + |l| <= |OrderedEmpties(e, masks)| && OrderedEmpties(e, masks)[|p|..|p| + |l|] == l
  {
    var p, l := OrderedEmpties(e, masks[..i]), SquareList(e * masks[i]);
    assert masks[..i + 1][..i] == masks[..i];
    SquareListSpec(e * masks[i]);
    OrderedEmptiesPrefix(e, masks, i + 1);
    var all := OrderedEmpties(e, masks);
    assert all[..|p| + |l|] == p + l;
    assert all[|p|..|p| + |l|] == (p + l)[|p|..];
  }

  /** `Arrays.sort(int[])`. */
  method SortArray(a: array<int>)
    modifies a
    ensures a[..] == SortInts(old(a[..]))
  {
    var t := SortInts(a[..]);
    SortIntsSpec(a[..]);
    assert |t| == a.Length by {
      assert |multiset(t)| == |multiset(a[..])|;
    }
    forall i | 0 <= i < a.Length {
      a[i] := t[i];
    }
    assert a[..] == t;
  }

  /**
   * The suggested move first, then the others without it: no move is
   * searched twice, and the suggestion is searched even when it is not
   * among the moves.
   */
  lemma SuggestedOrder(value: int -> int, moves: Bitboard, depth: int, suggested: int)
    ensures Distinct([suggested] + VisitOrder(value, moves - {suggested}, depth))
    ensures forall x :: x in [suggested] + VisitOrder(value, moves - {suggested}, depth) <==> x in moves || x == suggested
  {
    VisitOrderSpec(value, moves - {suggested}, depth);
    DistinctCons(suggested, VisitOrder(value, moves - {suggested}, depth));
  }

  // ---------------------------------------------------------------------
  // Options.

  /** `MidgameSearcher.Options`. */
  datatype Options = Options(mpc: bool, variableEndgame: bool, variableMidgame: bool, printSearch: bool, experimental: bool)

  /** `new Options(options)`: each flag is one character of the string. */
  function ParseOptions(s: string): (o: Options)
  {
    Options('w' !in s, 'S' !in s, 'v' in s, 'p' in s, 'x' in s)
  }

  /** The default options `new Options("")`: MPC and the variable endgame on, the rest off. */
  lemma DefaultOptions()
    ensures ParseOptions("") == Options(true, true, false, false, false)
  {
  }

  // ---------------------------------------------------------------------
  // `BA` and the move loop.

  /** `BA`: a mutable best move and score. */
  class BA {
    var bestMove: int
    var score: int

    /** `new BA()`: bestMove -1 and score `NovelloUtils.NO_MOVE`, here noMove. */
    constructor(noMove: int)
      ensures bestMove == -1 && score == noMove
    {
      bestMove := -1;
      score := noMove;
    }

    /** `isValid(alpha)`. */
    predicate IsValid(alpha: int)
      reads this
    {
      score <= alpha || bestMove >= 0
    }

    /** The fields hold the move and score of a loop state. */
    predicate Matches(st: LoopState)
      reads this
    {
      bestMove == st.bestMove && score == st.score
    }
  }

  /** A BA with a move is valid for any alpha, and a fresh one for any alpha from noMove on. */
  lemma ValidBA(ba: BA, noMove: int, alpha: int)
    ensures ba.bestMove >= 0 ==> ba.IsValid(alpha)
    ensures ba.bestMove == -1 && ba.score == noMove && noMove <= alpha ==> ba.IsValid(alpha)
    ensures ba.IsValid(alpha) <==> ba.score <= alpha || ba.bestMove >= 0
  {
  }

  /** The BA fields and alpha as the move loops update them. */
  datatype LoopState = LoopState(bestMove: int, score: int, alpha: int)

  /** The state a fresh BA starts a loop in, for window (alpha, _). */
  function Fresh(noMove: int, alpha: int): LoopState
  {
    LoopState(-1, noMove, alpha)
  }

  /** One searched move with result sub, as every move loop of both searchers does it. */
  function Step(st: LoopState, sq: int, sub: int): LoopState
  {
    if sub > st.score then
      if sub > st.alpha then LoopState(sq, sub, sub) else LoopState(st.bestMove, sub, st.alpha)
    else st
  }

  /** The loop returns right after this move: `subScore >= beta` inside both improvements. */
  predicate Cuts(st: LoopState, sub: int, beta: int)
  {
    sub > st.score && sub > st.alpha && sub >= beta
  }

  /** The state after the moves sqs[0..|subs|) returned subs. */
  function Steps(st: LoopState, sqs: seq<int>, subs: seq<int>): LoopState
    requires |subs| <= |sqs|
    decreases |subs|
  {
    if subs == [] then st
    else
      var n := |subs| - 1;
      Step(Steps(st, sqs, subs[..n]), sqs[n], subs[n])
  }

  /** No move among the first |subs| cut the loop off. */
  predicate CutFree(st: LoopState, beta: int, sqs: seq<int>, subs: seq<int>)
    requires |subs| <= |sqs|
    decreases |subs|
  {
    subs == [] ||
    var n := |subs| - 1;
    CutFree(st, beta, sqs, subs[..n]) && !Cuts(Steps(st, sqs, subs[..n]), subs[n], beta)
  }

  /**
   * A loop over sqs returned after the moves that gave subs: no move before
   * the last one cut off, and the loop stopped before the end of sqs only
   * because the last one did.
   */
  predicate Ran(st: LoopState, beta: int, sqs: seq<int>, subs: seq<int>)
  {
    |subs| <= |sqs| &&
    if subs == [] then sqs == []
    else
      var n := |subs| - 1;
      CutFree(st, beta, sqs, subs[..n]) && (|subs| < |sqs| ==> Cuts(Steps(st, sqs, subs[..n]), subs[n], beta))
  }

  /** One more move, after a prefix without cutoff: the loop goes on, or it has run. */
  lemma StepsAppend(st: LoopState, beta: int, sqs: seq<int>, subs: seq<int>, sub: int)
    requires |subs| < |sqs| && CutFree(st, beta, sqs, subs)
    ensures Steps(st, sqs, subs + [sub]) == Step(Steps(st, sqs, subs), sqs[|subs|], sub)
    ensures !Cuts(Steps(st, sqs, subs), sub, beta) ==> CutFree(st, beta, sqs, subs + [sub])
    ensures Cuts(Steps(st, sqs, subs), sub, beta) || |subs| + 1 == |sqs| ==> Ran(st, beta, sqs, subs + [sub])
  {
    assert (subs + [sub])[..|subs|] == subs;
  }

  /** A loop over no moves has run. */
  lemma RanEmpty(st: LoopState, beta: int)
    ensures Ran(st, beta, [], [])
  {
  }

  /** The fold only reads the squares it reached. */
  lemma {:induction false} StepsPrefix(st: LoopState, sqs: seq<int>, sqs': seq<int>, subs: seq<int>)
    requires |subs| <= |sqs| && |subs| <= |sqs'| && sqs[..|subs|] == sqs'[..|subs|]
    ensures Steps(st, sqs, subs) == Steps(st, sqs', subs)
    ensures forall beta :: CutFree(st, beta, sqs, subs) == CutFree(st, beta, sqs', subs)
    decreases |subs|
  {
    if subs != [] {
      var n := |subs| - 1;
      assert sqs[n] == sqs[..|subs|][n];
      StepsPrefix(st, sqs[..n] + sqs[n..], sqs', subs[..n]);
      assert sqs[..n] + sqs[n..] == sqs;
    }
  }

  /** A first move searched on its own, then a loop over the rest: one loop over both (`treeMoveWithSuggestion`). */
  lemma {:induction false} StepsCons(st: LoopState, sq: int, sub: int, sqs: seq<int>, subs: seq<int>)
    requires |subs| <= |sqs|
    ensures Steps(st, [sq] + sqs, [sub] + subs) == Steps(Step(st, sq, sub), sqs, subs)
    ensures forall beta :: !Cuts(st, sub, beta) ==>
      CutFree(st, beta, [sq] + sqs, [sub] + subs) == CutFree(Step(st, sq, sub), beta, sqs, subs)
    decreases |subs|
  {
    if subs == [] {
      assert ([sub] + subs)[..0] == [];
    } else {
      var n := |subs| - 1;
      assert ([sub] + subs)[..n + 1] == [sub] + subs[..n];
      StepsCons(st, sq, sub, sqs, subs[..n]);
      assert ([sq] + sqs)[n + 1] == sqs[n];
    }
  }

  /** A first move that did not cut off, then a loop that ran over the rest: a loop that ran over both. */
  lemma RanCons(st: LoopState, beta: int, sq: int, sub: int, sqs: seq<int>, subs: seq<int>)
    requires !Cuts(st, sub, beta) && Ran(Step(st, sq, sub), beta, sqs, subs)
    ensures Ran(st, beta, [sq] + sqs, [sub] + subs)
    ensures Steps(st, [sq] + sqs, [sub] + subs) == Steps(Step(st, sq, sub), sqs, subs)
  {
    StepsCons(st, sq, sub, sqs, subs);
    if subs == [] {
      assert ([sub] + subs)[..0] == [];
    } else {
      var n := |subs| - 1;
      StepsCons(st, sq, sub, sqs, subs[..n]);
      assert ([sub] + subs)[..n + 1] == [sub] + subs[..n];
      assert ([sq] + sqs)[n + 1] == sqs[n];
    }
  }

  /** Every move searched without a cutoff: the loop has run. */
  lemma CutFreeRan(st: LoopState, beta: int, sqs: seq<int>, subs: seq<int>)
    requires |subs| == |sqs| && CutFree(st, beta, sqs, subs)
    ensures Ran(st, beta, sqs, subs)
  {
  }

  /** The best move a loop leaves is the one it started with or one of the moves it searched. */
  lemma {:induction false} StepsMove(st: LoopState, sqs: seq<int>, subs: seq<int>)
    requires |subs| <= |sqs|
    ensures Steps(st, sqs, subs).bestMove == st.bestMove ||
      exists k :: 0 <= k < |subs| && Steps(st, sqs, subs).bestMove == sqs[k]
    decreases |subs|
  {
    if subs != [] {
      var n := |subs| - 1;
      StepsMove(st, sqs, subs[..n]);
      var p := Steps(st, sqs, subs[..n]);
      if Steps(st, sqs, subs).bestMove != st.bestMove && Steps(st, sqs, subs).bestMove != sqs[n] {
        var k :| 0 <= k < n && p.bestMove == sqs[k];
      }
    }
  }

  /**
   * Each result meets a condition `fits(square, alpha, result)` with the
   * alpha the loop had when it searched the move: what the caller knows
   * about the sub-searches.
   */
  ghost predicate AllFit(st: LoopState, sqs: seq<int>, subs: seq<int>, fits: (int, int, int) -> bool)
    requires |subs| <= |sqs|
    decreases |subs|
  {
    subs == [] ||
    var n := |subs| - 1;
    AllFit(st, sqs, subs[..n], fits) && fits(sqs[n], Steps(st, sqs, subs[..n]).alpha, subs[n])
  }

  lemma AllFitAppend(st: LoopState, sqs: seq<int>, subs: seq<int>, fits: (int, int, int) -> bool, sub: int)
    requires |subs| < |sqs| && AllFit(st, sqs, subs, fits)
    requires fits(sqs[|subs|], Steps(st, sqs, subs).alpha, sub)
    ensures AllFit(st, sqs, subs + [sub], fits)
  {
    assert (subs + [sub])[..|subs|] == subs;
  }

  /** A first move searched on its own, then a loop over the rest. */
  lemma {:induction false} AllFitCons(st: LoopState, sq: int, sub: int, sqs: seq<int>, subs: seq<int>, fits: (int, int, int) -> bool)
    requires |subs| <= |sqs| && fits(sq, st.alpha, sub) && AllFit(Step(st, sq, sub), sqs, subs, fits)
    ensures AllFit(st, [sq] + sqs, [sub] + subs, fits)
    decreases |subs|
  {
    if subs == [] {
      assert ([sub] + subs)[..0] == [];
    } else {
      var n := |subs| - 1;
      AllFitCons(st, sq, sub, sqs, subs[..n], fits);
      assert ([sub] + subs)[..n + 1] == [sub] + subs[..n];
      StepsCons(st, sq, sub, sqs, subs[..n]);
      assert ([sq] + sqs)[n + 1] == sqs[n];
    }
  }

  /** The largest of x and the elements of s. */
  function MaxFrom(x: int, s: seq<int>): int
    decreases |s|
  {
    if s == [] then x else Max(MaxFrom(x, s[..|s| - 1]), s[|s| - 1])
  }

  /**
   * What a loop leaves in BA: the score is the best of the start score and
   * the results; alpha is raised to the score once it exceeds the start
   * alpha, and then the best move is a searched move with exactly that
   * result; otherwise the best move is the one the loop started with.
   */
  lemma {:induction false} StepsSpec(st: LoopState, sqs: seq<int>, subs: seq<int>)
    requires |subs| <= |sqs| && st.score <= st.alpha
    ensures Steps(st, sqs, subs).score == MaxFrom(st.score, subs)
    ensures Steps(st, sqs, subs).alpha == Max(st.alpha, Steps(st, sqs, subs).score)
    ensures Steps(st, sqs, subs).score > st.alpha ==>
      exists k :: 0 <= k < |subs| && Steps(st, sqs, subs).bestMove == sqs[k] && subs[k] == Steps(st, sqs, subs).score
    ensures Steps(st, sqs, subs).score <= st.alpha ==> Steps(st, sqs, subs).bestMove == st.bestMove
    decreases |subs|
  {
    if subs != [] {
      var n := |subs| - 1;
      StepsSpec(st, sqs, subs[..n]);
      var p := Steps(st, sqs, subs[..n]);
      if p.score > st.alpha && !(subs[n] > p.score) {
        var k :| 0 <= k < n && p.bestMove == sqs[k] && subs[..n][k] == p.score;
        assert subs[k] == p.score;
      }
    }
  }

  /** A loop started from a fresh BA leaves a valid BA: a move whenever the score beats alpha. */
  lemma RanValid(noMove: int, alpha: int, sqs: seq<int>, subs: seq<int>)
    requires noMove <= alpha && |subs| <= |sqs|
    requires forall k :: 0 <= k < |sqs| ==> sqs[k] >= 0
    ensures Steps(Fresh(noMove, alpha), sqs, subs).score <= alpha || Steps(Fresh(noMove, alpha), sqs, subs).bestMove >= 0
  {
    StepsSpec(Fresh(noMove, alpha), sqs, subs);
  }

  /** A loop that stopped early did so on a result at or above beta. */
  lemma RanCutoff(st: LoopState, beta: int, sqs: seq<int>, subs: seq<int>)
    requires Ran(st, beta, sqs, subs) && |subs| < |sqs|
    ensures Steps(st, sqs, subs).score >= beta
  {
  }

  /** The largest of the values of a non-empty sequence. */
  function MaxOf(s: seq<int>): int
    requires s != []
    decreases |s|
  {
    if |s| == 1 then s[0] else Max(MaxOf(s[..|s| - 1]), s[|s| - 1])
  }

  lemma {:induction false} MaxOfSpec(s: seq<int>)
    requires s != []
    ensures forall i :: 0 <= i < |s| ==> s[i] <= MaxOf(s)
    ensures exists i :: 0 <= i < |s| && s[i] == MaxOf(s)
    decreases |s|
  {
    if |s| == 1 {
      assert s[0] == MaxOf(s);
    } else {
      var n := |s| - 1;
      var m := MaxOf(s[..n]);
      assert MaxOf(s) == Max(m, s[n]);
      MaxOfSpec(s[..n]);
      var i :| 0 <= i < n && s[..n][i] == m;
      forall k | 0 <= k < |s|
        ensures s[k] <= MaxOf(s)
      {
        if k < n {
          assert s[k] == s[..n][k];
        }
      }
      if s[n] >= m {
        assert s[n] == MaxOf(s);
      } else {
        assert s[i] == MaxOf(s);
      }
    }
  }

  /**
   * Each of the first |subs| results is a fail-soft result for its move's
   * value, searched with the window the loop had reached by then.
   */
  ghost predicate SearchedSoft(st: LoopState, beta: int, sqs: seq<int>, subs: seq<int>, vals: seq<int>)
    requires |subs| <= |sqs| && |subs| <= |vals|
    decreases |subs|
  {
    subs == [] ||
    var n := |subs| - 1;
    SearchedSoft(st, beta, sqs, subs[..n], vals) && FailSoft(subs[n], vals[n], Steps(st, sqs, subs[..n]).alpha, beta)
  }

  /** One more fail-soft result. */
  lemma SearchedSoftAppend(st: LoopState, beta: int, sqs: seq<int>, subs: seq<int>, vals: seq<int>, sub: int)
    requires |subs| < |sqs| && |subs| < |vals| && SearchedSoft(st, beta, sqs, subs, vals)
    requires FailSoft(sub, vals[|subs|], Steps(st, sqs, subs).alpha, beta)
    ensures SearchedSoft(st, beta, sqs, subs + [sub], vals)
  {
    assert (subs + [sub])[..|subs|] == subs;
  }

  /**
   * The invariant behind LoopFailSoft, after the first m moves without a
   * cutoff: their values are at most the score, the score is below beta,
   * once it beats the start alpha it is one of their values, and alpha is
   * the larger of the start alpha and the score.
   */
  ghost predicate Bracketed(alpha0: int, st: LoopState, beta: int, vals: seq<int>, m: nat)
    requires m <= |vals|
  {
    (forall i :: 0 <= i < m ==> vals[i] <= st.score) && st.score < beta &&
    (st.score > alpha0 ==> exists j :: 0 <= j < m && vals[j] == st.score) &&
    st.alpha == Max(alpha0, st.score)
  }

  /** One move that did not cut off keeps the invariant. */
  lemma BracketStep(alpha0: int, p: LoopState, beta: int, vals: seq<int>, m: nat, sq: int, sub: int)
    requires alpha0 < beta && m < |vals| && Bracketed(alpha0, p, beta, vals, m)
    requires FailSoft(sub, vals[m], p.alpha, beta) && !Cuts(p, sub, beta)
    ensures Bracketed(alpha0, Step(p, sq, sub), beta, vals, m + 1)
  {
    var q := Step(p, sq, sub);
    assert vals[m] < beta;
    if q.score > alpha0 && q == p {
      var j :| 0 <= j < m && vals[j] == p.score;
    }
  }

  lemma {:induction false} CutFreeBracketed(noMove: int, alpha: int, beta: int, sqs: seq<int>, subs: seq<int>, vals: seq<int>)
    requires noMove <= alpha < beta && |subs| <= |sqs| && |subs| <= |vals|
    requires SearchedSoft(Fresh(noMove, alpha), beta, sqs, subs, vals)
    requires CutFree(Fresh(noMove, alpha), beta, sqs, subs)
    ensures Bracketed(alpha, Steps(Fresh(noMove, alpha), sqs, subs), beta, vals, |subs|)
    decreases |subs|
  {
    if subs != [] {
      var n := |subs| - 1;
      CutFreeBracketed(noMove, alpha, beta, sqs, subs[..n], vals);
      BracketStep(alpha, Steps(Fresh(noMove, alpha), sqs, subs[..n]), beta, vals, n, sqs[n], subs[n]);
    }
  }

  /**
   * The move loop is fail-soft: when each searched move's result is a
   * fail-soft result for its value with the loop's current alpha, the
   * loop's score is a fail-soft result for the best value of all the moves,
   * whether it searched them all or cut off.
   */
  lemma LoopFailSoft(noMove: int, alpha: int, beta: int, sqs: seq<int>, subs: seq<int>, vals: seq<int>)
    requires noMove <= alpha < beta && sqs != [] && |vals| == |sqs|
    requires Ran(Fresh(noMove, alpha), beta, sqs, subs)
    requires SearchedSoft(Fresh(noMove, alpha), beta, sqs, subs, vals)
    ensures FailSoft(Steps(Fresh(noMove, alpha), sqs, subs).score, MaxOf(vals), alpha, beta)
  {
    var n := |subs| - 1;
    CutFreeBracketed(noMove, alpha, beta, sqs, subs[..n], vals);
    var p := Steps(Fresh(noMove, alpha), sqs, subs[..n]);
    MaxOfSpec(vals);
    if Cuts(p, subs[n], beta) {
      LastCuts(alpha, beta, p, vals, n, sqs[n], subs[n]);
    } else {
      BracketStep(alpha, p, beta, vals, n, sqs[n], subs[n]);
      BracketedFailSoft(alpha, beta, Step(p, sqs[n], subs[n]), vals);
    }
  }

  /** A cutoff: the result is at least beta and at most the cutting move's value. */
  lemma LastCuts(alpha: int, beta: int, p: LoopState, vals: seq<int>, n: nat, sq: int, sub: int)
    requires alpha < beta && n < |vals| && Max(alpha, p.score) == p.alpha && p.score < beta
    requires FailSoft(sub, vals[n], p.alpha, beta) && Cuts(p, sub, beta)
    requires forall i :: 0 <= i < |vals| ==> vals[i] <= MaxOf(vals)
    ensures FailSoft(Step(p, sq, sub).score, MaxOf(vals), alpha, beta)
  {
    assert vals[n] <= MaxOf(vals);
  }

  /** Every move searched: the invariant is the fail-soft property for the best value. */
  lemma BracketedFailSoft(alpha: int, beta: int, st: LoopState, vals: seq<int>)
    requires vals != [] && Bracketed(alpha, st, beta, vals, |vals|)
    requires forall i :: 0 <= i < |vals| ==> vals[i] <= MaxOf(vals)
    requires exists i :: 0 <= i < |vals| && vals[i] == MaxOf(vals)
    ensures FailSoft(st.score, MaxOf(vals), alpha, beta)
  {
    if st.score > alpha {
      var j :| 0 <= j < |vals| && vals[j] == st.score;
    }
  }
}
