/**
 * `MidgameSearch`: one search of `MidgameSearcher`'s alpha-beta skeleton,
 * built for a root depth and an MPC width. It differs from
 * `MidgameSearcher` in three ways: the opening book answers any position
 * with book data and at least `minBookCheckEmpties` empties; the hash
 * tables are read and written per MPC width, and so are the cutters'
 * windows; and a sorted move loop after a searched move, deeper than 14,
 * goes through `treeMoveFork`, whose body is that of `treeMoveSorted`.
 * The evaluation, the cutters, the shallow solver and the book are
 * functions the search is built with; the abort check is a function of
 * how often it was asked before. A search that is aborted returns None (a
 * BA method: null), standing for `SearchAbortedException`.
 */
module MidgameSearching {
  import opened Bitboards
  import opened Rays
  import opened Game
  import opened Squares
  import opened EmptySquares
  import opened Optional
  import opened MidgameCommon
  import opened MidgameHash
  import opened Midgame

  /** `Mpc.Cutter` as `MidgameSearch` calls it: the shallow window also depends on the MPC width. */
  datatype WidthCutter = WidthCutter(shallowAlpha: (int, int) -> int, shallowBeta: (int, int) -> int, shallowDepth: int)

  /** Every cutter searches shallower than the search it stands in for. */
  ghost predicate WidthCuttersShallower(cutters: (int, int) -> seq<WidthCutter>)
  {
    forall nEmpty, depth, i :: 0 <= i < |cutters(nEmpty, depth)| ==> cutters(nEmpty, depth)[i].shallowDepth < depth
  }

  /** The shallow windows of the cutters for the window (alpha, beta) at this MPC width. */
  function WidthWindows(cs: seq<WidthCutter>, alpha: int, beta: int, width: int): (r: seq<Window>)
    ensures |r| == |cs|
    ensures forall k :: 0 <= k < |cs| ==>
      r[k] == Window(cs[k].shallowAlpha(alpha, width), cs[k].shallowBeta(beta, width), cs[k].shallowDepth)
  {
    if cs == [] then []
    else
      var w := Window(cs[0].shallowAlpha(alpha, width), cs[0].shallowBeta(beta, width), cs[0].shallowDepth);
      [w] + WidthWindows(cs[1..], alpha, beta, width)
  }

  /** `book.getData(new Board(mover, enemy, true))`: the book's score in discs, None for `null`. */
  type Book = (Bitboard, Bitboard) -> Option<int>

  class MidgameSearch {
    const options: Options
    /** `NovelloUtils.NO_MOVE`. */
    const noMove: int
    /** `counter.eval(mover, enemy)`. */
    const eval: (Bitboard, Bitboard) -> int
    /** `counter.mpcs.cutters(nEmpty, depth)`. */
    const cutters: (int, int) -> seq<WidthCutter>
    /** `ShallowSolver.solveNoParity(counter, mover, enemy, alpha, beta, nEmpty, moverMoves)`, in discs. */
    const solveNoParity: (Bitboard, Bitboard, int, int) -> int
    /** `midgameHashTables`, shared with whoever built the search. */
    const table: WidthTables
    const rootDepth: int
    const width: int
    /** The opening book; None for `null`. */
    const book: Option<Book>
    /** `abortCheck.shouldAbort()`, given the number of earlier polls. */
    const abortCheck: nat -> bool
    const minBookCheckEmpties: int
    var polls: nat

    ghost predicate Valid()
      reads table
    {
      table.Sound() && table.noMove == noMove && WidthCuttersShallower(cutters)
    }

    /** The abort check is `AbortCheck.NEVER`. */
    ghost predicate Never()
    {
      forall i :: !abortCheck(i)
    }

    /** The constructor: the book is consulted down to three empties fewer than the root has. */
    constructor(nEmpty: int, table: WidthTables, options: Options, eval: (Bitboard, Bitboard) -> int,
                cutters: (int, int) -> seq<WidthCutter>, solveNoParity: (Bitboard, Bitboard, int, int) -> int,
                rootDepth: int, width: int, book: Option<Book>, abortCheck: nat -> bool)
      requires table.Sound() && WidthCuttersShallower(cutters)
      ensures Valid() && polls == 0 && minBookCheckEmpties == nEmpty - 3
      ensures this.table == table && this.noMove == table.noMove && this.options == options && this.eval == eval
      ensures this.cutters == cutters && this.solveNoParity == solveNoParity && this.rootDepth == rootDepth
      ensures this.width == width && this.book == book && this.abortCheck == abortCheck
    {
      this.table := table;
      this.noMove := table.noMove;
      this.options := options;
      this.eval := eval;
      this.cutters := cutters;
      this.solveNoParity := solveNoParity;
      this.rootDepth := rootDepth;
      this.width := width;
      this.book := book;
      this.abortCheck := abortCheck;
      minBookCheckEmpties := nEmpty - 3;
      polls := 0;
    }

    // -------------------------------------------------------------------
    // What the searches promise.

    /**
     * The book shortcut of `searchScore` for a position with nEmpty
     * empties: with a book, at least minBookCheckEmpties empties and book
     * data for the position, the book's score in centi-discs; None
     * otherwise.
     */
    function BookScore(mover: Bitboard, enemy: Bitboard, nEmpty: int): Option<int>
    {
      if book.Some? && nEmpty >= minBookCheckEmpties && book.value(mover, enemy).Some?
      then Some(book.value(mover, enemy).value * DISK_VALUE)
      else None
    }

    /**
     * What `treeScore` promises whatever the table holds: the eval at depth
     * 0 and below; with the variable endgame and at most SOLVER_START_DEPTH
     * empties, the shallow solver's disc score for the window converted to
     * discs, in centi-discs.
     */
    predicate TreeFits(mover: Bitboard, enemy: Bitboard, alpha: int, beta: int, depth: int, s: int)
    {
      (depth <= 0 ==> s == eval(mover, enemy)) &&
      (depth > 0 && options.variableEndgame && EmptyCount(mover, enemy) <= SOLVER_START_DEPTH ==>
        s == solveNoParity(mover, enemy, SolverAlpha(alpha), SolverBeta(beta)) * DISK_VALUE)
    }

    /**
     * What `searchScore` promises past the book: treeScore's promise for
     * the mover; after a pass, for minus the enemy's score with the negated
     * window; the final disc differential in centi-discs when neither side
     * can move.
     */
    predicate PlayFits(mover: Bitboard, enemy: Bitboard, alpha: int, beta: int, depth: int, s: int)
    {
      if CanMove(mover, enemy) then TreeFits(mover, enemy, alpha, beta, depth, s)
      else if CanMove(enemy, mover) then TreeFits(enemy, mover, -beta, -alpha, depth, -s)
      else s == DISK_VALUE * TerminalScore(mover, enemy)
    }

    /**
     * What `searchScore` promises for a position with nEmpty empties: the
     * book's score where the book answers, PlayFits elsewhere.
     */
    predicate FitsWith(mover: Bitboard, enemy: Bitboard, nEmpty: int, alpha: int, beta: int, depth: int, s: int)
    {
      if BookScore(mover, enemy, nEmpty).Some? then s == BookScore(mover, enemy, nEmpty).value
      else PlayFits(mover, enemy, alpha, beta, depth, s)
    }

    /** What `searchScore` promises. */
    predicate SearchFits(mover: Bitboard, enemy: Bitboard, alpha: int, beta: int, depth: int, s: int)
    {
      FitsWith(mover, enemy, EmptyCount(mover, enemy), alpha, beta, depth, s)
    }

    lemma PassFits(mover: Bitboard, enemy: Bitboard, alpha: int, beta: int, depth: int, s: int)
      requires !CanMove(mover, enemy) && CanMove(enemy, mover)
      requires TreeFits(enemy, mover, -beta, -alpha, depth, s)
      ensures PlayFits(mover, enemy, alpha, beta, depth, -s)
    {
    }

    /** The score `searchScore` gives past the book at depth 0 and below. */
    function EvalScore(mover: Bitboard, enemy: Bitboard): int
    {
      if CanMove(mover, enemy) then eval(mover, enemy)
      else if CanMove(enemy, mover) then -eval(enemy, mover)
      else DISK_VALUE * TerminalScore(mover, enemy)
    }

    /** The score `searchScore` gives at depth 0 and below with nEmpty empties: the book's where it answers. */
    function StaticWith(mover: Bitboard, enemy: Bitboard, nEmpty: int): int
    {
      if BookScore(mover, enemy, nEmpty).Some? then BookScore(mover, enemy, nEmpty).value else EvalScore(mover, enemy)
    }

    /** The score `searchScore` gives at depth 0 and below. */
    function StaticScore(mover: Bitboard, enemy: Bitboard): int
    {
      StaticWith(mover, enemy, EmptyCount(mover, enemy))
    }

    /** What the child's search promises, seen from the parent. */
    lemma ChildFits(mover: Bitboard, enemy: Bitboard, alpha: int, beta: int, depth: int, sq: int, s: int)
      requires sq in ALL
      requires SearchFits(NextMover(mover, enemy, sq), NextEnemy(mover, enemy, sq), -beta, -alpha, depth - 1, s)
      requires depth == 1 ==> s == StaticScore(NextMover(mover, enemy, sq), NextEnemy(mover, enemy, sq))
      requires EmptyCount(NextMover(mover, enemy, sq), NextEnemy(mover, enemy, sq)) == EmptyCount(mover, enemy) - 1
      ensures SubFit(mover, enemy, beta, depth, sq, alpha, -s)
      ensures depth == 1 ==> ShallowScore(mover, enemy, sq) == -s
    {
    }

    /** `calcMoveScore(mover, enemy, -LIMIT, LIMIT, 1, sq)`: the value the sorted order ranks a move by. */
    function ShallowScore(mover: Bitboard, enemy: Bitboard, sq: int): int
    {
      if sq in ALL then -StaticWith(NextMover(mover, enemy, sq), NextEnemy(mover, enemy, sq), EmptyCount(mover, enemy) - 1) else 0
    }

    function ShallowValue(mover: Bitboard, enemy: Bitboard): int -> int
    {
      sq => ShallowScore(mover, enemy, sq)
    }

    /** The sort keys of the moves sqs by their depth-1 values, last move first. */
    function ShallowKeys(mover: Bitboard, enemy: Bitboard, sqs: seq<int>): (keys: seq<int>)
      ensures |keys| == |sqs|
    {
      if sqs == [] then [] else ShallowKeys(mover, enemy, sqs[1..]) + [SortIndex(ShallowScore(mover, enemy, sqs[0]), sqs[0])]
    }

    lemma {:induction false} ShallowKeysRev(mover: Bitboard, enemy: Bitboard, sqs: seq<int>)
      ensures ShallowKeys(mover, enemy, sqs) == KeysRev(ShallowValue(mover, enemy), sqs)
      decreases |sqs|
    {
      if sqs != [] {
        ShallowKeysRev(mover, enemy, sqs[1..]);
      }
    }

    /** The key of the k-th move sits k places from the end. */
    lemma ShallowKeyAt(mover: Bitboard, enemy: Bitboard, sqs: seq<int>, k: int)
      requires 0 <= k < |sqs|
      ensures ShallowKeys(mover, enemy, sqs)[|sqs| - 1 - k] == SortIndex(ShallowScore(mover, enemy, sqs[k]), sqs[k])
    {
      ShallowKeysRev(mover, enemy, sqs);
      KeysRevAt(ShallowValue(mover, enemy), sqs, k);
    }

    /** The order `treeMoveNoSuggestion` visits the moves in. */
    function Visit(mover: Bitboard, enemy: Bitboard, moves: Bitboard, depth: int): seq<int>
    {
      VisitOrder(ShallowValue(mover, enemy), moves, depth)
    }

    /** The order `treeMoveWithPossibleSuggestion` visits the moves in. */
    function Order(mover: Bitboard, enemy: Bitboard, moves: Bitboard, depth: int, suggested: int): seq<int>
    {
      if suggested >= 0 then [suggested] + Visit(mover, enemy, moves - {suggested}, depth)
      else Visit(mover, enemy, moves, depth)
    }

    /** A searched move's result: searchScore's promise for the child, with the window the loop had reached. */
    predicate SubFit(mover: Bitboard, enemy: Bitboard, beta: int, depth: int, sq: int, a: int, sub: int)
    {
      sq in ALL &&
      FitsWith(NextMover(mover, enemy, sq), NextEnemy(mover, enemy, sq), EmptyCount(mover, enemy) - 1, -beta, -a, depth - 1, -sub)
    }

    function SubFits(mover: Bitboard, enemy: Bitboard, beta: int, depth: int): (int, int, int) -> bool
    {
      (sq, a, sub) => SubFit(mover, enemy, beta, depth, sq, a, sub)
    }

    lemma SubFitApply(mover: Bitboard, enemy: Bitboard, beta: int, depth: int, sq: int, a: int, sub: int)
      requires SubFit(mover, enemy, beta, depth, sq, a, sub)
      ensures SubFits(mover, enemy, beta, depth)(sq, a, sub)
    {
    }

    /** A move loop over sqs from state st ran and got the results subs, each as a sub-search promises. */
    ghost predicate LoopRan(mover: Bitboard, enemy: Bitboard, st: LoopState, beta: int, sqs: seq<int>, subs: seq<int>, depth: int)
    {
      Ran(st, beta, sqs, subs) && AllFit(st, sqs, subs, SubFits(mover, enemy, beta, depth))
    }

    /** A move loop over sqs from st has results subs so far, none cut off, and is in state ls. */
    ghost predicate Going(mover: Bitboard, enemy: Bitboard, beta: int, depth: int, st: LoopState, sqs: seq<int>,
                          subs: seq<int>, ls: LoopState)
    {
      |subs| <= |sqs| && CutFree(st, beta, sqs, subs) && AllFit(st, sqs, subs, SubFits(mover, enemy, beta, depth)) &&
      ls == Steps(st, sqs, subs)
    }

    /** A move loop over sqs from st has run, and ended with this best move and score. */
    ghost predicate Done(mover: Bitboard, enemy: Bitboard, beta: int, depth: int, st: LoopState, sqs: seq<int>,
                         subs: seq<int>, bestMove: int, score: int)
    {
      LoopRan(mover, enemy, st, beta, sqs, subs, depth) &&
      Steps(st, sqs, subs).bestMove == bestMove && Steps(st, sqs, subs).score == score
    }

    /**
     * The cutters of this position and depth probed the window (alpha,
     * beta), with this search's width, with the scores probes, ending in
     * probe; a cutter of depth 0 or less probes with the eval.
     */
    ghost predicate ProbesFit(mover: Bitboard, enemy: Bitboard, alpha: int, beta: int, depth: int, probes: seq<int>,
                              probe: Option<MpcOutcome>)
    {
      var windows := WidthWindows(cutters(EmptyCount(mover, enemy), depth), alpha, beta, width);
      ProbesRan(windows, probes, probe) && EvalProbes(windows, eval(mover, enemy), probes)
    }

    /** A loop that met no cutoff has run once every move is searched. */
    lemma GoingDone(mover: Bitboard, enemy: Bitboard, beta: int, depth: int, st: LoopState, sqs: seq<int>,
                    subs: seq<int>, ls: LoopState)
      requires Going(mover, enemy, beta, depth, st, sqs, subs, ls) && |subs| == |sqs|
      ensures Done(mover, enemy, beta, depth, st, sqs, subs, ls.bestMove, ls.score)
    {
      CutFreeRan(st, beta, sqs, subs);
    }

    /** The visit order lists legal moves, and so does the order with a suggestion that fits. */
    lemma OrderLegal(mover: Bitboard, enemy: Bitboard, moves: Bitboard, depth: int, suggested: int)
      requires moves <= LegalMoves(mover, enemy) && MoveFits(mover, enemy, suggested)
      ensures AllLegal(mover, enemy, Order(mover, enemy, moves, depth, suggested))
    {
      var value := ShallowValue(mover, enemy);
      if suggested >= 0 {
        VisitLegal(value, mover, enemy, moves - {suggested}, depth);
        AllLegalCons(mover, enemy, suggested, Visit(mover, enemy, moves - {suggested}, depth));
      } else {
        VisitLegal(value, mover, enemy, moves, depth);
      }
    }

    /** The sorted keys of legal moves encode legal moves, in the visit order. */
    lemma SortedLegal(mover: Bitboard, enemy: Bitboard, moverMoves: Bitboard, depth: int, keys: seq<int>)
      requires moverMoves <= LegalMoves(mover, enemy) && depth >= 5
      requires keys == SortInts(ShallowKeys(mover, enemy, SquareList(moverMoves)))
      ensures AllLegal(mover, enemy, LowBytes(keys)) && LowBytes(keys) == Visit(mover, enemy, moverMoves, depth)
    {
      var value := ShallowValue(mover, enemy);
      ShallowKeysRev(mover, enemy, SquareList(moverMoves));
      KeysRevBytes(value, moverMoves);
      SortIntsSpec(KeysRev(value, SquareList(moverMoves)));
      forall k | 0 <= k < |keys|
        ensures IsLegal(mover, enemy, LowBytes(keys)[k])
      {
        assert LowBytes(keys)[k] in LowBytes(keys);
      }
    }

    // -------------------------------------------------------------------
    // The search.

    /**
     * `searchScore`: polls the abort check from depth 8 on, then answers
     * from the book where it can, then searches the mover's moves, or the
     * enemy's after a pass, or scores the end of the game.
     */
    method SearchScore(mover: Bitboard, enemy: Bitboard, alpha: int, beta: int, depth: int) returns (r: Option<int>)
      requires Valid() && Disjoint(mover, enemy)
      modifies this`polls, table
      ensures Valid()
      ensures depth < 8 || Never() ==> r.Some?
      ensures depth < 8 ==> polls == old(polls)
      ensures depth >= 8 && old(abortCheck(polls)) ==> r.None? && polls == old(polls) + 1 && table.entries == old(table.entries)
      ensures (depth < 8 || !old(abortCheck(polls))) && BookScore(mover, enemy, EmptyCount(mover, enemy)).Some? ==>
        r == BookScore(mover, enemy, EmptyCount(mover, enemy)) && table.entries == old(table.entries)
      ensures depth <= 0 ==> r == Some(StaticScore(mover, enemy)) && table.entries == old(table.entries)
      ensures r.Some? ==> SearchFits(mover, enemy, alpha, beta, depth, r.value)
      decreases Clip(depth), 13
    {
      if depth >= 8 {
        var abort := abortCheck(polls);
        polls := polls + 1;
        if abort {
          return None;
        }
      }
      if book.Some? && EmptyCount(mover, enemy) >= minBookCheckEmpties {
        var data := book.value(mover, enemy);
        if data.Some? {
          return Some(data.value * DISK_VALUE);
        }
      }
      r := SearchMoves(mover, enemy, alpha, beta, depth);
    }

    /** The part of `searchScore` after the book: moves, a pass, or the end of the game. */
    method SearchMoves(mover: Bitboard, enemy: Bitboard, alpha: int, beta: int, depth: int) returns (r: Option<int>)
      requires Valid() && Disjoint(mover, enemy)
      modifies this`polls, table
      ensures Valid()
      ensures depth <= 8 || Never() ==> r.Some?
      ensures depth <= 8 ==> polls == old(polls)
      ensures depth <= 0 ==> r == Some(EvalScore(mover, enemy)) && table.entries == old(table.entries)
      ensures r.Some? ==> PlayFits(mover, enemy, alpha, beta, depth, r.value)
      decreases Clip(depth), 12
    {
      if CanMove(mover, enemy) {
        ghost var how, suggested, subs, probes;
        r, how, suggested, subs, probes := TreeScore(mover, enemy, LegalMoves(mover, enemy), alpha, beta, depth);
      } else {
        r := PassOrEnd(mover, enemy, alpha, beta, depth);
      }
    }

    /** `searchScore` when the mover has no move: the enemy's search after a pass, or the final score. */
    method PassOrEnd(mover: Bitboard, enemy: Bitboard, alpha: int, beta: int, depth: int) returns (r: Option<int>)
      requires Valid() && Disjoint(mover, enemy) && !CanMove(mover, enemy)
      modifies this`polls, table
      ensures Valid()
      ensures depth <= 8 || Never() ==> r.Some?
      ensures depth <= 8 ==> polls == old(polls)
      ensures depth <= 0 ==> r == Some(EvalScore(mover, enemy)) && table.entries == old(table.entries)
      ensures r.Some? ==> PlayFits(mover, enemy, alpha, beta, depth, r.value)
      decreases Clip(depth), 11
    {
      if CanMove(enemy, mover) {
        DisjointSwap(mover, enemy);
        var s;
        ghost var how, suggested, subs, probes;
        s, how, suggested, subs, probes := TreeScore(enemy, mover, LegalMoves(enemy, mover), -beta, -alpha, depth);
        if s.None? {
          return None;
        }
        r := Some(-s.value);
        PassFits(mover, enemy, alpha, beta, depth, s.value);
      } else {
        r := Some(DISK_VALUE * TerminalScore(mover, enemy));
      }
    }

    /**
     * `treeScore`: the eval at the horizon and the shallow solver in the
     * variable endgame; otherwise `mpcMove` (with MPC, from depth 2) or
     * `hashMove`. Then a hash cutoff of the search's width answers with the
     * entry's bound, an MPC probe that decides with beta or alpha, and
     * otherwise the score is the score of the move loop over the
     * suggestion order.
     */
    method TreeScore(mover: Bitboard, enemy: Bitboard, moverMoves: Bitboard, alpha: int, beta: int, depth: int)
      returns (r: Option<int>, ghost how: MpcOutcome, ghost suggested: int, ghost subs: seq<int>, ghost probes: seq<int>)
      requires Valid() && Disjoint(mover, enemy) && moverMoves == LegalMoves(mover, enemy)
      modifies this`polls, table
      ensures Valid()
      ensures depth <= 8 || Never() ==> r.Some?
      ensures depth <= 8 ==> polls == old(polls)
      ensures depth <= 0 ==> r == Some(eval(mover, enemy)) && table.entries == old(table.entries)
      ensures r.Some? ==> TreeFits(mover, enemy, alpha, beta, depth, r.value)
      ensures r.Some? && depth > 0 && !(options.variableEndgame && EmptyCount(mover, enemy) <= SOLVER_START_DEPTH) ==>
        (how == HashCutoff <==> old(table.CutsOff(mover, enemy, depth, alpha, beta, width))) &&
        (how == HashCutoff ==> r.value == old(table.CutResult(width, mover, enemy, beta)).1) &&
        (how == ProbeHigh ==> options.mpc && depth >= 2 && r.value == beta) &&
        (how == ProbeLow ==> options.mpc && depth >= 2 && r.value == alpha) &&
        (options.mpc && depth >= 2 && how != HashCutoff ==>
          ProbesFit(mover, enemy, alpha, beta, depth, probes, if how == Searched then None else Some(how))) &&
        (how == Searched ==>
          MoveFits(mover, enemy, suggested) &&
          LoopRan(mover, enemy, Fresh(noMove, alpha), beta, Order(mover, enemy, moverMoves, depth, suggested), subs, depth) &&
          r.value == Steps(Fresh(noMove, alpha), Order(mover, enemy, moverMoves, depth, suggested), subs).score)
      decreases Clip(depth), 10
    {
      how, suggested, subs, probes := Searched, -1, [], [];
      if depth <= 0 {
        return Some(eval(mover, enemy)), how, suggested, subs, probes;
      }
      var nEmpty := EmptyCount(mover, enemy);
      if options.variableEndgame && nEmpty <= SOLVER_START_DEPTH {
        var solverAlpha := SolverAlpha(alpha);
        var solverBeta := SolverBeta(beta);
        return Some(solveNoParity(mover, enemy, solverAlpha, solverBeta) * DISK_VALUE), how, suggested, subs, probes;
      }
      if options.mpc && depth >= 2 {
        var ba;
        ba, how, suggested, subs, probes := MpcMove(mover, enemy, moverMoves, alpha, beta, depth);
        if ba == null {
          return None, how, suggested, subs, probes;
        }
        return Some(ba.score), how, suggested, subs, probes;
      }
      var ba;
      ghost var cut := table.CutsOff(mover, enemy, depth, alpha, beta, width);
      ghost var forked;
      ba, suggested, subs, forked := HashMove(mover, enemy, moverMoves, alpha, beta, depth);
      if ba == null {
        return None, how, suggested, subs, probes;
      }
      how := if cut then HashCutoff else Searched;
      r := Some(ba.score);
    }

    /**
     * `hashMove`: an entry of the search's width, searched at least this
     * deep, whose min reaches beta or whose max is at most alpha answers at
     * once; otherwise the moves are searched in suggestion order, the
     * result is stored under the search's width with the original window,
     * and from a fresh BA the result is valid for alpha.
     */
    method HashMove(mover: Bitboard, enemy: Bitboard, moverMoves: Bitboard, alpha: int, beta: int, depth: int)
      returns (ba: BA?, ghost suggested: int, ghost subs: seq<int>, ghost forked: bool)
      requires Valid() && Disjoint(mover, enemy) && moverMoves <= LegalMoves(mover, enemy) && depth > 0
      modifies this`polls, table
      ensures Valid()
      ensures depth <= 8 || Never() ==> ba != null
      ensures depth <= 8 ==> polls == old(polls)
      ensures ba != null ==> fresh(ba) && MoveFits(mover, enemy, ba.bestMove)
      ensures ba != null && old(table.CutsOff(mover, enemy, depth, alpha, beta, width)) ==>
        (ba.bestMove, ba.score) == old(table.CutResult(width, mover, enemy, beta)) && table.entries == old(table.entries)
      ensures ba != null && !old(table.CutsOff(mover, enemy, depth, alpha, beta, width)) ==>
        MoveFits(mover, enemy, suggested) && (forked ==> suggested >= 0 && depth > 14) &&
        LoopRan(mover, enemy, Fresh(noMove, alpha), beta, Order(mover, enemy, moverMoves, depth, suggested), subs, depth) &&
        ba.Matches(Steps(Fresh(noMove, alpha), Order(mover, enemy, moverMoves, depth, suggested), subs)) &&
        (noMove <= alpha ==> ba.IsValid(alpha)) &&
        (width, mover, enemy) in table.entries &&
        table.entries[(width, mover, enemy)] == StoredEntry(noMove, alpha, beta, depth, ba.bestMove, ba.score)
      decreases Clip(depth), 9
    {
      suggested, subs, forked := -1, [], false;
      var cutoff := table.CheckForHashCutoff(mover, enemy, depth, alpha, beta, width);
      if cutoff.Some? {
        ba := new BA(noMove);
        ba.bestMove := cutoff.value.0;
        ba.score := cutoff.value.1;
        return;
      }
      var suggestedMove;
      ghost var iidSuggested, iidSubs;
      suggestedMove, iidSuggested, iidSubs := GetSuggestedMove(mover, enemy, moverMoves, alpha, beta, depth);
      if suggestedMove.None? {
        return null, -1, [], false;
      }
      suggested := suggestedMove.value;
      ba, subs, forked := TreeMoveWithPossibleSuggestion(mover, enemy, moverMoves, alpha, beta, depth, suggestedMove.value);
      if ba == null {
        return;
      }
      table.Store(mover, enemy, alpha, beta, depth, width, ba.bestMove, ba.score);
    }

    /**
     * `getSuggestedMove`: the move of the position's entry at any width
     * when there is one; otherwise, deeper than 2, the best move of
     * `hashMove` 2 (or 1) deep, which is the entry's move on a cutoff and
     * the move loop's best move otherwise; otherwise -1.
     */
    method GetSuggestedMove(mover: Bitboard, enemy: Bitboard, moverMoves: Bitboard, alpha: int, beta: int, depth: int)
      returns (r: Option<int>, ghost iidSuggested: int, ghost iidSubs: seq<int>)
      requires Valid() && Disjoint(mover, enemy) && moverMoves <= LegalMoves(mover, enemy) && depth > 0
      modifies this`polls, table
      ensures Valid()
      ensures depth <= 8 || Never() ==> r.Some?
      ensures depth <= 8 ==> polls == old(polls)
      ensures r.Some? ==> MoveFits(mover, enemy, r.value)
      ensures old(table.HasAnyMove(mover, enemy)) ==>
        r.Some? && old(table.Suggests(mover, enemy, r.value)) && table.entries == old(table.entries)
      ensures !old(table.HasAnyMove(mover, enemy)) && depth <= 2 ==> r == Some(-1) && table.entries == old(table.entries)
      ensures !old(table.HasAnyMove(mover, enemy)) && depth > 2 && r.Some? ==>
        (old(table.CutsOff(mover, enemy, IidDepth(depth), alpha, beta, width)) ==>
          r.value == old(table.CutResult(width, mover, enemy, beta)).0) &&
        (!old(table.CutsOff(mover, enemy, IidDepth(depth), alpha, beta, width)) ==>
          MoveFits(mover, enemy, iidSuggested) &&
          LoopRan(mover, enemy, Fresh(noMove, alpha), beta, Order(mover, enemy, moverMoves, IidDepth(depth), iidSuggested), iidSubs, IidDepth(depth)) &&
          r.value == Steps(Fresh(noMove, alpha), Order(mover, enemy, moverMoves, IidDepth(depth), iidSuggested), iidSubs).bestMove)
      decreases Clip(depth), 8
    {
      iidSuggested, iidSubs := -1, [];
      var hashBest := table.GetSuggestedMove(mover, enemy);
      if hashBest >= 0 {
        return Some(hashBest), iidSuggested, iidSubs;
      } else if depth > 2 {
        // internal iterative deepening
        var ba;
        ghost var forked;
        ba, iidSuggested, iidSubs, forked := HashMove(mover, enemy, moverMoves, alpha, beta, IidDepth(depth));
        return Some(ba.bestMove), iidSuggested, iidSubs;
      }
      return Some(-1), iidSuggested, iidSubs;
    }

    /**
     * `treeMoveWithPossibleSuggestion`: the suggestion first when there is
     * one, from a fresh BA; without one, the loop is told that no move has
     * been searched, so it never forks.
     */
    method TreeMoveWithPossibleSuggestion(mover: Bitboard, enemy: Bitboard, moverMoves: Bitboard, alpha: int, beta: int,
                                          depth: int, suggestedMove: int)
      returns (ba: BA?, ghost subs: seq<int>, ghost forked: bool)
      requires Valid() && Disjoint(mover, enemy) && moverMoves <= LegalMoves(mover, enemy) && depth > 0
      requires MoveFits(mover, enemy, suggestedMove)
      modifies this`polls, table
      ensures Valid()
      ensures depth <= 8 || Never() ==> ba != null
      ensures depth <= 8 ==> polls == old(polls)
      ensures forked ==> suggestedMove >= 0 && depth > 14
      ensures ba != null ==> fresh(ba) && MoveFits(mover, enemy, ba.bestMove) && (noMove <= alpha ==> ba.IsValid(alpha))
      ensures ba != null ==>
        LoopRan(mover, enemy, Fresh(noMove, alpha), beta, Order(mover, enemy, moverMoves, depth, suggestedMove), subs, depth) &&
        ba.Matches(Steps(Fresh(noMove, alpha), Order(mover, enemy, moverMoves, depth, suggestedMove), subs))
      decreases Clip(depth), 7
    {
      if suggestedMove >= 0 {
        ba, subs, forked := TreeMoveWithSuggestion(mover, enemy, moverMoves, alpha, beta, depth, suggestedMove);
      } else {
        ba := new BA(noMove);
        var aborted;
        subs, aborted, forked := TreeMoveNoSuggestion(mover, enemy, moverMoves, alpha, beta, depth, ba, false);
        if aborted {
          ba := null;
        }
      }
      if ba != null {
        var sqs := Order(mover, enemy, moverMoves, depth, suggestedMove);
        OrderLegal(mover, enemy, moverMoves, depth, suggestedMove);
        StepsMoveFits(mover, enemy, Fresh(noMove, alpha), sqs, subs);
        if noMove <= alpha {
          RanValid(noMove, alpha, sqs, subs);
        }
      }
    }

    /**
     * `treeMoveWithSuggestion`: the suggested move is searched first; unless
     * it cuts off, the other moves follow without it, and the loop is told
     * a move has been searched.
     */
    method TreeMoveWithSuggestion(mover: Bitboard, enemy: Bitboard, moverMoves: Bitboard, alpha: int, beta: int,
                                  depth: int, suggestedMove: int)
      returns (ba: BA?, ghost subs: seq<int>, ghost forked: bool)
      requires Valid() && Disjoint(mover, enemy) && moverMoves <= LegalMoves(mover, enemy) && depth > 0
      requires IsLegal(mover, enemy, suggestedMove)
      modifies this`polls, table
      ensures Valid()
      ensures depth <= 8 || Never() ==> ba != null
      ensures depth <= 8 ==> polls == old(polls)
      ensures forked ==> depth > 14
      ensures ba != null ==> fresh(ba)
      ensures ba != null ==>
        LoopRan(mover, enemy, Fresh(noMove, alpha), beta, [suggestedMove] + Visit(mover, enemy, moverMoves - {suggestedMove}, depth), subs, depth) &&
        ba.Matches(Steps(Fresh(noMove, alpha), [suggestedMove] + Visit(mover, enemy, moverMoves - {suggestedMove}, depth), subs))
      decreases Clip(depth), 6
    {
      forked := false;
      ba := new BA(noMove);
      ghost var st0 := Fresh(noMove, alpha);
      ghost var rest := Visit(mover, enemy, moverMoves - {suggestedMove}, depth);
      var a, cut, aborted;
      ghost var sub;
      a, sub, cut, aborted := SearchMove(mover, enemy, suggestedMove, alpha, beta, depth, ba, st0, [suggestedMove] + rest, []);
      if aborted {
        return null, [], false;
      }
      assert [] + [sub] == [sub];
      if cut {
        return ba, [sub], false;
      }
      ghost var st1 := LoopState(ba.bestMove, ba.score, a);
      var moves := moverMoves - {suggestedMove};
      ghost var subs2;
      subs2, aborted, forked := TreeMoveNoSuggestion(mover, enemy, moves, a, beta, depth, ba, true);
      if aborted {
        return null, [], forked;
      }
      GoingThenRest(mover, enemy, beta, depth, st0, suggestedMove, rest, sub, st1, subs2);
      subs := [sub] + subs2;
    }

    /** A first move that did not cut off, then a loop that ran over the rest: a loop that ran over both. */
    lemma GoingThenRest(mover: Bitboard, enemy: Bitboard, beta: int, depth: int, st0: LoopState, sq: int,
                        rest: seq<int>, sub: int, st1: LoopState, subs: seq<int>)
      requires Going(mover, enemy, beta, depth, st0, [sq] + rest, [sub], st1)
      requires LoopRan(mover, enemy, st1, beta, rest, subs, depth)
      ensures LoopRan(mover, enemy, st0, beta, [sq] + rest, [sub] + subs, depth)
      ensures Steps(st0, [sq] + rest, [sub] + subs) == Steps(st1, rest, subs)
    {
      var fits := SubFits(mover, enemy, beta, depth);
      assert [sub][..0] == [];
      StepsCons(st0, sq, sub, rest, []);
      assert st1 == Step(st0, sq, sub);
      RanCons(st0, beta, sq, sub, rest, subs);
      AllFitCons(st0, sq, sub, rest, subs, fits);
    }

    /**
     * `treeMoveNoSuggestion`: from depth 5 on, the moves by the sorted keys
     * of their shallow values, through `treeMoveFork` deeper than 14 after
     * a searched move and `treeMoveSorted` otherwise; below 5, by the masks.
     * Which of the two sorted loops runs does not change the result. The
     * loop continues from the BA and alpha it is given.
     */
    method TreeMoveNoSuggestion(mover: Bitboard, enemy: Bitboard, moverMoves: Bitboard, alpha: int, beta: int,
                                depth: int, ba: BA, hasSearchedAMove: bool)
      returns (ghost subs: seq<int>, aborted: bool, ghost forked: bool)
      requires Valid() && Disjoint(mover, enemy) && moverMoves <= LegalMoves(mover, enemy) && depth > 0
      modifies this`polls, table, ba
      ensures Valid()
      ensures depth <= 8 || Never() ==> !aborted
      ensures depth <= 8 ==> polls == old(polls)
      ensures forked <==> depth > 14 && hasSearchedAMove
      ensures !aborted ==>
        LoopRan(mover, enemy, LoopState(old(ba.bestMove), old(ba.score), alpha), beta, Visit(mover, enemy, moverMoves, depth), subs, depth) &&
        ba.Matches(Steps(LoopState(old(ba.bestMove), old(ba.score), alpha), Visit(mover, enemy, moverMoves, depth), subs))
      decreases Clip(depth), 5
    {
      forked := false;
      if depth >= 5 {
        var sortIndices := SortMoves(mover, enemy, moverMoves);
        SortedLegal(mover, enemy, moverMoves, depth, sortIndices[..]);
        if depth > 14 && hasSearchedAMove {
          forked := true;
          subs, aborted := TreeMoveFork(mover, enemy, alpha, beta, depth, ba, LowBytes(sortIndices[..]));
        } else {
          subs, aborted := TreeMoveSorted(mover, enemy, alpha, beta, depth, ba, LowBytes(sortIndices[..]));
        }
      } else {
        subs, aborted := TreeMoveUnsorted(mover, enemy, moverMoves, alpha, beta, depth, ba);
      }
    }

    /**
     * `sortMoves`: one slot per move, filled once, with `-value * 256 + sq`
     * for the move's depth-1 value; then `Arrays.sort`. The moves are taken
     * lowest first, and the key of the i-th of n goes to slot n - 1 - i,
     * the number of moves still left.
     */
    method SortMoves(mover: Bitboard, enemy: Bitboard, moverMoves: Bitboard) returns (sortIndices: array<int>)
      requires Valid() && Disjoint(mover, enemy) && moverMoves <= LegalMoves(mover, enemy)
      modifies this`polls, table
      ensures Valid() && fresh(sortIndices) && polls == old(polls) && table.entries == old(table.entries)
      ensures sortIndices[..] == SortInts(ShallowKeys(mover, enemy, SquareList(moverMoves)))
      decreases 1, 2
    {
      var sqs := SquareList(moverMoves);
      ghost var keys := ShallowKeys(mover, enemy, sqs);
      ListLegal(mover, enemy, moverMoves);
      var n := |sqs|;
      sortIndices := new int[n];
      var i := 0;
      while i < n
        invariant 0 <= i <= n
        invariant sortIndices[n - i..] == keys[n - i..]
        invariant Valid() && polls == old(polls) && table.entries == old(table.entries)
      {
        var key := SortKey(mover, enemy, sqs, i);
        sortIndices[n - 1 - i] := key;
        i := i + 1;
      }
      assert sortIndices[..] == keys;
      SortArray(sortIndices);
    }

    /** `-value * 256 + sq` for the depth-1 value of the move to sqs[i], the key of slot |sqs| - 1 - i. */
    method SortKey(mover: Bitboard, enemy: Bitboard, sqs: seq<int>, i: int) returns (key: int)
      requires Valid() && Disjoint(mover, enemy) && AllLegal(mover, enemy, sqs) && 0 <= i < |sqs|
      modifies this`polls, table
      ensures Valid() && polls == old(polls) && table.entries == old(table.entries)
      ensures key == ShallowKeys(mover, enemy, sqs)[|sqs| - 1 - i]
      decreases 1, 1
    {
      var v := CalcMoveScore(mover, enemy, -LIMIT, LIMIT, 1, sqs[i]);
      key := SortIndex(v.value, sqs[i]);
      ShallowKeyAt(mover, enemy, sqs, i);
    }

    /** `treeMoveSorted`, `for (int sortIndex : sortIndices)`: each key's low byte is the move searched. */
    method TreeMoveSorted(mover: Bitboard, enemy: Bitboard, alpha: int, beta: int, depth: int, ba: BA, sqs: seq<int>)
      returns (ghost subs: seq<int>, aborted: bool)
      requires Valid() && Disjoint(mover, enemy) && AllLegal(mover, enemy, sqs) && depth > 0
      modifies this`polls, table, ba
      ensures Valid()
      ensures depth <= 8 || Never() ==> !aborted
      ensures depth <= 8 ==> polls == old(polls)
      ensures !aborted ==> Done(mover, enemy, beta, depth, LoopState(old(ba.bestMove), old(ba.score), alpha), sqs, subs, ba.bestMove, ba.score)
      decreases Clip(depth), 3
    {
      ghost var st0 := LoopState(ba.bestMove, ba.score, alpha);
      var a, cut;
      assert sqs[0..|sqs|] == sqs;
      a, subs, cut, aborted := SearchList(mover, enemy, sqs, alpha, beta, depth, ba, st0, sqs, []);
      if !aborted && !cut {
        GoingDone(mover, enemy, beta, depth, st0, sqs, subs, LoopState(ba.bestMove, ba.score, a));
      }
    }

    /** `treeMoveFork`: the same sequential loop as `treeMoveSorted`, with the same promise. */
    method TreeMoveFork(mover: Bitboard, enemy: Bitboard, alpha: int, beta: int, depth: int, ba: BA, sqs: seq<int>)
      returns (ghost subs: seq<int>, aborted: bool)
      requires Valid() && Disjoint(mover, enemy) && AllLegal(mover, enemy, sqs) && depth > 0
      modifies this`polls, table, ba
      ensures Valid()
      ensures depth <= 8 || Never() ==> !aborted
      ensures depth <= 8 ==> polls == old(polls)
      ensures !aborted ==> Done(mover, enemy, beta, depth, LoopState(old(ba.bestMove), old(ba.score), alpha), sqs, subs, ba.bestMove, ba.score)
      decreases Clip(depth), 3
    {
      ghost var st0 := LoopState(ba.bestMove, ba.score, alpha);
      var a, cut;
      assert sqs[0..|sqs|] == sqs;
      a, subs, cut, aborted := SearchList(mover, enemy, sqs, alpha, beta, depth, ba, st0, sqs, []);
      if !aborted && !cut {
        GoingDone(mover, enemy, beta, depth, st0, sqs, subs, LoopState(ba.bestMove, ba.score, a));
      }
    }

    /** `treeMoveUnsorted`, the `masks` loop: corners, then the other non-X-squares, then the X-squares. */
    method TreeMoveUnsorted(mover: Bitboard, enemy: Bitboard, moverMoves: Bitboard, alpha: int, beta: int, depth: int, ba: BA)
      returns (ghost subs: seq<int>, aborted: bool)
      requires Valid() && Disjoint(mover, enemy) && moverMoves <= LegalMoves(mover, enemy) && depth > 0
      modifies this`polls, table, ba
      ensures Valid()
      ensures depth <= 8 || Never() ==> !aborted
      ensures depth <= 8 ==> polls == old(polls)
      ensures !aborted ==>
        Done(mover, enemy, beta, depth, LoopState(old(ba.bestMove), old(ba.score), alpha), OrderedEmpties(moverMoves, OrderMasks()), subs, ba.bestMove, ba.score)
      decreases Clip(depth), 4
    {
      subs, aborted := MaskLoop(mover, enemy, moverMoves, OrderMasks(), alpha, beta, depth, ba);
    }

    /** The loop over masks, each mask's moves lowest first. */
    method MaskLoop(mover: Bitboard, enemy: Bitboard, moverMoves: Bitboard, masks: seq<Bitboard>, alpha: int, beta: int,
                    depth: int, ba: BA)
      returns (ghost subs: seq<int>, aborted: bool)
      requires Valid() && Disjoint(mover, enemy) && moverMoves <= LegalMoves(mover, enemy) && depth > 0
      modifies this`polls, table, ba
      ensures Valid()
      ensures depth <= 8 || Never() ==> !aborted
      ensures depth <= 8 ==> polls == old(polls)
      ensures !aborted ==>
        Done(mover, enemy, beta, depth, LoopState(old(ba.bestMove), old(ba.score), alpha), OrderedEmpties(moverMoves, masks), subs, ba.bestMove, ba.score)
      decreases Clip(depth), 3
    {
      ghost var st0 := LoopState(ba.bestMove, ba.score, alpha);
      ghost var sqs := OrderedEmpties(moverMoves, masks);
      var a := alpha;
      subs := [];
      aborted := false;
      var i := 0;
      while i < |masks|
        invariant 0 <= i <= |masks| && |subs| == |OrderedEmpties(moverMoves, masks[..i])| && !aborted
        invariant Valid() && (depth <= 8 ==> polls == old(polls))
        invariant Going(mover, enemy, beta, depth, st0, sqs, subs, LoopState(ba.bestMove, ba.score, a))
      {
        MaskSlice(moverMoves, masks, i);
        ListLegal(mover, enemy, moverMoves * masks[i]);
        var cut;
        a, subs, cut, aborted := SearchList(mover, enemy, SquareList(moverMoves * masks[i]), a, beta, depth, ba, st0, sqs, subs);
        if aborted || cut {
          return;
        }
        i := i + 1;
      }
      assert masks[..i] == masks;
      GoingDone(mover, enemy, beta, depth, st0, sqs, subs, LoopState(ba.bestMove, ba.score, a));
    }

    /**
     * A move loop over list, which continues the fold over sqs from the
     * results subs0: the inner loop of every order.
     */
    method SearchList(mover: Bitboard, enemy: Bitboard, list: seq<int>, a0: int, beta: int, depth: int, ba: BA,
                      ghost st0: LoopState, ghost sqs: seq<int>, ghost subs0: seq<int>)
      returns (a: int, ghost subs: seq<int>, cut: bool, aborted: bool)
      requires Valid() && Disjoint(mover, enemy) && AllLegal(mover, enemy, list) && depth > 0
      requires |subs0| + |list| <= |sqs| && sqs[|subs0|..|subs0| + |list|] == list
      requires Going(mover, enemy, beta, depth, st0, sqs, subs0, LoopState(ba.bestMove, ba.score, a0))
      modifies this`polls, table, ba
      ensures Valid()
      ensures depth <= 8 || Never() ==> !aborted
      ensures depth <= 8 ==> polls == old(polls)
      ensures !aborted && cut ==> Done(mover, enemy, beta, depth, st0, sqs, subs, ba.bestMove, ba.score)
      ensures !aborted && !cut ==>
        |subs| == |subs0| + |list| && Going(mover, enemy, beta, depth, st0, sqs, subs, LoopState(ba.bestMove, ba.score, a))
      decreases Clip(depth), 2
    {
      a, subs, cut, aborted := a0, subs0, false, false;
      var i := 0;
      while i < |list|
        invariant 0 <= i <= |list| && |subs| == |subs0| + i && !aborted && !cut
        invariant Valid() && (depth <= 8 ==> polls == old(polls))
        invariant Going(mover, enemy, beta, depth, st0, sqs, subs, LoopState(ba.bestMove, ba.score, a))
      {
        assert sqs[|subs|] == list[i];
        ghost var sub;
        a, sub, cut, aborted := SearchMove(mover, enemy, list[i], a, beta, depth, ba, st0, sqs, subs);
        if aborted {
          return;
        }
        subs := subs + [sub];
        if cut {
          return;
        }
        i := i + 1;
      }
    }

    /** One move of a move loop: `calcMoveScore`, then the BA and alpha updates; a result at or above beta cuts off. */
    method SearchMove(mover: Bitboard, enemy: Bitboard, sq: int, a0: int, beta: int, depth: int, ba: BA,
                      ghost st0: LoopState, ghost sqs: seq<int>, ghost subs0: seq<int>)
      returns (a: int, ghost sub: int, cut: bool, aborted: bool)
      requires Valid() && Disjoint(mover, enemy) && IsLegal(mover, enemy, sq) && depth > 0
      requires |subs0| < |sqs| && sqs[|subs0|] == sq
      requires Going(mover, enemy, beta, depth, st0, sqs, subs0, LoopState(ba.bestMove, ba.score, a0))
      modifies this`polls, table, ba
      ensures Valid()
      ensures depth <= 8 || Never() ==> !aborted
      ensures depth <= 8 ==> polls == old(polls)
      ensures !aborted && cut ==> Done(mover, enemy, beta, depth, st0, sqs, subs0 + [sub], ba.bestMove, ba.score)
      ensures !aborted && !cut ==> Going(mover, enemy, beta, depth, st0, sqs, subs0 + [sub], LoopState(ba.bestMove, ba.score, a))
      decreases Clip(depth), 1
    {
      a, sub, cut, aborted := a0, 0, false, false;
      var subScore := CalcMoveScore(mover, enemy, a, beta, depth, sq);
      if subScore.None? {
        aborted := true;
        return;
      }
      var v := subScore.value;
      sub := v;
      StepsAppend(st0, beta, sqs, subs0, v);
      SubFitApply(mover, enemy, beta, depth, sq, a, v);
      AllFitAppend(st0, sqs, subs0, SubFits(mover, enemy, beta, depth), v);
      if v > ba.score {
        ba.score := v;
        if v > a {
          ba.bestMove := sq;
          a := v;
          if v >= beta {
            cut := true;
          }
        }
      }
    }

    /**
     * `calcMoveScore`: plays the move and returns minus the child's score
     * for the negated window, one ply shallower.
     */
    method CalcMoveScore(mover: Bitboard, enemy: Bitboard, alpha: int, beta: int, depth: int, sq: int) returns (r: Option<int>)
      requires Valid() && Disjoint(mover, enemy) && IsLegal(mover, enemy, sq) && depth > 0
      modifies this`polls, table
      ensures Valid()
      ensures depth <= 8 || Never() ==> r.Some?
      ensures depth <= 8 ==> polls == old(polls)
      ensures depth == 1 ==> r == Some(ShallowScore(mover, enemy, sq)) && table.entries == old(table.entries)
      ensures r.Some? ==> SubFit(mover, enemy, beta, depth, sq, alpha, r.value)
      decreases Clip(depth), 0
    {
      PlayFacts(mover, enemy, sq);
      var subScore := SearchScore(NextMover(mover, enemy, sq), NextEnemy(mover, enemy, sq), -beta, -alpha, depth - 1);
      if subScore.None? {
        return None;
      }
      r := Some(-subScore.value);
      ChildFits(mover, enemy, alpha, beta, depth, sq, subScore.value);
    }

    /**
     * `mpcMove`: the hash cutoffs of the search's width; then each cutter's
     * shallow probe with the width's window: at or above its beta the
     * result is beta, at or below its alpha it is alpha; otherwise the
     * moves are searched in suggestion order, and the result is the move
     * loop's, stored under the search's width and valid as in `hashMove`.
     * Without a hash cutoff, the ghost probes are the cutters' probe scores,
     * and the first that decides gives the outcome.
     */
    method MpcMove(mover: Bitboard, enemy: Bitboard, moverMoves: Bitboard, alpha: int, beta: int, depth: int)
      returns (ba: BA?, ghost how: MpcOutcome, ghost suggested: int, ghost subs: seq<int>, ghost probes: seq<int>)
      requires Valid() && Disjoint(mover, enemy) && moverMoves <= LegalMoves(mover, enemy) && depth > 0
      modifies this`polls, table
      ensures Valid()
      ensures depth <= 8 || Never() ==> ba != null
      ensures depth <= 8 ==> polls == old(polls)
      ensures ba != null ==> fresh(ba) && MoveFits(mover, enemy, ba.bestMove)
      ensures ba != null ==> (how == HashCutoff <==> old(table.CutsOff(mover, enemy, depth, alpha, beta, width)))
      ensures ba != null && how == HashCutoff ==>
        (ba.bestMove, ba.score) == old(table.CutResult(width, mover, enemy, beta)) && table.entries == old(table.entries)
      ensures ba != null && how == ProbeHigh ==> ba.score == beta && ProbesFit(mover, enemy, alpha, beta, depth, probes, Some(ProbeHigh))
      ensures ba != null && how == ProbeLow ==> ba.score == alpha && ProbesFit(mover, enemy, alpha, beta, depth, probes, Some(ProbeLow))
      ensures ba != null && how == Searched ==> ProbesFit(mover, enemy, alpha, beta, depth, probes, None)
      ensures ba != null && how == Searched ==>
        MoveFits(mover, enemy, suggested) &&
        LoopRan(mover, enemy, Fresh(noMove, alpha), beta, Order(mover, enemy, moverMoves, depth, suggested), subs, depth) &&
        ba.Matches(Steps(Fresh(noMove, alpha), Order(mover, enemy, moverMoves, depth, suggested), subs)) &&
        (noMove <= alpha ==> ba.IsValid(alpha)) &&
        (width, mover, enemy) in table.entries &&
        table.entries[(width, mover, enemy)] == StoredEntry(noMove, alpha, beta, depth, ba.bestMove, ba.score)
      decreases Clip(depth), 9
    {
      suggested, subs, probes := -1, [], [];
      var cutoff := table.CheckForHashCutoff(mover, enemy, depth, alpha, beta, width);
      if cutoff.Some? {
        ba := new BA(noMove);
        ba.bestMove := cutoff.value.0;
        ba.score := cutoff.value.1;
        return ba, HashCutoff, suggested, subs, probes;
      }
      ba := new BA(noMove);
      var probe, aborted;
      probe, aborted, probes := MpcProbes(mover, enemy, moverMoves, alpha, beta, depth, ba);
      if aborted {
        return null, Searched, suggested, subs, probes;
      }
      if probe.Some? {
        return ba, probe.value, suggested, subs, probes;
      }
      var suggestedMove;
      ghost var iidSuggested, iidSubs;
      suggestedMove, iidSuggested, iidSubs := GetSuggestedMove(mover, enemy, moverMoves, alpha, beta, depth);
      if suggestedMove.None? {
        return null, Searched, suggested, subs, probes;
      }
      suggested := suggestedMove.value;
      var ba1;
      ghost var forked;
      ba1, subs, forked := TreeMoveWithPossibleSuggestion(mover, enemy, moverMoves, alpha, beta, depth, suggestedMove.value);
      if ba1 == null {
        return null, Searched, suggested, subs, probes;
      }
      table.Store(mover, enemy, alpha, beta, depth, width, ba1.bestMove, ba1.score);
      return ba1, Searched, suggested, subs, probes;
    }

    /**
     * The cutters' probes of `mpcMove`, with the width's windows: a shallow
     * search (the eval at depth 0) at or above a cutter's beta decides
     * beta, at or below its alpha decides alpha; otherwise its best move is
     * kept in ba and the next cutter probes. None when no probe decides.
     * The ghost probes are the probe scores in cutter order, up to the one
     * that decides.
     */
    method MpcProbes(mover: Bitboard, enemy: Bitboard, moverMoves: Bitboard, alpha: int, beta: int, depth: int, ba: BA)
      returns (probe: Option<MpcOutcome>, aborted: bool, ghost probes: seq<int>)
      requires Valid() && Disjoint(mover, enemy) && moverMoves <= LegalMoves(mover, enemy) && depth > 0
      requires MoveFits(mover, enemy, ba.bestMove)
      modifies this`polls, table, ba
      ensures Valid()
      ensures depth <= 8 || Never() ==> !aborted
      ensures depth <= 8 ==> polls == old(polls)
      ensures !aborted ==> MoveFits(mover, enemy, ba.bestMove)
      ensures !aborted ==> ProbesFit(mover, enemy, alpha, beta, depth, probes, probe)
      ensures !aborted && probe.Some? ==>
        (probe.value == ProbeHigh && ba.score == beta) || (probe.value == ProbeLow && ba.score == alpha)
      decreases Clip(depth), 8
    {
      probe, aborted, probes := None, false, [];
      var nEmpty := EmptyCount(mover, enemy);
      var cs := cutters(nEmpty, depth);
      ghost var windows := WidthWindows(cs, alpha, beta, width);
      var i := 0;
      while i < |cs|
        invariant 0 <= i <= |cs| && MoveFits(mover, enemy, ba.bestMove)
        invariant Valid() && (depth <= 8 ==> polls == old(polls))
        invariant |probes| == i && Undecided(windows, probes) && EvalProbes(windows, eval(mover, enemy), probes)
      {
        var cutter := cs[i];
        var margin := 0;
        var shallowAlpha := cutter.shallowAlpha(alpha, width) + margin;
        var shallowBeta := cutter.shallowBeta(beta, width) - margin;
        var shallowDepth := cutter.shallowDepth;
        assert windows[i] == Window(shallowAlpha, shallowBeta, shallowDepth);
        var mpcScore;
        if shallowDepth <= 0 {
          mpcScore := eval(mover, enemy);
        } else {
          var mpcBa := ShallowProbe(mover, enemy, moverMoves, shallowAlpha, shallowBeta, shallowDepth, depth);
          if mpcBa == null {
            return None, true, probes;
          }
          mpcScore := mpcBa.score;
          // the probe's move is kept unless it cuts off at alpha
          if mpcScore >= shallowBeta || mpcScore > shallowAlpha {
            ba.bestMove := mpcBa.bestMove;
          }
        }
        if mpcScore >= shallowBeta {
          ba.score := beta;
          ProbeDecided(windows, eval(mover, enemy), probes, mpcScore);
          return Some(ProbeHigh), false, probes + [mpcScore];
        }
        if mpcScore <= shallowAlpha {
          ba.score := alpha;
          ProbeDecided(windows, eval(mover, enemy), probes, mpcScore);
          return Some(ProbeLow), false, probes + [mpcScore];
        }
        ProbeUndecided(windows, eval(mover, enemy), probes, mpcScore);
        probes := probes + [mpcScore];
        i := i + 1;
      }
    }

    /** A deeper cutter's probe: `mpcMove` with the cutter's window and depth, below the depth it stands in for. */
    method ShallowProbe(mover: Bitboard, enemy: Bitboard, moverMoves: Bitboard, shallowAlpha: int, shallowBeta: int,
                        shallowDepth: int, ghost depth: int) returns (mpcBa: BA?)
      requires Valid() && Disjoint(mover, enemy) && moverMoves <= LegalMoves(mover, enemy) && 0 < shallowDepth < depth
      modifies this`polls, table
      ensures Valid()
      ensures depth <= 8 || Never() ==> mpcBa != null
      ensures depth <= 8 ==> polls == old(polls)
      ensures mpcBa != null ==> MoveFits(mover, enemy, mpcBa.bestMove)
      decreases Clip(depth), 7
    {
      ghost var how, suggested, subs, probes;
      mpcBa, how, suggested, subs, probes := MpcMove(mover, enemy, moverMoves, shallowAlpha, shallowBeta, shallowDepth);
    }
  }
}
