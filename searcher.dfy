/**
 * `MidgameSearcher`: a depth-bounded fail-soft alpha-beta search in
 * centi-discs, with a transposition table, the table's move (or one from
 * a shallower search) searched first, moves ordered by a shallow search
 * from depth 5 on and by the corner masks below, the shallow exact solver
 * near the end of the game, and Multi-ProbCut. The evaluation, the MPC
 * cutters and the shallow solver are functions the searcher is built
 * with; the abort check is a function of how often it was asked before.
 * A search that is aborted returns None (a BA method: null), standing for
 * `SearchAbortedException`.
 */
module Midgame {
  import opened Bitboards
  import opened Rays
  import opened Game
  import opened Squares
  import opened EmptySquares
  import opened Optional
  import opened MoveScores
  import opened MidgameCommon
  import opened MidgameHash

  /** `Mpc.Cutter`: a shallower search whose window stands in for the deeper one's. */
  datatype Cutter = Cutter(shallowAlpha: int -> int, shallowBeta: int -> int, shallowDepth: int)

  /** Every cutter searches shallower than the search it stands in for. */
  ghost predicate CuttersShallower(cutters: (int, int) -> seq<Cutter>)
  {
    forall nEmpty, depth, i :: 0 <= i < |cutters(nEmpty, depth)| ==> cutters(nEmpty, depth)[i].shallowDepth < depth
  }

  /** How `mpcMove` reached its result. */
  datatype MpcOutcome = HashCutoff | ProbeHigh | ProbeLow | Searched

  /** One cutter's probe: its shallow window and depth for the window being searched. */
  datatype Window = Window(shallowAlpha: int, shallowBeta: int, shallowDepth: int)

  /**
   * A cutter's decision on its probe score: at or above its shallowBeta
   * the search answers beta, at or below its shallowAlpha it answers
   * alpha, otherwise it decides nothing.
   */
  function Decide(w: Window, score: int): Option<MpcOutcome>
  {
    if score >= w.shallowBeta then Some(ProbeHigh)
    else if score <= w.shallowAlpha then Some(ProbeLow)
    else None
  }

  /** The first |probes| cutters probed and none decided. */
  ghost predicate Undecided(windows: seq<Window>, probes: seq<int>)
  {
    |probes| <= |windows| && forall k :: 0 <= k < |probes| ==> Decide(windows[k], probes[k]).None?
  }

  /** A cutter of depth 0 or less probes with the eval e. */
  ghost predicate EvalProbes(windows: seq<Window>, e: int, probes: seq<int>)
  {
    forall k :: 0 <= k < |probes| && k < |windows| && windows[k].shallowDepth <= 0 ==> probes[k] == e
  }

  /**
   * The cutters' loop probed in window order and stopped at the first
   * probe that decides: the loop's outcome is the last probe's decision
   * after probes that decided nothing, and None only when every cutter
   * probed without deciding.
   */
  ghost predicate ProbesRan(windows: seq<Window>, probes: seq<int>, probe: Option<MpcOutcome>)
  {
    if probe.None? then
      |probes| == |windows| && Undecided(windows, probes)
    else
      0 < |probes| <= |windows| && Undecided(windows, probes[..|probes| - 1]) &&
      probe == Decide(windows[|probes| - 1], probes[|probes| - 1])
  }

  /** A probe that decides nothing lets the loop go on to the next cutter. */
  lemma ProbeUndecided(windows: seq<Window>, e: int, probes: seq<int>, score: int)
    requires Undecided(windows, probes) && EvalProbes(windows, e, probes) && |probes| < |windows|
    requires windows[|probes|].shallowDepth <= 0 ==> score == e
    requires Decide(windows[|probes|], score).None?
    ensures Undecided(windows, probes + [score]) && EvalProbes(windows, e, probes + [score])
  {
    var p := probes + [score];
    forall k | 0 <= k < |p|
      ensures Decide(windows[k], p[k]).None? && (windows[k].shallowDepth <= 0 ==> p[k] == e)
    {
      if k < |probes| { assert p[k] == probes[k]; }
    }
  }

  /** A probe that decides ends the loop with its decision. */
  lemma ProbeDecided(windows: seq<Window>, e: int, probes: seq<int>, score: int)
    requires Undecided(windows, probes) && EvalProbes(windows, e, probes) && |probes| < |windows|
    requires windows[|probes|].shallowDepth <= 0 ==> score == e
    requires Decide(windows[|probes|], score).Some?
    ensures ProbesRan(windows, probes + [score], Decide(windows[|probes|], score))
    ensures EvalProbes(windows, e, probes + [score])
  {
    var p := probes + [score];
    assert p[..|probes|] == probes;
    forall k | 0 <= k < |p| && windows[k].shallowDepth <= 0
      ensures p[k] == e
    {
      if k < |probes| { assert p[k] == probes[k]; }
    }
  }

  /** The first decision among the probe scores, cutter by cutter. */
  function FirstDecision(windows: seq<Window>, probes: seq<int>): Option<MpcOutcome>
    requires |probes| <= |windows|
    decreases |probes|
  {
    if probes == [] then None
    else if Decide(windows[0], probes[0]).Some? then Decide(windows[0], probes[0])
    else FirstDecision(windows[1..], probes[1..])
  }

  /**
   * The cutters' loop answers with the first probe that decides: its
   * outcome is the first decision among its probe scores, and it answers
   * nothing exactly when no probe decides.
   */
  lemma {:induction false} ProbesRanFirst(windows: seq<Window>, probes: seq<int>, probe: Option<MpcOutcome>)
    requires ProbesRan(windows, probes, probe)
    ensures probe == FirstDecision(windows, probes)
    ensures probe.None? <==> forall k :: 0 <= k < |probes| ==> Decide(windows[k], probes[k]).None?
    decreases |probes|
  {
    if |probes| > 0 {
      var w, p := windows[1..], probes[1..];
      if probe.None? {
        forall k | 0 <= k < |p|
          ensures Decide(w[k], p[k]).None?
        {
          assert Decide(windows[k + 1], probes[k + 1]).None?;
        }
        ProbesRanFirst(w, p, probe);
      } else if |probes| > 1 {
        var q := probes[..|probes| - 1];
        assert Decide(windows[0], q[0]).None?;
        assert p[..|p| - 1] == q[1..];
        forall k | 0 <= k < |p| - 1
          ensures Decide(w[k], p[..|p| - 1][k]).None?
        {
          assert Decide(windows[k + 1], q[k + 1]).None?;
        }
        ProbesRanFirst(w, p, probe);
        forall k | 0 <= k < |probes| - 1
          ensures Decide(windows[k], probes[k]).None?
        {
          assert probes[k] == q[k];
        }
      }
    }
  }

  /** The shallow windows of the cutters for the window (alpha, beta). */
  function CutterWindows(cs: seq<Cutter>, alpha: int, beta: int): (r: seq<Window>)
    ensures |r| == |cs|
    ensures forall k :: 0 <= k < |cs| ==> r[k] == Window(cs[k].shallowAlpha(alpha), cs[k].shallowBeta(beta), cs[k].shallowDepth)
  {
    if cs == [] then []
    else [Window(cs[0].shallowAlpha(alpha), cs[0].shallowBeta(beta), cs[0].shallowDepth)] + CutterWindows(cs[1..], alpha, beta)
  }

  /** The remaining depth, counted down to 0. */
  function Clip(depth: int): nat
  {
    if depth < 0 then 0 else depth
  }

  /** `depth > 3 ? 2 : 1`: the depth of the internal iterative deepening search. */
  function IidDepth(depth: int): int
  {
    if depth > 3 then 2 else 1
  }

  /** The list holds legal moves only. */
  predicate AllLegal(mover: Bitboard, enemy: Bitboard, sqs: seq<int>)
  {
    forall k :: 0 <= k < |sqs| ==> IsLegal(mover, enemy, sqs[k])
  }

  /** Whatever the values, the visit order of legal moves lists legal moves. */
  lemma VisitLegal(value: int -> int, mover: Bitboard, enemy: Bitboard, moves: Bitboard, depth: int)
    requires moves <= LegalMoves(mover, enemy)
    ensures AllLegal(mover, enemy, VisitOrder(value, moves, depth))
  {
    VisitOrderSpec(value, moves, depth);
    var v := VisitOrder(value, moves, depth);
    forall k | 0 <= k < |v|
      ensures IsLegal(mover, enemy, v[k])
    {
      assert v[k] in v;
    }
  }

  lemma AllLegalCons(mover: Bitboard, enemy: Bitboard, sq: int, sqs: seq<int>)
    requires IsLegal(mover, enemy, sq) && AllLegal(mover, enemy, sqs)
    ensures AllLegal(mover, enemy, [sq] + sqs)
  {
    forall k | 0 <= k < |[sq] + sqs|
      ensures IsLegal(mover, enemy, ([sq] + sqs)[k])
    {
      if k > 0 {
        assert ([sq] + sqs)[k] == sqs[k - 1];
      }
    }
  }

  /** A loop over legal moves, started with a move that fits, leaves a move that fits. */
  lemma StepsMoveFits(mover: Bitboard, enemy: Bitboard, st: LoopState, sqs: seq<int>, subs: seq<int>)
    requires |subs| <= |sqs| && AllLegal(mover, enemy, sqs) && MoveFits(mover, enemy, st.bestMove)
    ensures MoveFits(mover, enemy, Steps(st, sqs, subs).bestMove)
  {
    StepsMove(st, sqs, subs);
  }

  /**
   * A full-window loop from a fresh BA: its score is the best of NO_MOVE
   * and the sub-scores, and a score above NO_MOVE is the sub-score of its
   * best move.
   */
  lemma RootBest(noMove: int, sqs: seq<int>, subs: seq<int>)
    requires |subs| <= |sqs|
    ensures Steps(Fresh(noMove, noMove), sqs, subs).score == MaxFrom(noMove, subs)
    ensures Steps(Fresh(noMove, noMove), sqs, subs).score > noMove ==>
      exists k :: 0 <= k < |subs| && sqs[k] == Steps(Fresh(noMove, noMove), sqs, subs).bestMove &&
        subs[k] == Steps(Fresh(noMove, noMove), sqs, subs).score
  {
    StepsSpec(Fresh(noMove, noMove), sqs, subs);
  }

  /** The squares of a set of legal moves, in ascending order, are legal moves. */
  lemma ListLegal(mover: Bitboard, enemy: Bitboard, moves: Bitboard)
    requires moves <= LegalMoves(mover, enemy)
    ensures AllLegal(mover, enemy, SquareList(moves))
  {
    SquareListSpec(moves);
    forall k | 0 <= k < |SquareList(moves)|
      ensures IsLegal(mover, enemy, SquareList(moves)[k])
    {
      assert SquareList(moves)[k] in SquareList(moves);
    }
  }

  class MidgameSearcher {
    const options: Options
    /** `NovelloUtils.NO_MOVE`. */
    const noMove: int
    /** `counter.eval(mover, enemy)`. */
    const eval: (Bitboard, Bitboard) -> int
    /** `counter.mpcs.cutters(nEmpty, depth)`. */
    const cutters: (int, int) -> seq<Cutter>
    /** `ShallowSolver.solveNoParity(counter, mover, enemy, alpha, beta, nEmpty, moverMoves)`, in discs. */
    const solveNoParity: (Bitboard, Bitboard, int, int) -> int
    /** `midgameHashTables`. */
    const table: MidgameTable
    var rootDepth: int
    /** `abortCheck.shouldAbort()`, given the number of earlier polls. */
    var abortCheck: nat -> bool
    var polls: nat

    ghost predicate Valid()
      reads this, table
    {
      table.Sound() && table.noMove == noMove && CuttersShallower(cutters)
    }

    /** The abort check is `AbortCheck.NEVER`. */
    ghost predicate Never()
      reads this`abortCheck
    {
      forall i :: !abortCheck(i)
    }

    constructor(options: Options, noMove: int, eval: (Bitboard, Bitboard) -> int,
                cutters: (int, int) -> seq<Cutter>, solveNoParity: (Bitboard, Bitboard, int, int) -> int)
      requires CuttersShallower(cutters)
      ensures Valid() && fresh(table) && table.entries == map[] && polls == 0
      ensures this.options == options && this.noMove == noMove && this.eval == eval
      ensures this.cutters == cutters && this.solveNoParity == solveNoParity
    {
      this.options := options;
      this.noMove := noMove;
      this.eval := eval;
      this.cutters := cutters;
      this.solveNoParity := solveNoParity;
      table := new MidgameTable(noMove);
      rootDepth := 0;
      abortCheck := _ => false;
      polls := 0;
    }

    // -------------------------------------------------------------------
    // What the searches promise.

    /**
     * What `treeScore` promises whatever the table holds: the eval at depth
     * 0 and below; with the variable endgame and at most SOLVER_START_DEPTH
     * empties, the shallow solver's disc score for the window converted to
     * discs, in centi-discs.
     */
    predicate TreeFits(mover: Bitboard, enemy: Bitboard, alpha: int, beta: int, depth: int, s: int)
    {
      (depth <= 0 ==> s == eval(mover, enemy)) &&
      (depth > 0 && options.variableEndgame && EmptyCount(mover, enemy) <= SOLVER_START_DEPTH ==>
        s == solveNoParity(mover, enemy, SolverAlpha(alpha), SolverBeta(beta)) * DISK_VALUE)
    }

    /**
     * What `searchScore` promises: treeScore's promise for the mover; after
     * a pass, for minus the enemy's score with the negated window; the
     * final disc differential in centi-discs when neither side can move.
     */
    predicate SearchFits(mover: Bitboard, enemy: Bitboard, alpha: int, beta: int, depth: int, s: int)
    {
      if CanMove(mover, enemy) then TreeFits(mover, enemy, alpha, beta, depth, s)
      else if CanMove(enemy, mover) then TreeFits(enemy, mover, -beta, -alpha, depth, -s)
      else s == DISK_VALUE * TerminalScore(mover, enemy)
    }

    lemma PassFits(mover: Bitboard, enemy: Bitboard, alpha: int, beta: int, depth: int, s: int)
      requires !CanMove(mover, enemy) && CanMove(enemy, mover)
      requires TreeFits(enemy, mover, -beta, -alpha, depth, s)
      ensures SearchFits(mover, enemy, alpha, beta, depth, -s)
    {
    }

    /** What the child's search promises, seen from the parent. */
    lemma ChildFits(mover: Bitboard, enemy: Bitboard, alpha: int, beta: int, depth: int, sq: int, s: int)
      requires sq in ALL
      requires SearchFits(NextMover(mover, enemy, sq), NextEnemy(mover, enemy, sq), -beta, -alpha, depth - 1, s)
      requires depth == 1 ==> s == StaticScore(NextMover(mover, enemy, sq), NextEnemy(mover, enemy, sq))
      ensures SubFit(mover, enemy, beta, depth, sq, alpha, -s)
      ensures depth == 1 ==> ShallowScore(mover, enemy, sq) == -s
    {
    }

    /** The score `searchScore` gives at depth 0 and below. */
    function StaticScore(mover: Bitboard, enemy: Bitboard): int
    {
      if CanMove(mover, enemy) then eval(mover, enemy)
      else if CanMove(enemy, mover) then -eval(enemy, mover)
      else DISK_VALUE * TerminalScore(mover, enemy)
    }

    /** `calcMoveScore(mover, enemy, -LIMIT, LIMIT, 1, sq)`: the value the sorted order ranks a move by. */
    function ShallowScore(mover: Bitboard, enemy: Bitboard, sq: int): int
    {
      if sq in ALL then -StaticScore(NextMover(mover, enemy, sq), NextEnemy(mover, enemy, sq)) else 0
    }

    function ShallowValue(mover: Bitboard, enemy: Bitboard): int -> int
    {
      sq => ShallowScore(mover, enemy, sq)
    }

    /** The sort keys of the moves sqs by their depth-1 values, last move first. */
    function ShallowKeys(mover: Bitboard, enemy: Bitboard, sqs: seq<int>): (keys: seq<int>)
      ensures |keys| == |sqs|
    {
      if sqs == [] then [] else ShallowKeys(mover, enemy, sqs[1..]) + [SortIndex(ShallowScore(mover, enemy, sqs[0]), sqs[0])]
    }

    lemma {:induction false} ShallowKeysRev(mover: Bitboard, enemy: Bitboard, sqs: seq<int>)
      ensures ShallowKeys(mover, enemy, sqs) == KeysRev(ShallowValue(mover, enemy), sqs)
      decreases |sqs|
    {
      if sqs != [] {
        ShallowKeysRev(mover, enemy, sqs[1..]);
      }
    }

    /** The key of the k-th move sits k places from the end. */
    lemma ShallowKeyAt(mover: Bitboard, enemy: Bitboard, sqs: seq<int>, k: int)
      requires 0 <= k < |sqs|
      ensures ShallowKeys(mover, enemy, sqs)[|sqs| - 1 - k] == SortIndex(ShallowScore(mover, enemy, sqs[k]), sqs[k])
    {
      ShallowKeysRev(mover, enemy, sqs);
      KeysRevAt(ShallowValue(mover, enemy), sqs, k);
    }

    /** The order `treeMoveNoSuggestion` visits the moves in. */
    function Visit(mover: Bitboard, enemy: Bitboard, moves: Bitboard, depth: int): seq<int>
    {
      VisitOrder(ShallowValue(mover, enemy), moves, depth)
    }

    /** The order `treeMoveWithPossibleSuggestion` visits the moves in. */
    function Order(mover: Bitboard, enemy: Bitboard, moves: Bitboard, depth: int, suggested: int): seq<int>
    {
      if suggested >= 0 then [suggested] + Visit(mover, enemy, moves - {suggested}, depth)
      else Visit(mover, enemy, moves, depth)
    }

    /** A searched move's result: searchScore's promise for the child, with the window the loop had reached. */
    predicate SubFit(mover: Bitboard, enemy: Bitboard, beta: int, depth: int, sq: int, a: int, sub: int)
    {
      sq in ALL && SearchFits(NextMover(mover, enemy, sq), NextEnemy(mover, enemy, sq), -beta, -a, depth - 1, -sub)
    }

    function SubFits(mover: Bitboard, enemy: Bitboard, beta: int, depth: int): (int, int, int) -> bool
    {
      (sq, a, sub) => SubFit(mover, enemy, beta, depth, sq, a, sub)
    }

    lemma SubFitApply(mover: Bitboard, enemy: Bitboard, beta: int, depth: int, sq: int, a: int, sub: int)
      requires SubFit(mover, enemy, beta, depth, sq, a, sub)
      ensures SubFits(mover, enemy, beta, depth)(sq, a, sub)
    {
    }

    /** A move loop over sqs from state st ran and got the results subs, each as a sub-search promises. */
    ghost predicate LoopRan(mover: Bitboard, enemy: Bitboard, st: LoopState, beta: int, sqs: seq<int>, subs: seq<int>, depth: int)
    {
      Ran(st, beta, sqs, subs) && AllFit(st, sqs, subs, SubFits(mover, enemy, beta, depth))
    }

    /** A move loop over sqs from st has results subs so far, none cut off, and is in state ls. */
    ghost predicate Going(mover: Bitboard, enemy: Bitboard, beta: int, depth: int, st: LoopState, sqs: seq<int>,
                          subs: seq<int>, ls: LoopState)
    {
      |subs| <= |sqs| && CutFree(st, beta, sqs, subs) && AllFit(st, sqs, subs, SubFits(mover, enemy, beta, depth)) &&
      ls == Steps(st, sqs, subs)
    }

    /** A move loop over sqs from st has run, and ended with this best move and score. */
    ghost predicate Done(mover: Bitboard, enemy: Bitboard, beta: int, depth: int, st: LoopState, sqs: seq<int>,
                         subs: seq<int>, bestMove: int, score: int)
    {
      LoopRan(mover, enemy, st, beta, sqs, subs, depth) &&
      Steps(st, sqs, subs).bestMove == bestMove && Steps(st, sqs, subs).score == score
    }

    /**
     * The cutters of this position and depth probed the window (alpha,
     * beta) with the scores probes, ending in probe; a cutter of depth 0 or
     * less probes with the eval.
     */
    ghost predicate ProbesFit(mover: Bitboard, enemy: Bitboard, alpha: int, beta: int, depth: int, probes: seq<int>,
                              probe: Option<MpcOutcome>)
    {
      var windows := CutterWindows(cutters(EmptyCount(mover, enemy), depth), alpha, beta);
      ProbesRan(windows, probes, probe) && EvalProbes(windows, eval(mover, enemy), probes)
    }

    /** A loop that met no cutoff has run once every move is searched. */
    lemma GoingDone(mover: Bitboard, enemy: Bitboard, beta: int, depth: int, st: LoopState, sqs: seq<int>,
                    subs: seq<int>, ls: LoopState)
      requires Going(mover, enemy, beta, depth, st, sqs, subs, ls) && |subs| == |sqs|
      ensures Done(mover, enemy, beta, depth, st, sqs, subs, ls.bestMove, ls.score)
    {
      CutFreeRan(st, beta, sqs, subs);
    }

    /** The visit order lists legal moves, and so does the order with a suggestion that fits. */
    lemma OrderLegal(mover: Bitboard, enemy: Bitboard, moves: Bitboard, depth: int, suggested: int)
      requires moves <= LegalMoves(mover, enemy) && MoveFits(mover, enemy, suggested)
      ensures AllLegal(mover, enemy, Order(mover, enemy, moves, depth, suggested))
    {
      var value := ShallowValue(mover, enemy);
      if suggested >= 0 {
        VisitLegal(value, mover, enemy, moves - {suggested}, depth);
        AllLegalCons(mover, enemy, suggested, Visit(mover, enemy, moves - {suggested}, depth));
      } else {
        VisitLegal(value, mover, enemy, moves, depth);
      }
    }

    // -------------------------------------------------------------------
    // Entry points.

    /** `clear()`. */
    method Clear()
      requires Valid()
      modifies table
      ensures Valid() && table.entries == map[]
    {
      table.Clear();
    }

    /**
     * `getMoveScore(board, moverMoves, depth, abortCheck)`: the best move
     * and its score. It fails without a legal move to check; otherwise its
     * move is legal unless the score is at most NO_MOVE, and when the
     * check never asks to stop, it does not fail. Without a hash cutoff the
     * score is the best of the sub-scores of the full-window move loop,
     * and when it is above NO_MOVE the move is one whose sub-score it is.
     */
    method GetMoveScore(mover: Bitboard, enemy: Bitboard, moverMoves: Bitboard, depth: int, abortCheck: nat -> bool)
      returns (r: Result<MoveScore>, ghost alpha: int, ghost beta: int, ghost suggested: int, ghost subs: seq<int>)
      requires Valid() && Disjoint(mover, enemy) && moverMoves <= LegalMoves(mover, enemy) && depth > 0
      modifies this, table
      ensures Valid() && alpha == noMove && beta == -noMove
      ensures moverMoves == {} ==> r == Failure("must have a legal move") && table.entries == old(table.entries)
      ensures moverMoves != {} ==> rootDepth == depth && this.abortCheck == abortCheck
      ensures r.Success? ==> MoveFits(mover, enemy, r.value.sq)
      ensures r.Success? && !old(table.CutsOff(mover, enemy, depth, alpha, beta, false)) ==>
        r.value.score <= noMove || IsLegal(mover, enemy, r.value.sq)
      ensures moverMoves != {} && (depth <= 8 || Never()) ==> r.Success?
      ensures r.Success? && old(table.CutsOff(mover, enemy, depth, alpha, beta, false)) ==>
        (r.value.sq, r.value.score) == old(table.CutResult(mover, enemy, beta))
      ensures r.Success? && !old(table.CutsOff(mover, enemy, depth, alpha, beta, false)) ==>
        MoveFits(mover, enemy, suggested) &&
        LoopRan(mover, enemy, Fresh(noMove, alpha), beta, Order(mover, enemy, moverMoves, depth, suggested), subs, depth) &&
        r.value.score == MaxFrom(alpha, subs) &&
        (r.value.score > alpha ==>
          exists k :: 0 <= k < |subs| && Order(mover, enemy, moverMoves, depth, suggested)[k] == r.value.sq && subs[k] == r.value.score)
    {
      alpha, beta, suggested, subs := noMove, -noMove, -1, [];
      if moverMoves == {} {
        return Failure("must have a legal move"), alpha, beta, suggested, subs;
      }
      this.rootDepth := depth;
      this.abortCheck := abortCheck;
      var a, b := noMove, -noMove;
      alpha, beta := a, b;
      var ba;
      ba, suggested, subs := HashMove(mover, enemy, moverMoves, a, b, depth);
      if ba == null {
        return Failure("search aborted"), alpha, beta, suggested, subs;
      }
      r := Success(MoveScore(ba.bestMove, ba.score));
      if !old(table.CutsOff(mover, enemy, depth, alpha, beta, false)) {
        RootBest(alpha, Order(mover, enemy, moverMoves, depth, suggested), subs);
      }
    }

    /** `getMoveScore(board, moverMoves, depth)`: with `AbortCheck.NEVER`, which never fails but for want of a move. */
    method GetMoveScoreNever(mover: Bitboard, enemy: Bitboard, moverMoves: Bitboard, depth: int)
      returns (r: Result<MoveScore>)
      requires Valid() && Disjoint(mover, enemy) && moverMoves <= LegalMoves(mover, enemy) && depth > 0
      modifies this, table
      ensures Valid()
      ensures moverMoves == {} ==> r == Failure("must have a legal move")
      ensures moverMoves != {} ==> r.Success? && MoveFits(mover, enemy, r.value.sq)
    {
      ghost var alpha, beta, suggested, subs;
      r, alpha, beta, suggested, subs := GetMoveScore(mover, enemy, moverMoves, depth, _ => false);
    }

    /**
     * `calcScore(mover, enemy, alpha, beta, depth, abortCheck)`: the score
     * of the position, which need not have a legal move.
     */
    method CalcScore(mover: Bitboard, enemy: Bitboard, alpha: int, beta: int, depth: int, abortCheck: nat -> bool)
      returns (r: Option<int>)
      requires Valid() && Disjoint(mover, enemy)
      modifies this, table
      ensures Valid() && rootDepth == depth && this.abortCheck == abortCheck
      ensures depth < 8 || Never() ==> r.Some?
      ensures depth <= 0 ==> r == Some(StaticScore(mover, enemy))
      ensures r.Some? ==> SearchFits(mover, enemy, alpha, beta, depth, r.value)
    {
      this.rootDepth := depth;
      this.abortCheck := abortCheck;
      r := SearchScore(mover, enemy, alpha, beta, depth);
    }

    /** `calcScore(mover, enemy, depth)`: a full-window search that never aborts. */
    method CalcScoreNever(mover: Bitboard, enemy: Bitboard, depth: int) returns (score: int)
      requires Valid() && Disjoint(mover, enemy)
      modifies this, table
      ensures Valid()
      ensures depth <= 0 ==> score == StaticScore(mover, enemy)
      ensures SearchFits(mover, enemy, noMove, -noMove, depth, score)
    {
      var r := CalcScore(mover, enemy, noMove, -noMove, depth, _ => false);
      score := r.value;
    }

    /** `calcSubMoveScore(sq, subPos, alpha, beta, subDepth, abortCheck)`: the move's score is minus the child's. */
    method CalcSubMoveScore(sq: int, subMover: Bitboard, subEnemy: Bitboard, alpha: int, beta: int, subDepth: int, abortCheck: nat -> bool)
      returns (r: Option<MoveScore>)
      requires Valid() && Disjoint(subMover, subEnemy)
      modifies this, table
      ensures Valid()
      ensures subDepth < 8 || Never() ==> r.Some?
      ensures r.Some? ==> r.value.sq == sq && SearchFits(subMover, subEnemy, alpha, beta, subDepth, -r.value.score)
    {
      var s := CalcScore(subMover, subEnemy, alpha, beta, subDepth, abortCheck);
      if s.None? {
        return None;
      }
      r := Some(MoveScore(sq, -s.value));
    }

    // -------------------------------------------------------------------
    // The search.

    /**
     * `searchScore`: polls the abort check from depth 8 on, then searches
     * the mover's moves, or the enemy's after a pass, or scores the end of
     * the game.
     */
    method SearchScore(mover: Bitboard, enemy: Bitboard, alpha: int, beta: int, depth: int) returns (r: Option<int>)
      requires Valid() && Disjoint(mover, enemy)
      modifies this`polls, table
      ensures Valid()
      ensures depth < 8 || Never() ==> r.Some?
      ensures depth < 8 ==> polls == old(polls)
      ensures depth >= 8 && old(abortCheck(polls)) ==> r.None? && polls == old(polls) + 1 && table.entries == old(table.entries)
      ensures depth <= 0 ==> r == Some(StaticScore(mover, enemy)) && table.entries == old(table.entries)
      ensures r.Some? ==> SearchFits(mover, enemy, alpha, beta, depth, r.value)
      decreases Clip(depth), 13
    {
      if depth >= 8 {
        var abort := abortCheck(polls);
        polls := polls + 1;
        if abort {
          return None;
        }
      }
      r := SearchMoves(mover, enemy, alpha, beta, depth);
    }

    /** The part of `searchScore` after the abort poll: moves, a pass, or the end of the game. */
    method SearchMoves(mover: Bitboard, enemy: Bitboard, alpha: int, beta: int, depth: int) returns (r: Option<int>)
      requires Valid() && Disjoint(mover, enemy)
      modifies this`polls, table
      ensures Valid()
      ensures depth <= 8 || Never() ==> r.Some?
      ensures depth <= 8 ==> polls == old(polls)
      ensures depth <= 0 ==> r == Some(StaticScore(mover, enemy)) && table.entries == old(table.entries)
      ensures r.Some? ==> SearchFits(mover, enemy, alpha, beta, depth, r.value)
      decreases Clip(depth), 12
    {
      if CanMove(mover, enemy) {
        ghost var how, suggested, subs, probes;
        r, how, suggested, subs, probes := TreeScore(mover, enemy, LegalMoves(mover, enemy), alpha, beta, depth);
      } else {
        r := PassOrEnd(mover, enemy, alpha, beta, depth);
      }
    }

    /** `searchScore` when the mover has no move: the enemy's search after a pass, or the final score. */
    method PassOrEnd(mover: Bitboard, enemy: Bitboard, alpha: int, beta: int, depth: int) returns (r: Option<int>)
      requires Valid() && Disjoint(mover, enemy) && !CanMove(mover, enemy)
      modifies this`polls, table
      ensures Valid()
      ensures depth <= 8 || Never() ==> r.Some?
      ensures depth <= 8 ==> polls == old(polls)
      ensures depth <= 0 ==> r == Some(StaticScore(mover, enemy)) && table.entries == old(table.entries)
      ensures r.Some? ==> SearchFits(mover, enemy, alpha, beta, depth, r.value)
      decreases Clip(depth), 11
    {
      if CanMove(enemy, mover) {
        DisjointSwap(mover, enemy);
        var s;
        ghost var how, suggested, subs, probes;
        s, how, suggested, subs, probes := TreeScore(enemy, mover, LegalMoves(enemy, mover), -beta, -alpha, depth);
        if s.None? {
          return None;
        }
        r := Some(-s.value);
        PassFits(mover, enemy, alpha, beta, depth, s.value);
      } else {
        r := Some(DISK_VALUE * TerminalScore(mover, enemy));
      }
    }

    /**
     * `treeScore`: the eval at the horizon and the shallow solver in the
     * variable endgame; otherwise `mpcMove` (with MPC, from depth 2) or
     * `hashMove`. Then a hash cutoff answers with the entry's bound, an MPC
     * probe that decides with beta or alpha, and otherwise the score is the
     * score of the move loop over the suggestion order.
     */
    method TreeScore(mover: Bitboard, enemy: Bitboard, moverMoves: Bitboard, alpha: int, beta: int, depth: int)
      returns (r: Option<int>, ghost how: MpcOutcome, ghost suggested: int, ghost subs: seq<int>, ghost probes: seq<int>)
      requires Valid() && Disjoint(mover, enemy) && moverMoves == LegalMoves(mover, enemy)
      modifies this`polls, table
      ensures Valid()
      ensures depth <= 8 || Never() ==> r.Some?
      ensures depth <= 8 ==> polls == old(polls)
      ensures depth <= 0 ==> r == Some(eval(mover, enemy)) && table.entries == old(table.entries)
      ensures r.Some? ==> TreeFits(mover, enemy, alpha, beta, depth, r.value)
      ensures r.Some? && depth > 0 && !(options.variableEndgame && EmptyCount(mover, enemy) <= SOLVER_START_DEPTH) ==>
        (how == HashCutoff <==> old(table.CutsOff(mover, enemy, depth, alpha, beta, options.mpc && depth >= 2))) &&
        (how == HashCutoff ==> r.value == old(table.CutResult(mover, enemy, beta)).1) &&
        (how == ProbeHigh ==> options.mpc && depth >= 2 && r.value == beta) &&
        (how == ProbeLow ==> options.mpc && depth >= 2 && r.value == alpha) &&
        (options.mpc && depth >= 2 && how != HashCutoff ==>
          ProbesFit(mover, enemy, alpha, beta, depth, probes, if how == Searched then None else Some(how))) &&
        (how == Searched ==>
          MoveFits(mover, enemy, suggested) &&
          LoopRan(mover, enemy, Fresh(noMove, alpha), beta, Order(mover, enemy, moverMoves, depth, suggested), subs, depth) &&
          r.value == Steps(Fresh(noMove, alpha), Order(mover, enemy, moverMoves, depth, suggested), subs).score)
      decreases Clip(depth), 10
    {
      how, suggested, subs, probes := Searched, -1, [], [];
      if depth <= 0 {
        return Some(eval(mover, enemy)), how, suggested, subs, probes;
      }
      var nEmpty := EmptyCount(mover, enemy);
      if options.variableEndgame && nEmpty <= SOLVER_START_DEPTH {
        var solverAlpha := SolverAlpha(alpha);
        var solverBeta := SolverBeta(beta);
        return Some(solveNoParity(mover, enemy, solverAlpha, solverBeta) * DISK_VALUE), how, suggested, subs, probes;
      }
      if options.mpc && depth >= 2 {
        var ba;
        ba, how, suggested, subs, probes := MpcMove(mover, enemy, moverMoves, alpha, beta, depth);
        if ba == null {
          return None, how, suggested, subs, probes;
        }
        return Some(ba.score), how, suggested, subs, probes;
      }
      var ba;
      ghost var cut := table.CutsOff(mover, enemy, depth, alpha, beta, false);
      ba, suggested, subs := HashMove(mover, enemy, moverMoves, alpha, beta, depth);
      if ba == null {
        return None, how, suggested, subs, probes;
      }
      how := if cut then HashCutoff else Searched;
      r := Some(ba.score);
    }

    /**
     * `hashMove`: an entry searched at least this deep whose min reaches
     * beta, or whose max is at most alpha, answers at once; otherwise the
     * moves are searched in suggestion order, the result is stored with the
     * original window, and from a fresh BA the result is valid for alpha.
     */
    method HashMove(mover: Bitboard, enemy: Bitboard, moverMoves: Bitboard, alpha: int, beta: int, depth: int)
      returns (ba: BA?, ghost suggested: int, ghost subs: seq<int>)
      requires Valid() && Disjoint(mover, enemy) && moverMoves <= LegalMoves(mover, enemy) && depth > 0
      modifies this`polls, table
      ensures Valid()
      ensures depth <= 8 || Never() ==> ba != null
      ensures depth <= 8 ==> polls == old(polls)
      ensures ba != null ==> fresh(ba) && MoveFits(mover, enemy, ba.bestMove)
      ensures ba != null && old(table.CutsOff(mover, enemy, depth, alpha, beta, false)) ==>
        (ba.bestMove, ba.score) == old(table.CutResult(mover, enemy, beta)) && table.entries == old(table.entries)
      ensures ba != null && !old(table.CutsOff(mover, enemy, depth, alpha, beta, false)) ==>
        MoveFits(mover, enemy, suggested) &&
        LoopRan(mover, enemy, Fresh(noMove, alpha), beta, Order(mover, enemy, moverMoves, depth, suggested), subs, depth) &&
        ba.Matches(Steps(Fresh(noMove, alpha), Order(mover, enemy, moverMoves, depth, suggested), subs)) &&
        (noMove <= alpha ==> ba.IsValid(alpha)) &&
        (mover, enemy) in table.entries &&
        table.entries[(mover, enemy)] == StoredEntry(noMove, alpha, beta, depth, ba.bestMove, ba.score)
      decreases Clip(depth), 9
    {
      suggested, subs := -1, [];
      var entry := table.Find(mover, enemy);
      if entry.Some? && entry.value.depth >= depth {
        if entry.value.min >= beta {
          ba := new BA(noMove);
          ba.bestMove := entry.value.bestMove;
          ba.score := entry.value.min;
          return;
        }
        if entry.value.max <= alpha {
          ba := new BA(noMove);
          ba.bestMove := entry.value.bestMove;
          ba.score := entry.value.max;
          return;
        }
      }
      var suggestedMove;
      ghost var iidSuggested, iidSubs;
      suggestedMove, iidSuggested, iidSubs := GetSuggestedMove(mover, enemy, moverMoves, alpha, beta, depth);
      if suggestedMove.None? {
        return null, -1, [];
      }
      suggested := suggestedMove.value;
      ba, subs := TreeMoveWithPossibleSuggestion(mover, enemy, moverMoves, alpha, beta, depth, suggestedMove.value);
      if ba == null {
        return;
      }
      table.Store(mover, enemy, alpha, beta, depth, ba.bestMove, ba.score);
    }

    /**
     * `getSuggestedMove`: the entry's move when it has one; otherwise, deeper
     * than 2, the best move of `hashMove` 2 (or 1) deep, which is the
     * entry's move on a cutoff and the move loop's best move otherwise;
     * otherwise -1.
     */
    method GetSuggestedMove(mover: Bitboard, enemy: Bitboard, moverMoves: Bitboard, alpha: int, beta: int, depth: int)
      returns (r: Option<int>, ghost iidSuggested: int, ghost iidSubs: seq<int>)
      requires Valid() && Disjoint(mover, enemy) && moverMoves <= LegalMoves(mover, enemy) && depth > 0
      modifies this`polls, table
      ensures Valid()
      ensures depth <= 8 || Never() ==> r.Some?
      ensures depth <= 8 ==> polls == old(polls)
      ensures r.Some? ==> MoveFits(mover, enemy, r.value)
      ensures old(table.HasMove(mover, enemy)) ==>
        r == Some(old(table.entries[(mover, enemy)].bestMove)) && table.entries == old(table.entries)
      ensures !old(table.HasMove(mover, enemy)) && depth <= 2 ==> r == Some(-1) && table.entries == old(table.entries)
      ensures !old(table.HasMove(mover, enemy)) && depth > 2 && r.Some? ==>
        (old(table.CutsOff(mover, enemy, IidDepth(depth), alpha, beta, false)) ==>
          r.value == old(table.CutResult(mover, enemy, beta)).0) &&
        (!old(table.CutsOff(mover, enemy, IidDepth(depth), alpha, beta, false)) ==>
          MoveFits(mover, enemy, iidSuggested) &&
          LoopRan(mover, enemy, Fresh(noMove, alpha), beta, Order(mover, enemy, moverMoves, IidDepth(depth), iidSuggested), iidSubs, IidDepth(depth)) &&
          r.value == Steps(Fresh(noMove, alpha), Order(mover, enemy, moverMoves, IidDepth(depth), iidSuggested), iidSubs).bestMove)
      decreases Clip(depth), 8
    {
      iidSuggested, iidSubs := -1, [];
      var entry := table.Find(mover, enemy);
      if entry.Some? && entry.value.bestMove >= 0 {
        return Some(entry.value.bestMove), iidSuggested, iidSubs;
      } else if depth > 2 {
        // internal iterative deepening
        var ba;
        ba, iidSuggested, iidSubs := HashMove(mover, enemy, moverMoves, alpha, beta, IidDepth(depth));
        return Some(ba.bestMove), iidSuggested, iidSubs;
      }
      return Some(-1), iidSuggested, iidSubs;
    }

    /** `treeMoveWithPossibleSuggestion`: the suggestion first when there is one, from a fresh BA. */
    method TreeMoveWithPossibleSuggestion(mover: Bitboard, enemy: Bitboard, moverMoves: Bitboard, alpha: int, beta: int,
                                          depth: int, suggestedMove: int)
      returns (ba: BA?, ghost subs: seq<int>)
      requires Valid() && Disjoint(mover, enemy) && moverMoves <= LegalMoves(mover, enemy) && depth > 0
      requires MoveFits(mover, enemy, suggestedMove)
      modifies this`polls, table
      ensures Valid()
      ensures depth <= 8 || Never() ==> ba != null
      ensures depth <= 8 ==> polls == old(polls)
      ensures ba != null ==> fresh(ba) && MoveFits(mover, enemy, ba.bestMove) && (noMove <= alpha ==> ba.IsValid(alpha))
      ensures ba != null ==>
        LoopRan(mover, enemy, Fresh(noMove, alpha), beta, Order(mover, enemy, moverMoves, depth, suggestedMove), subs, depth) &&
        ba.Matches(Steps(Fresh(noMove, alpha), Order(mover, enemy, moverMoves, depth, suggestedMove), subs))
      decreases Clip(depth), 7
    {
      if suggestedMove >= 0 {
        ba, subs := TreeMoveWithSuggestion(mover, enemy, moverMoves, alpha, beta, depth, suggestedMove);
      } else {
        ba := new BA(noMove);
        var aborted;
        subs, aborted := TreeMoveNoSuggestion(mover, enemy, moverMoves, alpha, beta, depth, ba);
        if aborted {
          ba := null;
        }
      }
      if ba != null {
        var sqs := Order(mover, enemy, moverMoves, depth, suggestedMove);
        OrderLegal(mover, enemy, moverMoves, depth, suggestedMove);
        StepsMoveFits(mover, enemy, Fresh(noMove, alpha), sqs, subs);
        if noMove <= alpha {
          RanValid(noMove, alpha, sqs, subs);
        }
      }
    }

    /**
     * `treeMoveWithSuggestion`: the suggested move is searched first; unless
     * it cuts off, the other moves follow without it.
     */
    method TreeMoveWithSuggestion(mover: Bitboard, enemy: Bitboard, moverMoves: Bitboard, alpha: int, beta: int,
                                  depth: int, suggestedMove: int)
      returns (ba: BA?, ghost subs: seq<int>)
      requires Valid() && Disjoint(mover, enemy) && moverMoves <= LegalMoves(mover, enemy) && depth > 0
      requires IsLegal(mover, enemy, suggestedMove)
      modifies this`polls, table
      ensures Valid()
      ensures depth <= 8 || Never() ==> ba != null
      ensures depth <= 8 ==> polls == old(polls)
      ensures ba != null ==> fresh(ba)
      ensures ba != null ==>
        LoopRan(mover, enemy, Fresh(noMove, alpha), beta, [suggestedMove] + Visit(mover, enemy, moverMoves - {suggestedMove}, depth), subs, depth) &&
        ba.Matches(Steps(Fresh(noMove, alpha), [suggestedMove] + Visit(mover, enemy, moverMoves - {suggestedMove}, depth), subs))
      decreases Clip(depth), 6
    {
      ba := new BA(noMove);
      ghost var st0 := Fresh(noMove, alpha);
      ghost var rest := Visit(mover, enemy, moverMoves - {suggestedMove}, depth);
      var a, cut, aborted;
      ghost var sub;
      a, sub, cut, aborted := SearchMove(mover, enemy, suggestedMove, alpha, beta, depth, ba, st0, [suggestedMove] + rest, []);
      if aborted {
        return null, [];
      }
      assert [] + [sub] == [sub];
      if cut {
        return ba, [sub];
      }
      ghost var st1 := LoopState(ba.bestMove, ba.score, a);
      var moves := moverMoves - {suggestedMove};
      ghost var subs2;
      subs2, aborted := TreeMoveNoSuggestion(mover, enemy, moves, a, beta, depth, ba);
      if aborted {
        return null, [];
      }
      GoingThenRest(mover, enemy, beta, depth, st0, suggestedMove, rest, sub, st1, subs2);
      subs := [sub] + subs2;
    }

    /** A first move that did not cut off, then a loop that ran over the rest: a loop that ran over both. */
    lemma GoingThenRest(mover: Bitboard, enemy: Bitboard, beta: int, depth: int, st0: LoopState, sq: int,
                        rest: seq<int>, sub: int, st1: LoopState, subs: seq<int>)
      requires Going(mover, enemy, beta, depth, st0, [sq] + rest, [sub], st1)
      requires LoopRan(mover, enemy, st1, beta, rest, subs, depth)
      ensures LoopRan(mover, enemy, st0, beta, [sq] + rest, [sub] + subs, depth)
      ensures Steps(st0, [sq] + rest, [sub] + subs) == Steps(st1, rest, subs)
    {
      var fits := SubFits(mover, enemy, beta, depth);
      assert [sub][..0] == [];
      StepsCons(st0, sq, sub, rest, []);
      assert st1 == Step(st0, sq, sub);
      RanCons(st0, beta, sq, sub, rest, subs);
      AllFitCons(st0, sq, sub, rest, subs, fits);
    }

    /**
     * `treeMoveNoSuggestion`: from depth 5 on, the moves by the sorted keys
     * of their shallow values; below, by the masks. The loop continues from
     * the BA and alpha it is given.
     */
    method TreeMoveNoSuggestion(mover: Bitboard, enemy: Bitboard, moverMoves: Bitboard, alpha: int, beta: int,
                                depth: int, ba: BA)
      returns (ghost subs: seq<int>, aborted: bool)
      requires Valid() && Disjoint(mover, enemy) && moverMoves <= LegalMoves(mover, enemy) && depth > 0
      modifies this`polls, table, ba
      ensures Valid()
      ensures depth <= 8 || Never() ==> !aborted
      ensures depth <= 8 ==> polls == old(polls)
      ensures !aborted ==>
        LoopRan(mover, enemy, LoopState(old(ba.bestMove), old(ba.score), alpha), beta, Visit(mover, enemy, moverMoves, depth), subs, depth) &&
        ba.Matches(Steps(LoopState(old(ba.bestMove), old(ba.score), alpha), Visit(mover, enemy, moverMoves, depth), subs))
      decreases Clip(depth), 5
    {
      if depth >= 5 {
        var sortIndices := SortMoves(mover, enemy, moverMoves);
        SortedLegal(mover, enemy, moverMoves, depth, sortIndices[..]);
        subs, aborted := TreeMoveSorted(mover, enemy, alpha, beta, depth, ba, LowBytes(sortIndices[..]));
      } else {
        subs, aborted := TreeMoveUnsorted(mover, enemy, moverMoves, alpha, beta, depth, ba);
      }
    }

    /** The sorted keys of legal moves encode legal moves, in the visit order. */
    lemma SortedLegal(mover: Bitboard, enemy: Bitboard, moverMoves: Bitboard, depth: int, keys: seq<int>)
      requires moverMoves <= LegalMoves(mover, enemy) && depth >= 5
      requires keys == SortInts(ShallowKeys(mover, enemy, SquareList(moverMoves)))
      ensures AllLegal(mover, enemy, LowBytes(keys)) && LowBytes(keys) == Visit(mover, enemy, moverMoves, depth)
    {
      var value := ShallowValue(mover, enemy);
      ShallowKeysRev(mover, enemy, SquareList(moverMoves));
      KeysRevBytes(value, moverMoves);
      SortIntsSpec(KeysRev(value, SquareList(moverMoves)));
      forall k | 0 <= k < |keys|
        ensures IsLegal(mover, enemy, LowBytes(keys)[k])
      {
        assert LowBytes(keys)[k] in LowBytes(keys);
      }
    }

    /**
     * The keys `treeMoveNoSuggestion` sorts by: one slot per move, filled
     * once, with `-value * 256 + sq` for the move's depth-1 value; then
     * `Arrays.sort`. The moves are taken lowest first, and the key of the
     * i-th of n goes to slot n - 1 - i, the number of moves still left.
     */
    method SortMoves(mover: Bitboard, enemy: Bitboard, moverMoves: Bitboard) returns (sortIndices: array<int>)
      requires Valid() && Disjoint(mover, enemy) && moverMoves <= LegalMoves(mover, enemy)
      modifies this`polls, table
      ensures Valid() && fresh(sortIndices) && polls == old(polls) && table.entries == old(table.entries)
      ensures sortIndices[..] == SortInts(ShallowKeys(mover, enemy, SquareList(moverMoves)))
      decreases 1, 2
    {
      var sqs := SquareList(moverMoves);
      ghost var keys := ShallowKeys(mover, enemy, sqs);
      ListLegal(mover, enemy, moverMoves);
      var n := |sqs|;
      sortIndices := new int[n];
      var i := 0;
      while i < n
        invariant 0 <= i <= n
        invariant sortIndices[n - i..] == keys[n - i..]
        invariant Valid() && polls == old(polls) && table.entries == old(table.entries)
      {
        var key := SortKey(mover, enemy, sqs, i);
        sortIndices[n - 1 - i] := key;
        i := i + 1;
      }
      assert sortIndices[..] == keys;
      SortArray(sortIndices);
    }

    /** `-value * 256 + sq` for the depth-1 value of the move to sqs[i], the key of slot |sqs| - 1 - i. */
    method SortKey(mover: Bitboard, enemy: Bitboard, sqs: seq<int>, i: int) returns (key: int)
      requires Valid() && Disjoint(mover, enemy) && AllLegal(mover, enemy, sqs) && 0 <= i < |sqs|
      modifies this`polls, table
      ensures Valid() && polls == old(polls) && table.entries == old(table.entries)
      ensures key == ShallowKeys(mover, enemy, sqs)[|sqs| - 1 - i]
      decreases 1, 1
    {
      var v := CalcMoveScore(mover, enemy, -LIMIT, LIMIT, 1, sqs[i]);
      key := SortIndex(v.value, sqs[i]);
      ShallowKeyAt(mover, enemy, sqs, i);
    }

    /** `for (int sortIndex : sortIndices)`: each key's low byte is the move searched. */
    method TreeMoveSorted(mover: Bitboard, enemy: Bitboard, alpha: int, beta: int, depth: int, ba: BA, sqs: seq<int>)
      returns (ghost subs: seq<int>, aborted: bool)
      requires Valid() && Disjoint(mover, enemy) && AllLegal(mover, enemy, sqs) && depth > 0
      modifies this`polls, table, ba
      ensures Valid()
      ensures depth <= 8 || Never() ==> !aborted
      ensures depth <= 8 ==> polls == old(polls)
      ensures !aborted ==> Done(mover, enemy, beta, depth, LoopState(old(ba.bestMove), old(ba.score), alpha), sqs, subs, ba.bestMove, ba.score)
      decreases Clip(depth), 3
    {
      ghost var st0 := LoopState(ba.bestMove, ba.score, alpha);
      var a, cut;
      assert sqs[0..|sqs|] == sqs;
      a, subs, cut, aborted := SearchList(mover, enemy, sqs, alpha, beta, depth, ba, st0, sqs, []);
      if !aborted && !cut {
        GoingDone(mover, enemy, beta, depth, st0, sqs, subs, LoopState(ba.bestMove, ba.score, a));
      }
    }

    /** The `masks` loop: corners, then the other non-X-squares, then the X-squares. */
    method TreeMoveUnsorted(mover: Bitboard, enemy: Bitboard, moverMoves: Bitboard, alpha: int, beta: int, depth: int, ba: BA)
      returns (ghost subs: seq<int>, aborted: bool)
      requires Valid() && Disjoint(mover, enemy) && moverMoves <= LegalMoves(mover, enemy) && depth > 0
      modifies this`polls, table, ba
      ensures Valid()
      ensures depth <= 8 || Never() ==> !aborted
      ensures depth <= 8 ==> polls == old(polls)
      ensures !aborted ==>
        Done(mover, enemy, beta, depth, LoopState(old(ba.bestMove), old(ba.score), alpha), OrderedEmpties(moverMoves, OrderMasks()), subs, ba.bestMove, ba.score)
      decreases Clip(depth), 4
    {
      subs, aborted := MaskLoop(mover, enemy, moverMoves, OrderMasks(), alpha, beta, depth, ba);
    }

    /** The loop over masks, each mask's moves lowest first. */
    method MaskLoop(mover: Bitboard, enemy: Bitboard, moverMoves: Bitboard, masks: seq<Bitboard>, alpha: int, beta: int,
                    depth: int, ba: BA)
      returns (ghost subs: seq<int>, aborted: bool)
      requires Valid() && Disjoint(mover, enemy) && moverMoves <= LegalMoves(mover, enemy) && depth > 0
      modifies this`polls, table, ba
      ensures Valid()
      ensures depth <= 8 || Never() ==> !aborted
      ensures depth <= 8 ==> polls == old(polls)
      ensures !aborted ==>
        Done(mover, enemy, beta, depth, LoopState(old(ba.bestMove), old(ba.score), alpha), OrderedEmpties(moverMoves, masks), subs, ba.bestMove, ba.score)
      decreases Clip(depth), 3
    {
      ghost var st0 := LoopState(ba.bestMove, ba.score, alpha);
      ghost var sqs := OrderedEmpties(moverMoves, masks);
      var a := alpha;
      subs := [];
      aborted := false;
      var i := 0;
      while i < |masks|
        invariant 0 <= i <= |masks| && |subs| == |OrderedEmpties(moverMoves, masks[..i])| && !aborted
        invariant Valid() && (depth <= 8 ==> polls == old(polls))
        invariant Going(mover, enemy, beta, depth, st0, sqs, subs, LoopState(ba.bestMove, ba.score, a))
      {
        MaskSlice(moverMoves, masks, i);
        ListLegal(mover, enemy, moverMoves * masks[i]);
        var cut;
        a, subs, cut, aborted := SearchList(mover, enemy, SquareList(moverMoves * masks[i]), a, beta, depth, ba, st0, sqs, subs);
        if aborted || cut {
          return;
        }
        i := i + 1;
      }
      assert masks[..i] == masks;
      GoingDone(mover, enemy, beta, depth, st0, sqs, subs, LoopState(ba.bestMove, ba.score, a));
    }

    /**
     * A move loop over list, which continues the fold over sqs from the
     * results subs0: the inner loop of both orders.
     */
    method SearchList(mover: Bitboard, enemy: Bitboard, list: seq<int>, a0: int, beta: int, depth: int, ba: BA,
                      ghost st0: LoopState, ghost sqs: seq<int>, ghost subs0: seq<int>)
      returns (a: int, ghost subs: seq<int>, cut: bool, aborted: bool)
      requires Valid() && Disjoint(mover, enemy) && AllLegal(mover, enemy, list) && depth > 0
      requires |subs0| + |list| <= |sqs| && sqs[|subs0|..|subs0| + |list|] == list
      requires Going(mover, enemy, beta, depth, st0, sqs, subs0, LoopState(ba.bestMove, ba.score, a0))
      modifies this`polls, table, ba
      ensures Valid()
      ensures depth <= 8 || Never() ==> !aborted
      ensures depth <= 8 ==> polls == old(polls)
      ensures !aborted && cut ==> Done(mover, enemy, beta, depth, st0, sqs, subs, ba.bestMove, ba.score)
      ensures !aborted && !cut ==>
        |subs| == |subs0| + |list| && Going(mover, enemy, beta, depth, st0, sqs, subs, LoopState(ba.bestMove, ba.score, a))
      decreases Clip(depth), 2
    {
      a, subs, cut, aborted := a0, subs0, false, false;
      var i := 0;
      while i < |list|
        invariant 0 <= i <= |list| && |subs| == |subs0| + i && !aborted && !cut
        invariant Valid() && (depth <= 8 ==> polls == old(polls))
        invariant Going(mover, enemy, beta, depth, st0, sqs, subs, LoopState(ba.bestMove, ba.score, a))
      {
        assert sqs[|subs|] == list[i];
        ghost var sub;
        a, sub, cut, aborted := SearchMove(mover, enemy, list[i], a, beta, depth, ba, st0, sqs, subs);
        if aborted {
          return;
        }
        subs := subs + [sub];
        if cut {
          return;
        }
        i := i + 1;
      }
    }

    /** One move of a move loop: `calcMoveScore`, then the BA and alpha updates; a result at or above beta cuts off. */
    method SearchMove(mover: Bitboard, enemy: Bitboard, sq: int, a0: int, beta: int, depth: int, ba: BA,
                      ghost st0: LoopState, ghost sqs: seq<int>, ghost subs0: seq<int>)
      returns (a: int, ghost sub: int, cut: bool, aborted: bool)
      requires Valid() && Disjoint(mover, enemy) && IsLegal(mover, enemy, sq) && depth > 0
      requires |subs0| < |sqs| && sqs[|subs0|] == sq
      requires Going(mover, enemy, beta, depth, st0, sqs, subs0, LoopState(ba.bestMove, ba.score, a0))
      modifies this`polls, table, ba
      ensures Valid()
      ensures depth <= 8 || Never() ==> !aborted
      ensures depth <= 8 ==> polls == old(polls)
      ensures !aborted && cut ==> Done(mover, enemy, beta, depth, st0, sqs, subs0 + [sub], ba.bestMove, ba.score)
      ensures !aborted && !cut ==> Going(mover, enemy, beta, depth, st0, sqs, subs0 + [sub], LoopState(ba.bestMove, ba.score, a))
      decreases Clip(depth), 1
    {
      a, sub, cut, aborted := a0, 0, false, false;
      var subScore := CalcMoveScore(mover, enemy, a, beta, depth, sq);
      if subScore.None? {
        aborted := true;
        return;
      }
      var v := subScore.value;
      sub := v;
      StepsAppend(st0, beta, sqs, subs0, v);
      SubFitApply(mover, enemy, beta, depth, sq, a, v);
      AllFitAppend(st0, sqs, subs0, SubFits(mover, enemy, beta, depth), v);
      if v > ba.score {
        ba.score := v;
        if v > a {
          ba.bestMove := sq;
          a := v;
          if v >= beta {
            cut := true;
          }
        }
      }
    }

    /** The position after a legal move, as `calcMoveScore` builds it from `counter.calcFlips`. */
    static method Play(mover: Bitboard, enemy: Bitboard, sq: int) returns (subMover: Bitboard, subEnemy: Bitboard)
      requires Disjoint(mover, enemy) && IsLegal(mover, enemy, sq)
      ensures subMover == NextMover(mover, enemy, sq) && subEnemy == NextEnemy(mover, enemy, sq)
      ensures Disjoint(subMover, subEnemy)
    {
      var square := SquareOf(sq);
      var flips := CalcFlipsOf(square, mover, enemy);
      subEnemy := mover + {sq} + flips;
      subMover := enemy - flips;
      PlayFacts(mover, enemy, sq);
    }

    /**
     * `calcMoveScore`: plays the move and returns minus the child's score
     * for the negated window, one ply shallower.
     */
    method CalcMoveScore(mover: Bitboard, enemy: Bitboard, alpha: int, beta: int, depth: int, sq: int) returns (r: Option<int>)
      requires Valid() && Disjoint(mover, enemy) && IsLegal(mover, enemy, sq) && depth > 0
      modifies this`polls, table
      ensures Valid()
      ensures depth <= 8 || Never() ==> r.Some?
      ensures depth <= 8 ==> polls == old(polls)
      ensures depth == 1 ==> r == Some(ShallowScore(mover, enemy, sq)) && table.entries == old(table.entries)
      ensures r.Some? ==> SubFit(mover, enemy, beta, depth, sq, alpha, r.value)
      decreases Clip(depth), 0
    {
      PlayDisjoint(mover, enemy, sq);
      var subScore := SearchScore(NextMover(mover, enemy, sq), NextEnemy(mover, enemy, sq), -beta, -alpha, depth - 1);
      if subScore.None? {
        return None;
      }
      r := Some(-subScore.value);
      ChildFits(mover, enemy, alpha, beta, depth, sq, subScore.value);
    }

    /**
     * `mpcMove`: the hash cutoffs (here an exact entry also answers); then
     * each cutter's shallow probe: at or above its beta the result is beta,
     * at or below its alpha it is alpha; otherwise the moves are searched
     * in suggestion order, and the result is the move loop's, stored and
     * valid as in `hashMove`. Without a hash cutoff, the ghost probes are
     * the cutters' probe scores, and the first that decides gives the
     * outcome.
     */
    method MpcMove(mover: Bitboard, enemy: Bitboard, moverMoves: Bitboard, alpha: int, beta: int, depth: int)
      returns (ba: BA?, ghost how: MpcOutcome, ghost suggested: int, ghost subs: seq<int>, ghost probes: seq<int>)
      requires Valid() && Disjoint(mover, enemy) && moverMoves <= LegalMoves(mover, enemy) && depth > 0
      modifies this`polls, table
      ensures Valid()
      ensures depth <= 8 || Never() ==> ba != null
      ensures depth <= 8 ==> polls == old(polls)
      ensures ba != null ==> fresh(ba) && MoveFits(mover, enemy, ba.bestMove)
      ensures ba != null ==> (how == HashCutoff <==> old(table.CutsOff(mover, enemy, depth, alpha, beta, true)))
      ensures ba != null && how == HashCutoff ==>
        (ba.bestMove, ba.score) == old(table.CutResult(mover, enemy, beta)) && table.entries == old(table.entries)
      ensures ba != null && how == ProbeHigh ==> ba.score == beta && ProbesFit(mover, enemy, alpha, beta, depth, probes, Some(ProbeHigh))
      ensures ba != null && how == ProbeLow ==> ba.score == alpha && ProbesFit(mover, enemy, alpha, beta, depth, probes, Some(ProbeLow))
      ensures ba != null && how == Searched ==> ProbesFit(mover, enemy, alpha, beta, depth, probes, None)
      ensures ba != null && how == Searched ==>
        MoveFits(mover, enemy, suggested) &&
        LoopRan(mover, enemy, Fresh(noMove, alpha), beta, Order(mover, enemy, moverMoves, depth, suggested), subs, depth) &&
        ba.Matches(Steps(Fresh(noMove, alpha), Order(mover, enemy, moverMoves, depth, suggested), subs)) &&
        (noMove <= alpha ==> ba.IsValid(alpha)) &&
        (mover, enemy) in table.entries &&
        table.entries[(mover, enemy)] == StoredEntry(noMove, alpha, beta, depth, ba.bestMove, ba.score)
      decreases Clip(depth), 9
    {
      suggested, subs, probes := -1, [], [];
      ba := new BA(noMove);
      var entry := table.Find(mover, enemy);
      if entry.Some? && entry.value.depth >= depth {
        if entry.value.min >= beta {
          ba.bestMove := entry.value.bestMove;
          ba.score := entry.value.min;
          return ba, HashCutoff, suggested, subs, probes;
        }
        if entry.value.max <= alpha || IsExact(entry.value) {
          ba.bestMove := entry.value.bestMove;
          ba.score := entry.value.max;
          return ba, HashCutoff, suggested, subs, probes;
        }
      }
      var probe, aborted;
      probe, aborted, probes := MpcProbes(mover, enemy, moverMoves, alpha, beta, depth, ba);
      if aborted {
        return null, Searched, suggested, subs, probes;
      }
      if probe.Some? {
        return ba, probe.value, suggested, subs, probes;
      }
      var suggestedMove;
      ghost var iidSuggested, iidSubs;
      suggestedMove, iidSuggested, iidSubs := GetSuggestedMove(mover, enemy, moverMoves, alpha, beta, depth);
      if suggestedMove.None? {
        return null, Searched, suggested, subs, probes;
      }
      suggested := suggestedMove.value;
      var ba1;
      ba1, subs := TreeMoveWithPossibleSuggestion(mover, enemy, moverMoves, alpha, beta, depth, suggestedMove.value);
      if ba1 == null {
        return null, Searched, suggested, subs, probes;
      }
      table.Store(mover, enemy, alpha, beta, depth, ba1.bestMove, ba1.score);
      return ba1, Searched, suggested, subs, probes;
    }

    /**
     * The cutters' probes of `mpcMove`: a shallow search (the eval at depth
     * 0) at or above a cutter's beta decides beta, at or below its alpha
     * decides alpha; otherwise its best move is kept in ba and the next
     * cutter probes. None when no probe decides. The ghost probes are the
     * probe scores in cutter order, up to the one that decides.
     */
    method MpcProbes(mover: Bitboard, enemy: Bitboard, moverMoves: Bitboard, alpha: int, beta: int, depth: int, ba: BA)
      returns (probe: Option<MpcOutcome>, aborted: bool, ghost probes: seq<int>)
      requires Valid() && Disjoint(mover, enemy) && moverMoves <= LegalMoves(mover, enemy) && depth > 0
      requires MoveFits(mover, enemy, ba.bestMove)
      modifies this`polls, table, ba
      ensures Valid()
      ensures depth <= 8 || Never() ==> !aborted
      ensures depth <= 8 ==> polls == old(polls)
      ensures !aborted ==> MoveFits(mover, enemy, ba.bestMove)
      ensures !aborted ==> ProbesFit(mover, enemy, alpha, beta, depth, probes, probe)
      ensures !aborted && probe.Some? ==>
        (probe.value == ProbeHigh && ba.score == beta) || (probe.value == ProbeLow && ba.score == alpha)
      decreases Clip(depth), 8
    {
      probe, aborted, probes := None, false, [];
      var nEmpty := EmptyCount(mover, enemy);
      var cs := cutters(nEmpty, depth);
      ghost var windows := CutterWindows(cs, alpha, beta);
      var i := 0;
      while i < |cs|
        invariant 0 <= i <= |cs| && MoveFits(mover, enemy, ba.bestMove)
        invariant Valid() && (depth <= 8 ==> polls == old(polls))
        invariant |probes| == i && Undecided(windows, probes) && EvalProbes(windows, eval(mover, enemy), probes)
      {
        var cutter := cs[i];
        var margin := 0;
        var shallowAlpha := cutter.shallowAlpha(alpha) + margin;
        var shallowBeta := cutter.shallowBeta(beta) - margin;
        var shallowDepth := cutter.shallowDepth;
        assert windows[i] == Window(shallowAlpha, shallowBeta, shallowDepth);
        var mpcScore;
        if shallowDepth <= 0 {
          mpcScore := eval(mover, enemy);
        } else {
          assert shallowDepth < depth;
          var mpcBa := ShallowProbe(mover, enemy, moverMoves, shallowAlpha, shallowBeta, shallowDepth, depth);
          if mpcBa == null {
            return None, true, probes;
          }
          mpcScore := mpcBa.score;
          // the probe's move is kept unless it cuts off at alpha
          if mpcScore >= shallowBeta || mpcScore > shallowAlpha {
            ba.bestMove := mpcBa.bestMove;
          }
        }
        if mpcScore >= shallowBeta {
          ba.score := beta;
          ProbeDecided(windows, eval(mover, enemy), probes, mpcScore);
          return Some(ProbeHigh), false, probes + [mpcScore];
        }
        if mpcScore <= shallowAlpha {
          ba.score := alpha;
          ProbeDecided(windows, eval(mover, enemy), probes, mpcScore);
          return Some(ProbeLow), false, probes + [mpcScore];
        }
        ProbeUndecided(windows, eval(mover, enemy), probes, mpcScore);
        probes := probes + [mpcScore];
        i := i + 1;
      }
    }

    /** A deeper cutter's probe: `mpcMove` with the cutter's window and depth, below the depth it stands in for. */
    method ShallowProbe(mover: Bitboard, enemy: Bitboard, moverMoves: Bitboard, shallowAlpha: int, shallowBeta: int,
                        shallowDepth: int, ghost depth: int) returns (mpcBa: BA?)
      requires Valid() && Disjoint(mover, enemy) && moverMoves <= LegalMoves(mover, enemy) && 0 < shallowDepth < depth
      modifies this`polls, table
      ensures Valid()
      ensures depth <= 8 || Never() ==> mpcBa != null
      ensures depth <= 8 ==> polls == old(polls)
      ensures mpcBa != null ==> MoveFits(mover, enemy, mpcBa.bestMove)
      decreases Clip(depth), 7
    {
      ghost var how, suggested, subs, probes;
      mpcBa, how, suggested, subs, probes := MpcMove(mover, enemy, moverMoves, shallowAlpha, shallowBeta, shallowDepth);
    }
  }
}
