# novello search engine in Dafny

This project models the search engine of the novello Othello program, from its bit-level flip model up to its exact endgame solver and its two midgame alpha-beta searchers.

**Board and flips.**
- A 64-bit bitboard is a set of square indices in 0..63 (`Bitboards.Bitboard`). Bit i of the Java `long` is square i of the set.
- The Java bit operations map to set operations:

  | Java | set |
  |---|---|
  | `\|` | union |
  | `&` | intersection |
  | `& ~` | difference |
  | `~` | complement within the board |
  | `1L << sq` | `{sq}` |
  | `bitCount` | cardinality |
  | `numberOfTrailingZeros` | the least member |

- `Square` (module `Squares`) carries its index and its parity quadrant.
- `calcFlips` is the union of the East/West flips from the `KindergartenEastWest` lookup table and the other three line directions.
- All four directions are checked against a single reference relation, which walks each ray away from the move (module `Rays`). The module also defines legal moves.

**Perfect-play value.**
- `Game.Value` is the perfect-play disc differential, defined by recursion on the number of empty squares, with passes and the final count as the rules give them.
- Every search result is proved *fail-soft* against it (`Game.FailSoft`):
  - a value at or above beta gives a result between beta and the value;
  - a value inside the window gives exactly the value;
  - a value at or below alpha gives a result between the value and alpha.

This is the contract stated at `src/com/welty/novello/solver/Solver.java:147-154`.

**Exact solver.** `Solvers.Solver` is the exact endgame solver, written as imperative methods:
- the list of empty squares is a `ListOfEmpties` object, edited in place by remove and restore;
- the transposition table is a `HashTable` object;
- the move sorter is a `MoveSorter` object over an array.

Each method is proved against `Value`, and each one restores the list of empties it received.

**Move sorter.**
- The move sorter's insertion (module `MoveSorters`) is modelled on its array buffer, as `MoveSorterTest` pins it down.
- The specification function is `Inserted`, of which a permutation, non-increasing order and stable ties are proved.

**Midgame searchers.** The two midgame searchers are classes whose methods follow the Java methods one for one:
- `Midgame.MidgameSearcher`;
- `MidgameSearching.MidgameSearch`, the per-thread search with the opening book and per-width hash tables.

They work on centi-disc scores, and four collaborators are functions the searcher is built with:
- the evaluation;
- the Multi-ProbCut cutters;
- the shallow endgame solver;
- the book.

Every score is therefore stated relative to those functions:
- `TreeFits` and `SearchFits` say what `treeScore` and `searchScore` promise at the horizon, at the endgame switch, after a pass and at the end of the game;
- every move loop is tied to the state function `MidgameCommon.Steps`, which folds the `BA` updates over the visited moves;
- `treeScore`, `mpcMove` and `getSuggestedMove` say through ghost outputs how they got their result: a hash cutoff and the entry's bound, the cutters' probe scores and the first that decides (beta or alpha), or the move loop over the suggestion order and its state.
- `MidgameCommon.LoopFailSoft`, `SearchedSoftAppend` and `MaxOfSpec` are facts about `Steps` for any sub-scores that are fail-soft for some values: such a loop is then fail-soft for the best of those values. No searcher contract instantiates them, because the sub-scores are scores of the injected evaluation's tree and there is no game value for them to be fail-soft against.
- `MidgameHash.StoredEntryBounds` and `EntryCutoffs` are facts about the table on its own (a store records bounds that hold, a cutoff's answer is fail-soft); the searchers do not use them, for the same reason.

**Shared pieces.**
- `BA` and the window conversions `solverAlpha`/`solverBeta` are shared by both searchers (module `MidgameCommon`).
- `MoveScore` with `equals`/`hashCode` is in module `MoveScores`, with Java's 32-bit `int` arithmetic in `JavaInts`.

**Where the model departs from the source.**
- The source has two shapes of the move sorter. The solver reads `sorter.moves[i]` records with a `node`, while the test reads `SorterMove` records. Both are modelled by one `MoveSorter` over `SorterMove` records, which carry an optional node.
- The source's aborted search is an exception. Here it is `None`, or a `null` BA, and it propagates the same way.

## Model

| member | source | states |
|---|---|---|
| Bitboards.ShiftLeft | src/com/welty/novello/core/Square.java:37-39 | `b << k` on a bitboard: square x is set exactly when x - k was set in b and x is still on the board |
| Bitboards.Lowest | src/com/welty/novello/solver/Solver.java:135 | `numberOfTrailingZeros` of a non-empty bitboard is a member no larger than any other member |
| Bitboards.SquareListSpec | src/com/welty/novello/solver/Solver.java:133-140 | popping the lowest bit until the board is empty lists exactly the board's squares, ascending, one per set bit |
| Bitboards.SquareListLowest | src/com/welty/novello/solver/Solver.java:134-138 | one step of that loop takes the lowest square and continues with the board without it |
| Bitboards.SquareListEmpty | src/com/welty/novello/solver/Solver.java:134 | the loop over an empty board lists nothing |
| Bitboards.NotCard | src/com/welty/novello/solver/Solver.java:163 | `bitCount(~b)` is 64 minus `bitCount(b)` |
| Bits.AndBit | src/com/welty/novello/core/KindergartenEastWest.java:36 | bit c of `x & y` is set exactly when it is set in both |
| Bits.OrBit | src/com/welty/novello/core/KindergartenEastWest.java:37 | bit c of `x \| y` is set exactly when it is set in either |
| Bits.ComplementBit | src/com/welty/novello/core/KindergartenEastWest.java:37 | bit c of `~x` is set exactly when it is clear in x |
| Squares.QuadrantMembers | src/com/welty/novello/core/Square.java:36-39 | `BOTTOM_RIGHT = 0x0F0F0F0F` and its shifts by 4, 32 and 36 hold exactly the four 4x4 corner blocks of squares |
| Squares.QuadrantsDisjoint | src/com/welty/novello/core/Square.java:36-39 | the four parity quadrants are pairwise disjoint |
| Squares.QuadrantsCover | src/com/welty/novello/core/Square.java:36-39 | together the four quadrants cover all 64 squares |
| Squares.QuadrantSizes | src/com/welty/novello/core/Square.java:36-39 | each quadrant holds 16 squares |
| Squares.ParityRegionSpec | src/com/welty/novello/core/Square.java:88-98 | the constructor keeps sq, and the if-chain picks a parityRegion that is one of the four quadrants and contains sq |
| Squares.SquareTable | src/com/welty/novello/core/Square.java:26-31 | the table has 64 entries, entry i being `new Square(i)` |
| Squares.CreateSquares | src/com/welty/novello/core/Square.java:26-31 | the static initializer loop fills a fresh 64-entry array with exactly that table |
| Squares.OfSpec | src/com/welty/novello/core/Square.java:64-66 | `Square.of(i).sq == i`, and i lies in its own parity region |
| Squares.OfInjective | src/com/welty/novello/core/Square.java:64-66 | distinct indices give distinct Squares |
| Squares.SquareOf | src/com/welty/novello/core/Square.java:64-66 | `Square.of(sq)` returns entry sq of the table the static initializer fills, which is `new Square(sq)`, whose index is sq |
| Squares.PlacementSingle | src/com/welty/novello/core/Square.java:84-86 | `placement()` has exactly one bit set, bit sq |
| Squares.CalcFlipsSpec | src/com/welty/novello/core/Square.java:68-79 | on an empty square, the OR of the four direction flippers is exactly the reference ray-walk flip set; it is empty exactly when the move is illegal, and it holds enemy discs only |
| Squares.CalcFlipsOf | src/com/welty/novello/core/Square.java:75-79 | `calcFlips` called on an empty square returns the reference flips, 0 exactly when the move is illegal |
| Rays.At | src/com/welty/novello/core/KindergartenEastWest.java:59-60 | square `8*row + col` is on the board with row `sq / 8` and column `sq % 8` |
| Rays.Run | src/com/welty/novello/core/Square.java:75-77 | a walk from the move along one direction over enemy discs, ended by a mover disc, collects enemy discs only |
| Rays.RayFlips | src/com/welty/novello/core/Square.java:75-77 | the flips along one direction are enemy discs |
| Rays.FlipsAlong | src/com/welty/novello/core/Square.java:75-77 | the union of the flips along the first n directions is enemy discs |
| Rays.RefFlips | src/com/welty/novello/core/Square.java:75-77 | the reference flip set of a move is enemy discs |
| Rays.RefFlipsRays | src/com/welty/novello/core/Square.java:75-77 | the reference flip set is the union of the flips in the eight directions, paired as the source's four flippers |
| Rays.LegalMoves | src/com/welty/novello/solver/Solver.java:110 | `calcMoves` holds exactly the squares where a move is legal |
| Rays.CanMoveIff | src/com/welty/novello/solver/Solver.java:110 | a mover can move exactly when `calcMoves` is not 0 |
| Rays.LegalIffBracket | src/com/welty/novello/core/Square.java:68-73 | a move on an empty square is legal exactly when some direction brackets a non-empty run of enemy discs |
| KindergartenEastWest.RowByte | src/com/welty/novello/core/KindergartenEastWest.java:59-62 | `(b >>> rowTimes8) & 0xFF` is a byte whose bit c is the disc at column c of the row of sq |
| KindergartenEastWest.RowSquares | src/com/welty/novello/core/KindergartenEastWest.java:63-65 | shifting a row byte left by `rowTimes8` puts bit c on column c of that row and nothing elsewhere |
| KindergartenEastWest.ColumnsValueBit | src/com/welty/novello/core/KindergartenEastWest.java:39-42 | the byte built from a set of columns has bit c set exactly for the columns in the set, and is below 256 |
| KindergartenEastWest.RowRun | src/com/welty/novello/core/KindergartenEastWest.java:39-42 | the single-row walk from col collects only columns on the board |
| KindergartenEastWest.Index | src/com/welty/novello/core/KindergartenEastWest.java:24-26 | `index(col, m, e)` lies below `8*256*256` |
| KindergartenEastWest.IndexDecode | src/com/welty/novello/core/KindergartenEastWest.java:24-26 | index is one-to-one: col, moverRow and enemyRow are recovered from it |
| KindergartenEastWest.IndexEncode | src/com/welty/novello/core/KindergartenEastWest.java:31 | every slot of the table is the index of exactly one (col, moverRow, enemyRow) |
| KindergartenEastWest.FlipTable | src/com/welty/novello/core/KindergartenEastWest.java:28-31 | the initialized table has `8*256*256` entries, each what the initializer writes at its index |
| KindergartenEastWest.TableEntries | src/com/welty/novello/core/KindergartenEastWest.java:36-42 | an entry whose row bytes overlap or whose column is occupied stays 0; every other entry is `fillLR` of the row bytes at that column |
| KindergartenEastWest.CreateFlipTable | src/com/welty/novello/core/KindergartenEastWest.java:30-49 | the triple loop over column, mover row and enemy row fills a fresh array with exactly the initialized table |
| KindergartenEastWest.FillEnemyRows | src/com/welty/novello/core/KindergartenEastWest.java:35-43 | the innermost loop writes the 256 entries of one (col, moverRow) block and leaves the earlier and later slots alone |
| KindergartenEastWest.FillEntry | src/com/welty/novello/core/KindergartenEastWest.java:36-42 | one iteration writes its entry only when the rows are disjoint and the column is empty, and touches no other slot |
| KindergartenEastWest.OnRow | src/com/welty/novello/core/KindergartenEastWest.java:63-65 | a set of columns placed on a row holds exactly the squares of that row at those columns |
| KindergartenEastWest.RowRunAgrees | src/com/welty/novello/core/KindergartenEastWest.java:39-42 | the walk along the row bytes finds the same bracketed run as the board walk East or West |
| KindergartenEastWest.RayFlipsOnRow | src/com/welty/novello/core/KindergartenEastWest.java:39-42 | the East and West flips of a move are the row walk's columns placed on the row |
| KindergartenEastWest.FillLRAgrees | src/com/welty/novello/core/KindergartenEastWest.java:39-42 | `fillLR` of the row bytes, on the row of sq, is exactly the East plus West reference flips |
| KindergartenEastWest.FlipsSpec | src/com/welty/novello/core/KindergartenEastWest.java:58-66 | `flips(sq, mover, enemy)` reads only the two row bytes and is the East plus West flips of a move on the empty square sq, and nothing when sq is occupied |
| EmptySquares.Without | src/com/welty/novello/solver/Solver.java:257 | `node.remove()` takes out exactly one node, keeping the order of the rest |
| EmptySquares.WithoutRestore | src/com/welty/novello/solver/Solver.java:257-260 | `node.restore()` after `node.remove()` gives back the list it started from |
| EmptySquares.ListLength | src/com/welty/novello/solver/Solver.java:163 | a list of the empties has one node per empty square |
| EmptySquares.ListedAreEmpty | src/com/welty/novello/solver/Solver.java:246-248 | every listed square is empty |
| EmptySquares.WithoutListsEmpties | src/com/welty/novello/solver/Solver.java:255-258 | after a move on a listed square, the list without that node lists the child's empties |
| EmptySquares.ListOfEmpties.constructor | src/com/welty/novello/solver/Solver.java:126 | a new list is empty |
| EmptySquares.ListOfEmpties.Add | src/com/welty/novello/solver/Solver.java:138 | `add` appends the square at the end |
| EmptySquares.ListOfEmpties.Remove | src/com/welty/novello/solver/Solver.java:257 | `remove` unlinks one node and keeps the order of the rest |
| EmptySquares.ListOfEmpties.Restore | src/com/welty/novello/solver/Solver.java:260 | `restore` puts the node back where it was |
| EmptySquares.MasksUnionSpec | src/com/welty/novello/solver/Solver.java:127 | a square is covered by the move-ordering masks exactly when some mask holds it |
| EmptySquares.OrderedEmptiesSpec | src/com/welty/novello/solver/Solver.java:124-131 | for disjoint masks, the empties listed mask by mask are distinct, and are exactly the empties the masks cover |
| EmptySquares.DistinctConcat | src/com/welty/novello/solver/Solver.java:127-129 | listing disjoint masks one after another repeats no square |
| EmptySquares.OrderedEmptiesList | src/com/welty/novello/solver/Solver.java:124-131 | when the masks partition the board, that list lists every empty square of the position once |
| EmptySquares.PopulateUnsorted | src/com/welty/novello/solver/Solver.java:133-140 | `populateUnsorted` appends the squares of the bitboard in ascending order |
| EmptySquares.CreateEmptiesList | src/com/welty/novello/solver/Solver.java:124-131 | `createEmptiesList` builds a fresh list holding the empties of each mask in turn |
| EmptySquares.ParityOfOdd | src/com/welty/novello/solver/Solver.java:180-186 | the XOR of the listed squares' parity regions holds a square exactly when an odd number of listed squares share its region |
| EmptySquares.CalcParity | src/com/welty/novello/solver/Solver.java:180-186 | `calcParity` walks the list and returns that XOR |
| Game.DiscCount | src/com/welty/novello/solver/Solver.java:163 | for disjoint mover and enemy, discs plus empties are 64 |
| Game.PlayDisjoint | src/com/welty/novello/solver/Solver.java:255-256 | `subMover = enemy & ~flips` and `subEnemy = mover \| flips \| placement` stay disjoint |
| Game.PlayFacts | src/com/welty/novello/solver/Solver.java:342-344 | a move on an empty square keeps the masks disjoint, empties exactly that square, and lowers the empty count by one |
| Game.BestOfIsMax | src/com/welty/novello/solver/Solver.java:328-382 | the best over a set of moves is at least every move's value and is attained by one of them; it is NO_MOVE (-65) for no moves |
| Game.MoverValueIsMax | src/com/welty/novello/solver/Solver.java:227-231 | the mover's value with no legal move is NO_MOVE; otherwise it is the maximum over the legal moves and attained by one |
| Game.ValueBounds | src/com/welty/novello/solver/Solver.java:147-160 | the perfect-play value lies in [-64, 64] |
| Game.MoverValueBounds | src/com/welty/novello/solver/Solver.java:227-231 | the mover's value is NO_MOVE exactly when there is no legal move, and in [-64, 64] otherwise |
| Game.ChildValueBounds | src/com/welty/novello/solver/Solver.java:258-259 | the value of a legal move lies in [-64, 64] |
| Game.NoEmptiesNoMoves | src/com/welty/novello/solver/Solver.java:164-166 | a full board has no legal move |
| Game.FullBoardValue | src/com/welty/novello/solver/Solver.java:164-166 | on a full board the value is `terminalScore`, the disc differential |
| Game.FailSoftNegate | src/com/welty/novello/solver/Solver.java:258-259 | a fail-soft child result for (-beta, -alpha), negated, is fail-soft for (alpha, beta) |
| Game.FailSoftExact | src/com/welty/novello/solver/Solver.java:94-98 | with the window (-64, 64), a fail-soft result is the exact value |
| Game.FailSoftSides | src/com/welty/novello/solver/Solver.java:147-154 | a fail-soft result at or above beta is a lower bound on the value, one at or below alpha an upper bound, and one in between is exact |
| EndgameHash.StoredEntryBounds | src/com/welty/novello/solver/Solver.java:315 | storing a fail-soft result with the original window records bounds [min, max] that hold for the value |
| EndgameHash.HashCutoffs | src/com/welty/novello/solver/Solver.java:288-301 | returning `min` when it reaches beta, `max` when at most alpha, or `min` when min == max, is a fail-soft result |
| EndgameHash.NarrowedWindowSize | src/com/welty/novello/solver/Solver.java:302-307 | without a cutoff, the narrowed window [max(alpha, min), min(beta, max)] stays a non-empty window in [-64, 64] |
| EndgameHash.NarrowedWindow | src/com/welty/novello/solver/Solver.java:302-313 | a fail-soft result for the narrowed window is fail-soft for the original window |
| EndgameHash.HashTable.constructor | src/com/welty/novello/solver/Solver.java:72 | a new table is empty |
| EndgameHash.HashTable.Clear | src/com/welty/novello/solver/Solver.java:566-568 | `clear` empties the table |
| EndgameHash.HashTable.Find | src/com/welty/novello/solver/Solver.java:288 | `find` returns the position's entry when there is one and null otherwise; a found entry's bounds hold for the mover's value |
| EndgameHash.HashTable.Store | src/com/welty/novello/solver/Solver.java:315 | `store` records the bounds the result shows for the position and keeps every entry sound |
| EndgameSearch.MoveFacts | src/com/welty/novello/solver/Solver.java:253-259 | a legal move on an empty square gives a disjoint child with one empty fewer, worth minus the child's perfect-play value |
| EndgameSearch.ListMove | src/com/welty/novello/solver/Solver.java:255-258 | the removed listed node is an empty square, and the rest of the list lists the child's empties |
| EndgameSearch.ListedMoves | src/com/welty/novello/solver/Solver.java:246-273 | trying every listed square tries every legal move |
| EndgameSearch.SearchStart | src/com/welty/novello/solver/Solver.java:242 | a move loop starts with result NO_MOVE and nothing visited |
| EndgameSearch.SearchStep | src/com/welty/novello/solver/Solver.java:261-269 | one step of the loop update either cuts off with a fail-soft result or keeps the loop invariant with the raised alpha |
| EndgameSearch.SearchCutoff | src/com/welty/novello/solver/Solver.java:264-265 | returning at `subResult >= beta` gives a fail-soft result for the mover, worth that move |
| EndgameSearch.SearchContinue | src/com/welty/novello/solver/Solver.java:261-268 | an update that does not cut off keeps the loop invariant |
| EndgameSearch.SearchFinish | src/com/welty/novello/solver/Solver.java:275 | once every legal move is visited, the result is fail-soft for the mover's value and NO_MOVE exactly without a move; the best move is legal and worth the result |
| EndgameSearch.BestBracketed | src/com/welty/novello/solver/Solver.java:369-371 | once a move is visited, the recorded best move is legal and its value bracketed as the result |
| EndgameSearch.SearchFinishSome | src/com/welty/novello/solver/Solver.java:385 | a loop that visited a move and all legal moves ends with a mover result |
| EndgameSearch.PassValue | src/com/welty/novello/solver/Solver.java:208-225 | combining the mover's result, the enemy's negated result after a pass, and `terminalScore` when neither moves, gives a fail-soft result for the position's value |
| EndgameSearch.NullWindowSearch | src/com/welty/novello/solver/Solver.java:347-363 | a null-window search (alpha, alpha+1), re-searched with (subResult, beta) only when it lands strictly inside (alpha, beta), is fail-soft for (alpha, beta) |
| Solvers.ShortList | src/com/welty/novello/solver/Solver.java:167-172 | with one or two empties, the list's first nodes are exactly those squares |
| Solvers.OneEmptyValue | src/com/welty/novello/solver/Solver.java:540-557 | with one empty: `2*popcount(mover\|flips) - 62` if the mover can play it, `62 - 2*popcount(enemy\|flips)` if only the enemy can, `2*popcount(mover) - 63` otherwise, each the perfect-play value |
| Solvers.OneEmptyMover | src/com/welty/novello/solver/Solver.java:543-548 | the mover plays the last square: the value is `2*popcount(mover\|flips) - 62` |
| Solvers.OneEmptyEnemy | src/com/welty/novello/solver/Solver.java:549-554 | only the enemy plays it: the value is `62 - 2*popcount(enemy\|flips)` |
| Solvers.OneEmptyNeither | src/com/welty/novello/solver/Solver.java:555-556 | neither plays it: the value is `2*popcount(mover) - 63`, the empty square going to no one |
| Solvers.NoOtherMove | src/com/welty/novello/solver/Solver.java:549 | with one empty that the mover cannot play, the mover has no legal move |
| Solvers.OnlyMove | src/com/welty/novello/solver/Solver.java:543-548 | with one empty that the mover can play, that is the only legal move and its value is the play's final differential |
| Solvers.TwoEmptiesMoverValue | src/com/welty/novello/solver/Solver.java:503-529 | with two empties the mover's value is the better of the legal ones among them, or NO_MOVE |
| Solvers.LastTwoChild | src/com/welty/novello/solver/Solver.java:505-522 | playing one of two empties leaves a disjoint child with the other one empty, worth minus its value |
| Solvers.CutoffIsFailSoft | src/com/welty/novello/solver/Solver.java:510-515 | a result that is exact, or between beta and the value, is fail-soft |
| Solvers.FullWindowBest | src/com/welty/novello/solver/Solver.java:118-121 | a full-window (-64, 64) search with a legal move has `iBestMove >= 0`, and that move's value is the position's value |
| Solvers.ListedCovered | src/com/welty/novello/solver/Solver.java:333-338 | a sorter that took every listed legal square in movesToCheck holds every legal move in movesToCheck |
| Solvers.AllVisited | src/com/welty/novello/solver/Solver.java:340-384 | a loop over all sorter moves visited each of their squares |
| Solvers.Solver.constructor | src/com/welty/novello/solver/Solver.java:79-87 | a new solver starts with an empty hash table and the given move-ordering masks and scoring |
| Solvers.Solver.Clear | src/com/welty/novello/solver/Solver.java:566-568 | `clear` empties the hash table |
| Solvers.Solver.Solve | src/com/welty/novello/solver/Solver.java:94-98 | `solve(mover, enemy)` returns the perfect-play value |
| Solvers.Solver.SolveWithMove | src/com/welty/novello/solver/Solver.java:109-122 | fails (IllegalArgumentException) exactly when the mover has no legal move; otherwise returns the value and a legal move attaining it |
| Solvers.Solver.SolveWindow | src/com/welty/novello/solver/Solver.java:162-178 | the windowed `solve` is fail-soft for the perfect-play value and leaves the empties list as it found it |
| Solvers.Solver.SolveDeep | src/com/welty/novello/solver/Solver.java:208-225 | fail-soft for the value, with pass and terminal handling, and the list restored |
| Solvers.Solver.MoverResultDeep | src/com/welty/novello/solver/Solver.java:232-239 | a mover result: fail-soft for the mover's value, NO_MOVE exactly without a legal move, list restored |
| Solvers.Solver.MoverResultNoSort | src/com/welty/novello/solver/Solver.java:241-276 | the two parity passes over the list give a mover result and restore the list |
| Solvers.Solver.NoSortPass | src/com/welty/novello/solver/Solver.java:246-273 | one parity pass either cuts off with a mover result or extends the loop invariant to all squares of that parity |
| Solvers.Solver.NoSortMove | src/com/welty/novello/solver/Solver.java:253-260 | for a listed square, a result exactly when the move is legal, fail-soft for its value, with the node restored |
| Solvers.Solver.MoverResultWithHash | src/com/welty/novello/solver/Solver.java:278-318 | the hash rule plus the sorted search give a mover result; the store uses the original window |
| Solvers.Solver.CreateSorter | src/com/welty/novello/solver/Solver.java:333-338 | the sorter holds, in non-increasing score order, one record per legal move in movesToCheck, with that move's flips and node |
| Solvers.Solver.SorterCandidate | src/com/welty/novello/solver/Solver.java:333-338 | a listed square gives a record exactly when it is legal, scored by the ordering function |
| Solvers.Solver.MoverResultWithSorting | src/com/welty/novello/solver/Solver.java:327-388 | a mover result, with `iBestMove == -1` exactly when the score is NO_MOVE, and otherwise a legal best move bracketed as the score |
| Solvers.Solver.SearchSorted | src/com/welty/novello/solver/Solver.java:340-387 | the loop over sorted moves gives that result and best-move index and restores the list |
| Solvers.Solver.SortedMove | src/com/welty/novello/solver/Solver.java:341-368 | one sorted move, with or without the negascout re-search, is fail-soft for its value and restores its node |
| Solvers.Solver.SolveNoParity | src/com/welty/novello/solver/Solver.java:390-406 | fail-soft for the value below `MIN_PARITY_DEPTH` empties, list restored |
| Solvers.Solver.MoverResultNoParity | src/com/welty/novello/solver/Solver.java:413-436 | a mover result from one pass over the list, list restored |
| Solvers.Solver.NoParityMove | src/com/welty/novello/solver/Solver.java:418-424 | a result exactly for a legal listed square, fail-soft for its value, node restored |
| Solvers.Solver.Solve3 | src/com/welty/novello/solver/Solver.java:438-451 | with three empties, fail-soft for the value, list restored |
| Solvers.Solver.MoverResult3 | src/com/welty/novello/solver/Solver.java:458-481 | with three empties, a mover result, list restored |
| Solvers.Solver.Move3 | src/com/welty/novello/solver/Solver.java:462-468 | one of the three moves: a fail-soft result exactly when legal, node restored |
| Solvers.Solver.Solve2 | src/com/welty/novello/solver/Solver.java:483-496 | with two empties, fail-soft for the value |
| Solvers.Solver.MoverResult2 | src/com/welty/novello/solver/Solver.java:503-529 | with two empties, the mover's value or a beta cutoff below it, NO_MOVE exactly without a legal move |
| Solvers.Solver.Solve1 | src/com/welty/novello/solver/Solver.java:540-557 | with one empty, exactly the perfect-play value |
| MoveSorters.InsertPos | test/com/welty/novello/solver/MoveSorterTest.java:38-53 | the insertion point lies within the buffer |
| MoveSorters.InsertPosSpec | test/com/welty/novello/solver/MoveSorterTest.java:47-53 | every record after the insertion point scores lower, and the one before it scores at least as much |
| MoveSorters.InsertPosAt | test/com/welty/novello/solver/MoveSorterTest.java:47-53 | the insertion point is the only place with that property |
| MoveSorters.InsertedIsPermutation | test/com/welty/novello/solver/MoveSorterTest.java:59-64 | an insert grows the buffer by one and holds the old records plus the new one, nothing lost or duplicated |
| MoveSorters.InsertedElements | test/com/welty/novello/solver/MoveSorterTest.java:59-64 | the records after an insert are exactly the old ones and the inserted one |
| MoveSorters.InsertedSorted | test/com/welty/novello/solver/MoveSorterTest.java:38-45 | insertion keeps the buffer in non-increasing score order |
| MoveSorters.InsertedAfterTies | test/com/welty/novello/solver/MoveSorterTest.java:47-53 | the new record sits after every record of equal or higher score and before every lower one |
| MoveSorters.MoveSorter.constructor | src/com/welty/novello/solver/Solver.java:83 | a new sorter is an empty buffer of 64 records |
| MoveSorters.MoveSorter.OpenGap | test/com/welty/novello/solver/MoveSorterTest.java:38-53 | the shift loop moves the lower-scoring records one slot up and opens the gap at the insertion point |
| MoveSorters.MoveSorter.Insert | test/com/welty/novello/solver/MoveSorterTest.java:30-53 | `insert` grows size by one and leaves the buffer as the sorted insertion of the new record |
| MoveSorters.InsertTestSequence | test/com/welty/novello/solver/MoveSorterTest.java:30-53 | the test's six inserts with scores 10, 11, 8, 9, 8, 11 give the orders the test asserts, ties placed after |
| MoveSorters.ReplayInsertTest | test/com/welty/novello/solver/MoveSorterTest.java:26-54 | replaying the test: the first record has exactly the given sq, score, flips and enemyMoves; sizes run 1 to 6; final squares 34, 38, 33, 36, 35, 37 |
| MoveSorters.SquaresOfTest | test/com/welty/novello/solver/MoveSorterTest.java:59-64 | `checkSquares` reads the records' squares in buffer order |
| JavaInts.Int32 | src/com/welty/novello/core/MoveScore.java:43-47 | Java `int` arithmetic: the result is in the 32-bit range |
| JavaInts.Int32Wraps | src/com/welty/novello/core/MoveScore.java:43-47 | the result differs from the mathematical value by a multiple of 2^32 |
| JavaInts.Int32InRange | src/com/welty/novello/core/MoveScore.java:43-47 | a value already in range is unchanged |
| MoveScores.EqualsIsValueEquality | src/com/welty/novello/core/MoveScore.java:32-40 | `equals` is true exactly when the other object is a MoveScore with the same sq and score |
| MoveScores.EqualsReflexive | src/com/welty/novello/core/MoveScore.java:33 | a MoveScore equals itself, the same reference or not |
| MoveScores.EqualsSymmetric | src/com/welty/novello/core/MoveScore.java:38 | `a.equals(b) == b.equals(a)` |
| MoveScores.EqualsNotOther | src/com/welty/novello/core/MoveScore.java:34 | `equals(null)` and an object of another class are false |
| MoveScores.HashCode | src/com/welty/novello/core/MoveScore.java:43-47 | `hashCode` is a Java `int` |
| MoveScores.EqualsHashCode | src/com/welty/novello/core/MoveScore.java:32-47 | equal MoveScores have equal hash codes |
| MoveScores.HashCodeNoWrap | src/com/welty/novello/core/MoveScore.java:43-47 | for a square and a score that do not overflow, `hashCode = 31*sq + score` |
| MidgameCommon.SolverAlphaSpec | src/com/welty/novello/solver/MidgameSearcher.java:483-490 | `solverAlpha(a)` is -64 below -LIMIT and `floor(a/DISK_VALUE)` otherwise, so `solverAlpha(a)*DISK_VALUE <= a`; always in [-64, 64] |
| MidgameCommon.SolverBetaSpec | src/com/welty/novello/solver/MidgameSearcher.java:474-481 | `solverBeta(b)` is 64 above LIMIT and `ceil(b/DISK_VALUE)` otherwise, so `solverBeta(b)*DISK_VALUE >= b`; always in [-64, 64] |
| MidgameCommon.SolverWindowSound | src/com/welty/novello/solver/MidgameSearch.java:330-346 | a disc result fail-soft for the converted window is, in centi-discs, fail-soft for the original window: the window never shrinks |
| MidgameCommon.SortIndexSquare | src/com/welty/novello/solver/MidgameSearcher.java:354-360 | `(-value*256 + sq) & 0xFF == sq` |
| MidgameCommon.SortIndexOrder | src/com/welty/novello/solver/MidgameSearcher.java:354-357 | a smaller sort index means a higher value, or the same value and a lower square; equal indices mean the same pair |
| MidgameCommon.LowBytes | src/com/welty/novello/solver/MidgameSearcher.java:360 | the squares read off the sorted indices, one per index |
| MidgameCommon.InsertIntMultiset | src/com/welty/novello/solver/MidgameSearcher.java:357 | an insertion step of the sort keeps the multiset |
| MidgameCommon.InsertIntSorted | src/com/welty/novello/solver/MidgameSearcher.java:357 | an insertion step of the sort keeps the order |
| MidgameCommon.InsertIntBytes | src/com/welty/novello/solver/MidgameSearcher.java:357 | an insertion step keeps the set of squares, and keeps them distinct |
| MidgameCommon.SortIntsSpec | src/com/welty/novello/solver/MidgameSearcher.java:357 | `Arrays.sort` leaves the keys ascending, a permutation, with the same distinct squares |
| MidgameCommon.SortArray | src/com/welty/novello/solver/MidgameSearcher.java:357 | sorting the array in place leaves exactly the sorted keys |
| MidgameCommon.SortedKeysOrder | src/com/welty/novello/solver/MidgameSearcher.java:357-360 | after the ascending sort, moves come by descending value, ties by ascending square |
| MidgameCommon.OrderMasksPartition | src/com/welty/novello/solver/MidgameSearcher.java:246 | corners, the other non-X squares and the X-squares partition the board |
| MidgameCommon.UnsortedOrderSpec | src/com/welty/novello/solver/MidgameSearch.java:246-265 | the masked loops visit each move exactly once and nothing else |
| MidgameCommon.KeysRev | src/com/welty/novello/solver/MidgameSearcher.java:348-356 | the filled array has one key per move |
| MidgameCommon.KeysRevAt | src/com/welty/novello/solver/MidgameSearcher.java:355 | the k-th popped move's key lands at slot `bitCount(remaining)`, counting from the end |
| MidgameCommon.KeysRevSpec | src/com/welty/novello/solver/MidgameSearcher.java:348-356 | every popped move's key lands in its own slot: each slot filled exactly once |
| MidgameCommon.KeysRevLow | src/com/welty/novello/solver/MidgameSearcher.java:354-355 | the low byte of each slot is the square whose key was put there |
| MidgameCommon.KeysRevKeys | src/com/welty/novello/solver/MidgameSearcher.java:354 | every key is a move's `-value*256 + sq` |
| MidgameCommon.InAll | src/com/welty/novello/solver/MidgameSearcher.java:349-350 | every listed move is a board square |
| MidgameCommon.KeysRevBytes | src/com/welty/novello/solver/MidgameSearcher.java:348-360 | the keys name each move exactly once |
| MidgameCommon.VisitOrderSpec | src/com/welty/novello/solver/MidgameSearcher.java:345-396 | both visit orders, sorted from depth 5 and masked below, list each move exactly once |
| MidgameCommon.SortedVisitOrder | src/com/welty/novello/solver/MidgameSearcher.java:346-372 | from depth 5, moves are visited by descending shallow value, ties by ascending square |
| MidgameCommon.OrderedEmptiesPrefix | src/com/welty/novello/solver/MidgameSearcher.java:374-392 | the moves of the first masks are a prefix of the whole masked order |
| MidgameCommon.MaskSlice | src/com/welty/novello/solver/MidgameSearcher.java:374-379 | the moves of one mask, ascending, follow those of the earlier masks |
| MidgameCommon.SuggestedOrder | src/com/welty/novello/solver/MidgameSearcher.java:325-339 | the suggested move, then the others with it cleared from moverMoves: no square is searched twice |
| MidgameCommon.DefaultOptions | src/com/welty/novello/solver/MidgameSearcher.java:577-591 | `new Options("")` turns MPC and the variable endgame on and the other flags off |
| MidgameCommon.BA.constructor | src/com/welty/novello/solver/BA.java:24-25 | a fresh BA has `bestMove == -1` and `score == NO_MOVE` |
| MidgameCommon.ValidBA | src/com/welty/novello/solver/BA.java:27-29 | `isValid(alpha)` holds exactly when `score <= alpha` or `bestMove >= 0`; any BA with a move is valid; a fresh BA is valid for every alpha at or above NO_MOVE |
| MidgameCommon.StepsAppend | src/com/welty/novello/solver/MidgameSearcher.java:359-372 | one more move extends the loop state by one BA update, and the loop has run once it cuts off or all moves are done |
| MidgameCommon.RanEmpty | src/com/welty/novello/solver/MidgameSearcher.java:345-396 | a loop over no moves has run |
| MidgameCommon.StepsPrefix | src/com/welty/novello/solver/MidgameSearcher.java:359-372 | the state after k moves depends only on the first k moves |
| MidgameCommon.StepsCons | src/com/welty/novello/solver/MidgameSearcher.java:325-339 | searching the suggestion first, then the rest, is one loop over the longer list |
| MidgameCommon.RanCons | src/com/welty/novello/solver/MidgameSearcher.java:325-339 | a suggestion that does not cut off, followed by a loop that ran, is a loop that ran |
| MidgameCommon.CutFreeRan | src/com/welty/novello/solver/MidgameSearcher.java:395 | a loop over all moves without cutoff has run |
| MidgameCommon.StepsMove | src/com/welty/novello/solver/MidgameSearcher.java:365 | the loop's best move is the starting one or a searched square |
| MidgameCommon.AllFitAppend | src/com/welty/novello/solver/MidgameSearcher.java:361 | each searched move's score keeps what the sub-search promises, with the window reached at that point |
| MidgameCommon.AllFitCons | src/com/welty/novello/solver/MidgameSearcher.java:327 | the same for the suggestion searched first |
| MidgameCommon.StepsSpec | src/com/welty/novello/solver/MidgameSearcher.java:359-372 | the score is the maximum of the sub-scores, alpha its maximum with the starting alpha, and the best move is a square whose score raised alpha |
| MidgameCommon.RanValid | src/com/welty/novello/solver/MidgameSearcher.java:289 | from a fresh BA, the loop ends with `score <= alpha` or a best move: `isValid(alpha)` |
| MidgameCommon.RanCutoff | src/com/welty/novello/solver/MidgameSearcher.java:367-369 | a loop that ran but stopped early stopped at a score at or above beta |
| MidgameCommon.MaxOfSpec | src/com/welty/novello/solver/MidgameSearcher.java:359-372 | the best of the move values is at least each and attained by one |
| MidgameCommon.SearchedSoftAppend | src/com/welty/novello/solver/MidgameSearcher.java:361 | the sub-scores so far each being fail-soft for their move's value extends by one move |
| MidgameCommon.BracketStep | src/com/welty/novello/solver/MidgameSearcher.java:362-371 | a non-cutting update keeps the fail-soft bracket on the best value seen so far |
| MidgameCommon.CutFreeBracketed | src/com/welty/novello/solver/MidgameSearcher.java:359-372 | a cut-free run of fail-soft sub-scores keeps that bracket |
| MidgameCommon.LoopFailSoft | src/com/welty/novello/solver/MidgameSearcher.java:345-396 | a loop over the moves, given fail-soft sub-scores, returns a score fail-soft for the best of the moves' values |
| MidgameCommon.LastCuts | src/com/welty/novello/solver/MidgameSearcher.java:367-369 | a cutoff on the last fail-soft sub-score is fail-soft for the best value |
| MidgameCommon.BracketedFailSoft | src/com/welty/novello/solver/MidgameSearcher.java:395 | a loop that ends with the bracket kept has a fail-soft score |
| MidgameHash.StoredEntryBounds | src/com/welty/novello/solver/MidgameSearcher.java:287 | storing a fail-soft score with the original window records bounds that hold for the value; an exact entry is the value |
| MidgameHash.EntryCutoffs | src/com/welty/novello/solver/MidgameSearcher.java:270-283 | min reaching beta, max at most alpha, or exact bounds, each is a fail-soft result for the value |
| MidgameHash.MidgameTable.constructor | src/com/welty/novello/solver/MidgameSearcher.java:64-87 | the searcher's tables start empty |
| MidgameHash.MidgameTable.Clear | src/com/welty/novello/solver/MidgameSearcher.java:214-216 | `clear` empties the tables |
| MidgameHash.MidgameTable.Find | src/com/welty/novello/solver/MidgameSearcher.java:269 | `find` returns the position's entry or null; the entry's move is none or legal |
| MidgameHash.MidgameTable.Store | src/com/welty/novello/solver/MidgameSearcher.java:287 | `store` records the bounds the score shows with the original window, with the depth and move |
| MidgameHash.WidthTables.constructor | src/com/welty/novello/solver/MidgameSearch.java:70-81 | the shared tables start empty |
| MidgameHash.WidthTables.CheckForHashCutoff | src/com/welty/novello/solver/MidgameSearch.java:107-110 | a cutoff exactly when this width's entry is deep enough and min reaches beta or max is at most alpha; it returns the entry's move and that bound |
| MidgameHash.WidthTables.GetSuggestedMove | src/com/welty/novello/solver/MidgameSearch.java:124 | the move of some width's entry for the position, or -1 exactly when none has a move |
| MidgameHash.WidthTables.Store | src/com/welty/novello/solver/MidgameSearch.java:114 | `store` records bounds, depth and move under this width |
| Midgame.ProbeUndecided | src/com/welty/novello/solver/MidgameSearcher.java:521-549 | a probe that decides nothing extends the undecided probes, and a depth-0 cutter's probe is the eval |
| Midgame.ProbeDecided | src/com/welty/novello/solver/MidgameSearcher.java:528-546 | a probe that decides ends the cutters' loop with its decision |
| Midgame.ProbesRanFirst | src/com/welty/novello/solver/MidgameSearcher.java:521-549 | the cutters' loop's outcome is the first decision among its probe scores, cutter by cutter, and it decides nothing exactly when no probe decides |
| Midgame.VisitLegal | src/com/welty/novello/solver/MidgameSearcher.java:345-396 | the visit order of legal moves lists legal moves only |
| Midgame.AllLegalCons | src/com/welty/novello/solver/MidgameSearcher.java:325-339 | a legal suggestion before legal moves is a list of legal moves |
| Midgame.StepsMoveFits | src/com/welty/novello/solver/MidgameSearcher.java:365 | the loop's best move is none or legal |
| Midgame.ListLegal | src/com/welty/novello/solver/MidgameSearcher.java:349-350 | popping the bits of legal moves lists legal moves |
| Midgame.MidgameSearcher.constructor | src/com/welty/novello/solver/MidgameSearcher.java:64-87 | a searcher with its options, evaluation, cutters and shallow solver, and empty tables |
| Midgame.MidgameSearcher.PassFits | src/com/welty/novello/solver/MidgameSearcher.java:441-445 | after a pass, the negated enemy score with the window (-beta, -alpha) is what `searchScore` promises |
| Midgame.MidgameSearcher.ChildFits | src/com/welty/novello/solver/MidgameSearcher.java:406-411 | a child's `searchScore` for (-beta, -alpha), negated, is the move's score; at depth 1 it is the ordering value |
| Midgame.MidgameSearcher.GoingThenRest | src/com/welty/novello/solver/MidgameSearcher.java:325-339 | the suggestion searched first without a cutoff, followed by the loop over the other moves, is one loop over both, ending in the state the other loop leaves |
| Midgame.MidgameSearcher.ShallowKeysRev | src/com/welty/novello/solver/MidgameSearcher.java:349-356 | the keys the fill loop writes are the reversed per-move sort keys |
| Midgame.MidgameSearcher.ShallowKeyAt | src/com/welty/novello/solver/MidgameSearcher.java:353-355 | the k-th move's key is `-value*256 + sq` for its depth-1 value |
| Midgame.MidgameSearcher.ShallowKeys | src/com/welty/novello/solver/MidgameSearcher.java:348 | one key per move |
| Midgame.MidgameSearcher.SubFitApply | src/com/welty/novello/solver/MidgameSearcher.java:361 | each searched move keeps the sub-search promise |
| Midgame.MidgameSearcher.GoingDone | src/com/welty/novello/solver/MidgameSearcher.java:395 | a loop without cutoff over all moves is done with the state's move and score |
| Midgame.MidgameSearcher.OrderLegal | src/com/welty/novello/solver/MidgameSearcher.java:311-319 | the order `treeMoveWithPossibleSuggestion` searches lists legal moves only |
| Midgame.MidgameSearcher.SortedLegal | src/com/welty/novello/solver/MidgameSearcher.java:357-360 | the squares read off the sorted keys are the sorted visit order, all legal |
| Midgame.MidgameSearcher.Clear | src/com/welty/novello/solver/MidgameSearcher.java:214-216 | `clear` empties the tables |
| Midgame.MidgameSearcher.GetMoveScore | src/com/welty/novello/solver/MidgameSearcher.java:109-142 | fails when `moverMoves == 0`; otherwise sets rootDepth and the abort check and searches the window (NO_MOVE, -NO_MOVE); a hash cutoff returns the entry's move and bound; otherwise the full-window move loop over the suggestion order ran, the score is the best of NO_MOVE and the sub-scores, and a score above NO_MOVE is the returned (legal) move's sub-score; never aborts at depth 8 or below |
| Midgame.RootBest | src/com/welty/novello/solver/MidgameSearcher.java:139-141 | the root loop from (NO_MOVE, NO_MOVE) returns the best of NO_MOVE and the sub-scores, and a score above NO_MOVE belongs to the move it returns |
| Midgame.MidgameSearcher.GetMoveScoreNever | src/com/welty/novello/solver/MidgameSearcher.java:109-116 | with `AbortCheck.NEVER`, always a result with none or a legal move when there is a move |
| Midgame.MidgameSearcher.CalcScore | src/com/welty/novello/solver/MidgameSearcher.java:157-176 | sets rootDepth and the abort check; the score is what `searchScore` promises, the static score at depth 0 |
| Midgame.MidgameSearcher.CalcScoreNever | src/com/welty/novello/solver/MidgameSearcher.java:188-212 | `calcScore(position, depth)`: the full-window `searchScore` promise |
| Midgame.MidgameSearcher.CalcSubMoveScore | src/com/welty/novello/solver/MidgameSearcher.java:230-235 | the move's score is minus the child's `calcScore` |
| Midgame.MidgameSearcher.SearchScore | src/com/welty/novello/solver/MidgameSearcher.java:433-450 | at depth 8 and more, an abort poll that fires aborts before any search; otherwise the score is `treeScore` for the mover, or after a pass, or `DISK_VALUE*terminalScore` |
| Midgame.MidgameSearcher.SearchMoves | src/com/welty/novello/solver/MidgameSearcher.java:437-449 | the move part of `searchScore` keeps the promise and polls nothing |
| Midgame.MidgameSearcher.PassOrEnd | src/com/welty/novello/solver/MidgameSearcher.java:441-448 | without a mover move: the negated enemy `treeScore` with (-beta, -alpha), or `DISK_VALUE*(popcount(mover) - popcount(enemy))` |
| Midgame.MidgameSearcher.TreeScore | src/com/welty/novello/solver/MidgameSearcher.java:455-472 | the eval at depth 0 and below, the shallow solver with the converted window near the end; otherwise a hash cutoff (exactly when the table cuts off) returns the entry's bound, with MPC from depth 2 the cutters' probe scores decide as in `mpcMove`, a decision giving beta or alpha, and otherwise the score is the move loop's over the suggestion order |
| Midgame.MidgameSearcher.HashMove | src/com/welty/novello/solver/MidgameSearcher.java:264-291 | a deep enough entry with min at least beta returns min, one with max at most alpha returns max; otherwise the search's result is stored with the original window and is `isValid(alpha)` |
| Midgame.MidgameSearcher.GetSuggestedMove | src/com/welty/novello/solver/MidgameSearcher.java:296-306 | the entry's move when it has one; -1 at depth 2 and below; otherwise the move of `hashMove` at depth 2 (deeper than 3) or 1: the cutoff entry's move, or the best move of that loop over the suggestion order |
| Midgame.MidgameSearcher.TreeMoveWithPossibleSuggestion | src/com/welty/novello/solver/MidgameSearcher.java:311-319 | searches the suggestion first when there is one, else the plain order; the result is `isValid(alpha)` |
| Midgame.MidgameSearcher.TreeMoveWithSuggestion | src/com/welty/novello/solver/MidgameSearcher.java:325-340 | the suggestion is searched first and cleared from moverMoves, then the other moves |
| Midgame.MidgameSearcher.TreeMoveNoSuggestion | src/com/welty/novello/solver/MidgameSearcher.java:345-396 | the BA after the loop is the loop state over the visit order: sorted from depth 5, masked below |
| Midgame.MidgameSearcher.SortMoves | src/com/welty/novello/solver/MidgameSearcher.java:348-357 | the filled and sorted array is exactly the sorted per-move keys |
| Midgame.MidgameSearcher.SortKey | src/com/welty/novello/solver/MidgameSearcher.java:350-355 | one iteration's key is the popped move's `-value*256 + sq` |
| Midgame.MidgameSearcher.TreeMoveSorted | src/com/welty/novello/solver/MidgameSearcher.java:359-372 | the loop over the sorted squares ends in the loop state over them |
| Midgame.MidgameSearcher.TreeMoveUnsorted | src/com/welty/novello/solver/MidgameSearcher.java:374-392 | below depth 5 the masked loop ends in the loop state over corners, other squares, then X-squares |
| Midgame.MidgameSearcher.MaskLoop | src/com/welty/novello/solver/MidgameSearcher.java:374-392 | the loop over masks ends in the loop state over their moves, each mask ascending |
| Midgame.MidgameSearcher.SearchList | src/com/welty/novello/solver/MidgameSearcher.java:376-391 | the loop over one list cuts off done, or extends the loop state by every listed move |
| Midgame.MidgameSearcher.SearchMove | src/com/welty/novello/solver/MidgameSearcher.java:361-371 | one move's update of the BA and alpha, ending the loop exactly on a cutoff |
| Midgame.MidgameSearcher.Play | src/com/welty/novello/solver/MidgameSearcher.java:407-410 | the child is `enemy & ~flips` and `mover \| flips \| placement`, and stays disjoint |
| Midgame.MidgameSearcher.CalcMoveScore | src/com/welty/novello/solver/MidgameSearcher.java:406-420 | minus the child's `searchScore` for (-beta, -alpha) at depth - 1; at depth 1 the move's static value |
| Midgame.MidgameSearcher.MpcMove | src/com/welty/novello/solver/MidgameSearcher.java:500-557 | a hash cutoff (including exact entries) returns the entry's bound; otherwise the probe scores, in cutter order, decide nothing until the last: at or above its shallowBeta it gives exactly beta, at or below its shallowAlpha exactly alpha; a cutter of depth 0 or less probes with the eval; only when every cutter probed without deciding are the moves searched, and the BA is the move loop's state over the suggestion order, stored and `isValid(alpha)` |
| Midgame.MidgameSearcher.MpcProbes | src/com/welty/novello/solver/MidgameSearcher.java:518-549 | the cutters' loop stops at the first probe that decides, and its outcome is that probe's decision: at or above the cutter's shallowBeta, beta (the BA's score exactly beta), at or below its shallowAlpha, alpha (exactly alpha); none after every cutter probed undecided; a cutter of depth 0 or less probes with the eval; the kept move stays none or a legal move; never aborts at depth 8 or below |
| Midgame.MidgameSearcher.ShallowProbe | src/com/welty/novello/solver/MidgameSearcher.java:537 | the deeper cutter's `mpcMove` keeps the searcher valid, gives none or a legal move, and never aborts at depth 8 or below |
| MidgameSearching.MidgameSearch.constructor | src/com/welty/novello/solver/MidgameSearch.java:70-81 | keeps its collaborators and sets `minBookCheckEmpties = nEmpty - 3` |
| MidgameSearching.MidgameSearch.PassFits | src/com/welty/novello/solver/MidgameSearch.java:320-323 | after a pass, the negated enemy `treeScore` is what `searchScore` promises |
| MidgameSearching.MidgameSearch.ChildFits | src/com/welty/novello/solver/MidgameSearch.java:276-290 | a child's `searchScore`, negated, is the move's score; at depth 1 the ordering value |
| MidgameSearching.MidgameSearch.GoingThenRest | src/com/welty/novello/solver/MidgameSearch.java:151-166 | the suggestion searched first without a cutoff, followed by the loop over the other moves, is one loop over both, ending in the state the other loop leaves |
| MidgameSearching.MidgameSearch.ShallowKeys | src/com/welty/novello/solver/MidgameSearch.java:189-202 | one key per move |
| MidgameSearching.MidgameSearch.ShallowKeysRev | src/com/welty/novello/solver/MidgameSearch.java:189-202 | the keys the fill loop writes are the reversed per-move sort keys |
| MidgameSearching.MidgameSearch.ShallowKeyAt | src/com/welty/novello/solver/MidgameSearch.java:189-202 | the k-th move's key is `-value*256 + sq` for its depth-1 value |
| MidgameSearching.MidgameSearch.SubFitApply | src/com/welty/novello/solver/MidgameSearch.java:229-244 | each searched move keeps the sub-search promise |
| MidgameSearching.MidgameSearch.GoingDone | src/com/welty/novello/solver/MidgameSearch.java:229-244 | a loop without cutoff over all moves is done |
| MidgameSearching.MidgameSearch.OrderLegal | src/com/welty/novello/solver/MidgameSearch.java:137-145 | the searched order lists legal moves only |
| MidgameSearching.MidgameSearch.SortedLegal | src/com/welty/novello/solver/MidgameSearch.java:172-187 | the squares read off the sorted keys are the sorted visit order, all legal |
| MidgameSearching.MidgameSearch.SearchScore | src/com/welty/novello/solver/MidgameSearch.java:303-328 | the abort poll (depth 8 and more) comes first; then book data at `minBookCheckEmpties` or more empties is returned as `score*DISK_VALUE` without searching; otherwise the `searchScore` promise |
| MidgameSearching.MidgameSearch.SearchMoves | src/com/welty/novello/solver/MidgameSearch.java:315-327 | the move part of `searchScore`: the mover's, the passed, or the terminal score |
| MidgameSearching.MidgameSearch.PassOrEnd | src/com/welty/novello/solver/MidgameSearch.java:319-327 | without a mover move, the negated enemy `treeScore` or the terminal score in centi-discs |
| MidgameSearching.MidgameSearch.TreeScore | src/com/welty/novello/solver/MidgameSearch.java:352-369 | the eval at depth 0 and below, the shallow solver near the end; otherwise this width's hash cutoff (exactly when it cuts off) returns its bound, with MPC from depth 2 the cutters' probe scores decide as in `mpcMove`, a decision giving beta or alpha, and otherwise the score is the move loop's over the suggestion order |
| MidgameSearching.MidgameSearch.HashMove | src/com/welty/novello/solver/MidgameSearch.java:102-118 | this width's cutoff returns its bound; otherwise the result is stored under this width with the original window and is `isValid(alpha)` |
| MidgameSearching.MidgameSearch.GetSuggestedMove | src/com/welty/novello/solver/MidgameSearch.java:123-132 | a table move for the position when any width has one; -1 at depth 2 and below; else the move of `hashMove` at depth 2 (deeper than 3) or 1: this width's cutoff entry's move, or the best move of that loop over the suggestion order |
| MidgameSearching.MidgameSearch.TreeMoveWithPossibleSuggestion | src/com/welty/novello/solver/MidgameSearch.java:137-145 | the suggestion first when there is one; forking only after a searched suggestion deeper than 14; `isValid(alpha)` |
| MidgameSearching.MidgameSearch.TreeMoveWithSuggestion | src/com/welty/novello/solver/MidgameSearch.java:151-167 | the suggestion searched first and cleared, then the others with `hasSearchedAMove` set |
| MidgameSearching.MidgameSearch.TreeMoveNoSuggestion | src/com/welty/novello/solver/MidgameSearch.java:172-187 | forks exactly when deeper than 14 after a searched move; either way the BA is the loop state over the visit order |
| MidgameSearching.MidgameSearch.SortMoves | src/com/welty/novello/solver/MidgameSearch.java:189-202 | the filled and sorted array is exactly the sorted per-move keys |
| MidgameSearching.MidgameSearch.SortKey | src/com/welty/novello/solver/MidgameSearch.java:192-199 | one iteration's key is the popped move's `-value*256 + sq` |
| MidgameSearching.MidgameSearch.TreeMoveSorted | src/com/welty/novello/solver/MidgameSearch.java:229-244 | the loop over sorted squares ends in the loop state over them |
| MidgameSearching.MidgameSearch.TreeMoveFork | src/com/welty/novello/solver/MidgameSearch.java:204-219 | the same contract as `treeMoveSorted`: the fork cannot change the result |
| MidgameSearching.MidgameSearch.TreeMoveUnsorted | src/com/welty/novello/solver/MidgameSearch.java:246-266 | below depth 5, the loop state over corners, other non-X squares, then X-squares |
| MidgameSearching.MidgameSearch.MaskLoop | src/com/welty/novello/solver/MidgameSearch.java:247-265 | the loop over masks ends in the loop state over their moves |
| MidgameSearching.MidgameSearch.SearchList | src/com/welty/novello/solver/MidgameSearch.java:249-264 | the loop over one list cuts off done, or extends the loop state by every listed move |
| MidgameSearching.MidgameSearch.SearchMove | src/com/welty/novello/solver/MidgameSearch.java:253-263 | one move's update, ending the loop exactly on a cutoff |
| MidgameSearching.MidgameSearch.CalcMoveScore | src/com/welty/novello/solver/MidgameSearch.java:276-290 | minus the child's `searchScore` for (-beta, -alpha) at depth - 1 |
| MidgameSearching.MidgameSearch.MpcMove | src/com/welty/novello/solver/MidgameSearch.java:379-428 | this width's hash cutoff returns its bound; otherwise the probe scores, in cutter order, decide nothing until the last: at or above its shallowBeta it gives exactly beta, at or below its shallowAlpha exactly alpha; a cutter of depth 0 or less probes with the eval, windows at this width; only when every cutter probed without deciding are the moves searched, and the BA is the move loop's state over the suggestion order, stored under this width and `isValid(alpha)` |
| MidgameSearching.MidgameSearch.MpcProbes | src/com/welty/novello/solver/MidgameSearch.java:389-419 | the cutters' loop, with this width's windows, stops at the first probe that decides, and its outcome is that probe's decision: at or above the cutter's shallowBeta, beta (the BA's score exactly beta), at or below its shallowAlpha, alpha (exactly alpha); none after every cutter probed undecided; a cutter of depth 0 or less probes with the eval; the kept move stays none or a legal move; never aborts at depth 8 or below |
| MidgameSearching.MidgameSearch.ShallowProbe | src/com/welty/novello/solver/MidgameSearch.java:408 | the deeper cutter's `mpcMove` keeps the search valid, gives none or a legal move, and never aborts at depth 8 or below |

## Left out

- Console output (`options.printSearch` and `indent`) is not modelled: it changes no result.
- The `ForkJoinPool` field and the `RecursiveSearch` class (a `RecursiveTask` stub) are not modelled: nothing is ever forked, and `treeMoveFork` runs the sorted loop itself.
- Principal-variation strings (`extractPv`, the `pv` of a `MoveScore`) are not modelled: they are text built from the table, so `CalcSubMoveScore` returns the square and the score only.
- Statistics are not modelled: `nodeCounts`, the table's `n*Cuts` and `nUselessFind` counters, `getCounts`, and the solver's `nodeType` hints, which only feed statistics.
- `MoveScore.toString` and the string constructor are not modelled: they are text formatting.
- `NovelloUtils.NO_MOVE`, whose value is not part of this model, is a parameter `noMove` of the midgame searchers. The solver's own `NO_MOVE` is -65.
- `DISK_VALUE` is fixed at 100. Its definition is not part of this model, and a score of 64 discs being `LIMIT = 6400` centi-discs implies it.
- The evaluation, the MPC cutters (`shallowAlpha`, `shallowBeta`, `shallowDepth`), `ShallowSolver.solveNoParity` and `Book.getData` are functions the searchers are built with. Their only assumption is that a cutter searches shallower than its caller (`CuttersShallower`, `WidthCuttersShallower`).
- The book lookup builds `new Board(mover, enemy, true)`. The model keys the book by (mover, enemy) and leaves out the side-to-move flag.
- Midgame.MidgameSearcher.SearchScore, MidgameSearching.MidgameSearch.SearchScore: scores are unbounded integers, and 32-bit overflow of alpha, beta and scores is not modelled. MoveScore's `hashCode` does model `int` wrap-around, through `Int32`.
- Midgame.MidgameSearcher.MpcProbes, MidgameSearching.MidgameSearch.MpcProbes, Midgame.MidgameSearcher.ShallowProbe, MidgameSearching.MidgameSearch.ShallowProbe: a deeper cutter's probe score is the score of its own `mpcMove` call, and the loop states nothing about that score beyond the decision it leads to; that call's outcome is stated by its own contract only.
- Midgame.MidgameSearcher.MpcMove, MidgameSearching.MidgameSearch.MpcMove: that a probe's cutoff stores nothing is stated only as its score being exactly beta or alpha. The deeper probe it runs may itself store, so the table is not stated unchanged.
- Midgame.MidgameSearcher.TreeScore, MidgameSearching.MidgameSearch.TreeScore: the sub-scores of the move loop are constrained by the children's `SearchFits`, which pins a child's score at the horizon, in the variable endgame, after a pass and at the end of the game. A child searched deeper is tied to its own hash, probe or loop outcome one level at a time, by that child's own call, because what it returns depends on the table's contents and on the probes.
- Solvers.Solver.Solve, Solvers.Solver.SolveWithMove: `FixedMoveOrdering.masks` is not part of this model. The masks are a constructor parameter, and that every empty square is searched once rests on the assumption `Partition(masks)`, that they partition the board.
- Midgame.MidgameSearcher.MpcMove, MidgameSearching.MidgameSearch.MpcMove, Midgame.MidgameSearcher.HashMove, MidgameSearching.MidgameSearch.HashMove: the midgame score is stated against the injected evaluation's tree (`TreeFits`, `SearchFits`, the loop state), not against a game value. The evaluation is arbitrary, so no bound beyond the loop state over the children's scores can be stated.
- MidgameHash.WidthTables.GetSuggestedMove: which width's move the tables return when several widths have one is the tables' choice and is left open.
- The hash tables' replacement policy, hashing and capacity are not modelled: a store overwrites the position's entry, and a find returns the last store.
- The loops that pop bits with `numberOfTrailingZeros` and `^=` are modelled as loops over the ascending list of the mask's squares (`SquareList`), which visits the same squares in the same order.
- The enhanced transposition cutoff of `createWithEtc` (at `MIN_ETC_DEPTH` empties) is folded into the injected ordering score. The sorter's content and order are the same for both creation paths; only the scores differ.
- The per-depth `moveSorters[]` and `treeSearchResults[]` arrays are replaced by a fresh `MoveSorter` per node and by out-parameters `score`/`iBestMove`. No two nodes at the same depth are live at once, so no data flows between them.
- `MoveSorter` itself is not part of this model. Its insertion is modelled from the behaviour `MoveSorterTest` asserts.
- `KindergartenUpDown`, `FlipperURDL` and `FlipperULDR` are not part of this model. Their flip sets are defined by the reference ray walk in their directions.
- `BitBoardUtils.fillLR` is not part of this model. It is defined by the reference single-row walk East and West.
- `BitBoardUtils.calcMoves` is modelled as the set of legal moves.
- `ListOfEmpties` is not part of this model. It is a sequence with add, remove and restore, whose contracts keep the order of the other nodes.
- The abort check is a function of how many polls came before, standing for `abortCheck.shouldAbort()`.
- The EvalStrategy evaluation, self-play, GUI, engine protocols, game-record formats and board reflections are outside the engine core and not modelled.
