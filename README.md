# hokito rules engine in Dafny

This project models the rules engine of hokito, a two-player stacking game on a 6×6 board
(`src/gameLogic.ts`), and proves properties of that model. Each player starts with eighteen
pieces worth 1, 2 or 3. A cell holds a stack of pieces, listed bottom to top, and belongs to the
owner of its top piece.

A whole stack moves. Its budget is the value of its top piece:

- stepping onto an empty cell is free;
- stepping onto an occupied cell costs one unit;
- a step never reverses the previous one;
- no turn is allowed while the whole budget is still unspent.

The stack lands where the budget reaches 0, on an occupied cell whose "single piece or stack"
status matches its own. It is placed on top of the stack found there. A player scores top value
× height for every cell they control.

Modules, in dependency order:

- `Types` (types.dfy): pieces, cells, positions, directions, and the 6×6 board as a value.
- `Accessors` (accessors.dfy): `isControlledBy`, `getTopValue`, `isInBounds` and `DIRECTIONS`, plus the multiset of the pieces on a board.
- `MoveSearch` (search.dfy): `exploreMoves` and `getLegalMoves`, as functions and as the loops the source writes.
- `MoveWalks` (walks.dfy): a declarative definition of legal walks; the search finds exactly their end cells.
- `MoveTermination` (termination.dfy): where the search is guaranteed to stop.
- `MoveCycles` (cycles.dfy): the search as a transition system, and why it need not stop.
- `Scenario` (scenario.dfy): a concrete board with a black 2 at (2,2) and white 1s at (2,4) and (0,2).
- `Rules` (rules.dfy): `executeMove`, `calculateScore`, `getWinner`, `canPlayerMove` and the turn toggle.
- `Setup` (setup.dfy): `initializeBoard`, with `createPieces` and the Fisher–Yates `shuffle`.

**The search as written.** The recursion of `exploreMoves` has no bound of its own.
`visitedPath` is only ever read at index 0 (src/gameLogic.ts:116). The comment at
src/gameLogic.ts:115 says a turn needs an occupied cell. The code only forbids turning while the
remaining budget equals the source's top value. So once one unit has been spent, a path may turn
on empty cells, which cost nothing, and circle forever.

The model follows the code, not the comment. `Explore` takes a `fuel` bound on the recursion
depth. Soundness and completeness of the search against the walk definition hold for every fuel;
the results for a source of top value 1 hold for every fuel of at least 5, the depth that a ray
of five cells needs. Termination is proved only where the code guarantees it, as a bound on chains of nested calls:
while the budget is unspent a chain is no longer than the ray it runs along
(`MoveCycles.UnspentCallsBounded`), and for a source whose top value is 1 every chain is at most
5 calls deep (`MoveCycles.TopValueOneCallsBounded`).

On the example board of module `Scenario`, three consequences are proved:

- (0,2) ends a legal walk of the black 2, so it is in `LegalMoves` for every fuel of at least 6. The path goes right onto (2,4), spending one unit, then up to the empty cell (0,4), where it turns left onto (0,2).
- (2,4) is not reached by going straight right. That ray spends only one unit, because (2,3) is free. (2,4) ends the detour through (0,2), so it too is in `LegalMoves` for every fuel of at least 6.
- The search returns to the same state around the empty square at (0,0) as often as one likes, so the source's recursion on that board does not end: `getLegalMoves` itself returns no list of moves there, and overflows the stack instead.

## Model

| member | source | states |
|---|---|---|
| Accessors.InBounds | src/gameLogic.ts:65-67 | `isInBounds`: the row and the column both lie in 0..5; how a step leaves the board is stated by `StepStaysOnBoard` |
| Accessors.IsControlledBy | src/gameLogic.ts:53-56 | `isControlledBy`: an empty cell belongs to nobody, otherwise to the colour of its top piece; `ControlIsExclusive` states that exactly one player controls each non-empty cell |
| Accessors.TopValue | src/gameLogic.ts:59-62 | `getTopValue`: None for an empty cell, otherwise the value of the top piece; `ControlIsExclusive` states that it is present exactly for non-empty cells |
| Accessors.ControlIsExclusive | src/gameLogic.ts:53-62 | a cell is controlled by some player exactly when it is non-empty, never by both, and has a top value exactly when non-empty |
| Accessors.DirectionsAreUnitSteps | src/gameLogic.ts:70-75 | each of the four entries of the constant `DIRECTIONS` (up, down, left, right, in that order) is a unit orthogonal step, is not its own opposite, and its reverse is also a direction |
| Accessors.StepStaysOnBoard | src/gameLogic.ts:65-67 | from a cell on the board, the next cell in a direction is on the board exactly when that ray has room, and the room shrinks by one per step |
| Accessors.UpdateCellPieces | src/gameLogic.ts:196-211 | replacing one cell's stack changes the board's multiset of pieces by exactly the pieces removed and added |
| MoveSearch.Accepts | src/gameLogic.ts:89-102 | the end-of-budget test: the cell is occupied and single exactly when the source is single; `ExploreAccepts` states that every result passes it |
| MoveSearch.BudgetUnspent | src/gameLogic.ts:116 | the turn restriction: the remaining budget equals the top value of the cell at the head of the visited path; `ExploreOnlyStraight` states its effect, that no turn is tried while it holds |
| MoveSearch.Explore | src/gameLogic.ts:78-158 | `exploreMoves` with a depth bound; specified by `ExploreFindsWalkEnds` (its results are exactly the ends of the legal walks within the fuel) and `ExploreAccepts`, and computed by the loop of `ExploreMoves` |
| MoveSearch.ExploreDirections | src/gameLogic.ts:105-157 | the loop over DIRECTIONS after `k` iterations: the concatenation of the first `k` direction steps, the invariant of `ExploreMoves`; `ExploreDirectionsMember` states its membership |
| MoveSearch.ExploreStep | src/gameLogic.ts:106-154 | one iteration of the loop; specified by `StepAccepts`, `StepSound` and `MoveCycles.AdvanceIsStep`, and computed by `ExploreDirection` |
| MoveSearch.ExploreAccepts | src/gameLogic.ts:78-158 | every position the search returns is on the board, occupied, and has the source's single/stack status |
| MoveSearch.StepAccepts | src/gameLogic.ts:106-154 | every position found by first stepping in one direction is on the board and accepts the source |
| MoveSearch.ExploreMoves | src/gameLogic.ts:78-158 | the loop over DIRECTIONS with its recursive calls computes exactly `Explore` |
| MoveSearch.ExploreDirection | src/gameLogic.ts:106-154 | one pass of the loop body, with its skips for a reversing step, a turn with the budget unspent and a step off the board, computes exactly that direction's share of the search |
| MoveSearch.Dedup | src/gameLogic.ts:180-190 | a position is kept exactly when it occurs in the input, is not `from` and was not seen; the kept positions are distinct |
| MoveSearch.LegalMoves | src/gameLogic.ts:161-193 | an empty source has no moves; every move is on the board, differs from `from`, is occupied, matches the source's single/stack status, and occurs once |
| MoveSearch.GetLegalMoves | src/gameLogic.ts:161-193 | the seeding call and the duplicate-removal loop with its set of seen keys compute exactly `LegalMoves` |
| MoveWalks.MayStep | src/gameLogic.ts:107-118 | the direction rule of the loop: a direction of DIRECTIONS, never the opposite of the last one, and the same as the last one while the budget is unspent; `WalkNeverReverses` and `StraightRun` state its consequences |
| MoveWalks.Spend | src/gameLogic.ts:129-153 | the budget after a step: unchanged onto an empty cell, one less onto an occupied one |
| MoveWalks.LegalWalk | src/gameLogic.ts:89-154 | the reference definition of a legal move path, step by step; `ExploreFindsWalkEnds` proves the search returns exactly the ends of these walks |
| MoveWalks.ExploreDirectionsMember | src/gameLogic.ts:105-157 | a position is in the loop's result after `k` iterations exactly when one of the first `k` direction steps finds it |
| MoveWalks.ExploreSound | src/gameLogic.ts:78-158 | each position the search returns is the end of a legal walk no longer than the fuel |
| MoveWalks.StepSound | src/gameLogic.ts:106-154 | each position found by first stepping in one direction ends a legal walk no longer than the fuel |
| MoveWalks.ExploreComplete | src/gameLogic.ts:78-158 | the end of every legal walk no longer than the fuel is returned by the search |
| MoveWalks.ExploreFindsWalkEnds | src/gameLogic.ts:78-158 | a position is in the search's result if and only if some legal walk within the fuel ends there |
| MoveWalks.LegalMovesAreWalkEnds | src/gameLogic.ts:161-193 | a position is a legal move if and only if it is not `from` and some legal walk of the source stack ends there |
| MoveWalks.LegalMovesGrowWithFuel | src/gameLogic.ts:78-158 | a legal move found with some fuel is still found with more fuel |
| MoveWalks.WalkNeverReverses | src/gameLogic.ts:108-113 | no step of a legal walk is opposite to the step before it, including the step that entered the starting cell |
| MoveWalks.Nearest | src/gameLogic.ts:122-142 | the nearest occupied cell along a ray is on the board, occupied, on that ray, and within the ray's room |
| MoveWalks.NearestIsNearest | src/gameLogic.ts:122-142 | `Nearest` is the nearest occupied cell: it lies `k` steps along the ray and every cell before it is on the board and empty; no result means the ray is empty up to the edge |
| MoveWalks.StraightRun | src/gameLogic.ts:116-142 | while nothing is spent a walk keeps its direction up to the nearest occupied cell along it, which must exist |
| MoveWalks.WalkStartsStraight | src/gameLogic.ts:106-142 | every legal walk of a stack begins with a straight run to the nearest occupied cell in its first direction |
| MoveTermination.ExploreHeadOnly | src/gameLogic.ts:116 | the search depends on the visited path only through its first element |
| MoveTermination.ExploreUnfold | src/gameLogic.ts:105-157 | with budget and fuel left, the search is the concatenation of the four direction steps in the order up, down, left, right |
| MoveTermination.ExploreStraight | src/gameLogic.ts:116-142 | with the budget unspent, the search runs along its ray to the nearest occupied cell and continues there with one unit spent; a ray with no occupied cell yields nothing |
| MoveTermination.ExploreOnlyStraight | src/gameLogic.ts:105-154 | while the budget is unspent, only the current direction is explored: the search is the search from the next cell, or nothing at the edge |
| MoveTermination.RayHit | src/gameLogic.ts:89-102 | the destination along a ray for a top value of 1 is at most one cell, lying on that ray |
| MoveTermination.TopValueOneStep | src/gameLogic.ts:132-153 | for top value 1 with at least 5 fuel, each direction contributes exactly its ray hit |
| MoveTermination.RayHitsAreKept | src/gameLogic.ts:180-190 | the four ray hits are distinct and differ from the source, so the duplicate filter keeps them all |
| MoveTermination.TopValueOneMoves | src/gameLogic.ts:89-153 | a source of top value 1 moves exactly onto the nearest occupied cell in each direction whose single/stack status matches, in direction order |
| MoveTermination.TopValueOneFuelSuffices | src/gameLogic.ts:78-193 | for a source of top value 1 the legal moves are the same for every fuel of at least 5 |
| MoveCycles.Advance | src/gameLogic.ts:106-154 | an allowed step moves one cell in its direction onto the board, records the direction, and never increases the budget |
| MoveCycles.AdvanceIsStep | src/gameLogic.ts:106-154 | one loop iteration makes exactly the recursive call that the step rule describes, and contributes nothing when the rule refuses the step |
| MoveCycles.WalkIsAdvance | src/gameLogic.ts:89-154 | a walk is legal if and only if all its steps are allowed and it ends with no budget on a cell that accepts the source |
| MoveCycles.ExploreReaches | src/gameLogic.ts:78-158 | if some steps lead from one state to another, everything the search finds from the second state, with the fuel left, is found from the first |
| MoveCycles.AdvanceAppend | src/gameLogic.ts:106-154 | taking two runs of steps one after the other is taking their concatenation |
| MoveCycles.FollowTrace | src/gameLogic.ts:106-154 | a list of states, each reached from the one before by the matching step, shows that the steps lead from the first state to the last |
| MoveCycles.CycleRepeats | src/gameLogic.ts:106-154 | a run of steps that returns to its starting state can be taken any number of times |
| MoveCycles.CycleReachedForever | src/gameLogic.ts:78-158 | steps that lead to a state from which a cycle of steps returns to it give calls of the search at every depth, and whatever such a call finds is found from the start |
| MoveCycles.AdvanceAll | src/gameLogic.ts:106-154 | a run of allowed steps ends on the board, at the cell the walk's steps lead to |
| MoveCycles.AdvanceAllSpends | src/gameLogic.ts:130-154 | a run of allowed steps never leaves more budget than it started with |
| MoveCycles.UnspentCallsBounded | src/gameLogic.ts:116-142 | while the budget of a source is unspent, every chain of nested calls keeps its direction and is no longer than the room left on that ray, so the straight phase ends |
| MoveCycles.LastUnitCallsBounded | src/gameLogic.ts:106-154 | with one unit of a top value of 1 left, a chain of nested calls goes straight and is no longer than the room left on its ray |
| MoveCycles.TopValueOneCallsBounded | src/gameLogic.ts:78-158 | for a source of top value 1 every chain of nested calls the rules allow is at most 5 deep, so the search terminates |
| Scenario.StraightRightSpendsOne | src/gameLogic.ts:129-153 | on the example board, going right twice from (2,2) reaches (2,4) with one unit left, so it is not a legal walk |
| Scenario.TurnedWalkReachesTopCell | src/gameLogic.ts:108-127 | on the example board, (0,2) ends a legal walk of the black 2, going right onto (2,4), up to the empty cell (0,4) and turning left there, so it is in `LegalMoves` for every fuel of at least 6 (the source's `getLegalMoves` does not return on this board) |
| Scenario.RoundaboutWalkReachesRightCell | src/gameLogic.ts:108-153 | on the example board, (2,4) ends a legal walk of the black 2, a detour through (0,2), so it is in `LegalMoves` for every fuel of at least 6 (the source's `getLegalMoves` does not return on this board) |
| Scenario.SearchNeverEnds | src/gameLogic.ts:106-155 | on the example board, for every k the recursion from (2,2) comes back to the corner state after 10 + 4k nested calls, and what the corner search finds is part of the result |
| Rules.Moved | src/gameLogic.ts:196-211 | after a move the source is empty; when source and destination differ, the destination holds its old stack with the source stack on top; every other cell is unchanged |
| Rules.ExecuteMove | src/gameLogic.ts:196-211 | copying the board, pushing the source stack onto the destination and emptying the source gives exactly `Moved` |
| Rules.MovePreservesPieces | src/gameLogic.ts:196-211 | a move between two different cells keeps the multiset of pieces on the board |
| Rules.SelfMoveLosesStack | src/gameLogic.ts:202-208 | a move of a stack onto its own cell empties the cell and removes exactly that stack's pieces from the board |
| Rules.LegalMovePreservesPieces | src/gameLogic.ts:161-211 | a move to a destination from `getLegalMoves` keeps every piece, makes the destination stack taller and empties the source |
| Rules.CellScore | src/gameLogic.ts:236-242 | the score of one cell is positive exactly when the player controls it, and at most 3 × its height |
| Rules.RowScore | src/gameLogic.ts:234-244 | the inner loop over the columns of a row, as a sum; `RowScoresPartition` states that the two colours' row scores add up to the row's weight |
| Rules.ScoreUpTo | src/gameLogic.ts:233-245 | the outer loop over the first rows, as a sum; `ScoresPartitionUpTo` states the same partition for those rows |
| Rules.Score | src/gameLogic.ts:230-247 | the score of a player over the whole board; `CalculateScore` computes it, `ScoresPartitionBoard` and `RecolouringSwapsTheWinner` state its properties |
| Rules.RowScoresPartition | src/gameLogic.ts:234-244 | over the first cells of a row, the black and the white scores add up to the row's weight |
| Rules.ScoresPartitionUpTo | src/gameLogic.ts:233-245 | over the first rows, the black and the white scores add up to their weight |
| Rules.CalculateScore | src/gameLogic.ts:230-247 | the nested loop with its accumulator computes the sum, over the cells the player controls, of top value × height |
| Rules.ScoresPartitionBoard | src/gameLogic.ts:230-247 | the two players' scores add up to the weight of the whole board: each non-empty cell counts for exactly one colour, an empty cell for none |
| Rules.GetWinner | src/gameLogic.ts:250-264 | both scores are reported; black wins exactly when its score is higher, white exactly when its score is higher, and the game is a draw exactly when they are equal |
| Rules.RecolouringSwapsTheWinner | src/gameLogic.ts:230-264 | exchanging the colours of all pieces exchanges the two scores, turns a win of either colour into a win of the other, and keeps a draw |
| Rules.CanPlayerMove | src/gameLogic.ts:214-227 | the scan answers true exactly when some cell the player controls has a non-empty list of legal moves |
| Rules.Opponent | src/App.tsx:91 | the turn passes to the other colour |
| Setup.CreatePieces | src/gameLogic.ts:10-19 | eighteen pieces of the colour, with values repeating 1, 2, 3, so six of each value |
| Setup.Shuffle | src/gameLogic.ts:22-29 | the shuffled list has the same length and the same multiset of elements as the input, for any valid swap choices |
| Setup.PlaceRows | src/gameLogic.ts:31-47 | three empty rows are filled one piece per cell in row-major order from the list; other rows are unchanged, and exactly the list's pieces are added |
| Setup.InitializeBoard | src/gameLogic.ts:4-50 | every cell holds one piece, rows 0-2 are black and rows 3-5 white, and the board holds six pieces of each value of each colour |
| Setup.SupplyCounts | src/gameLogic.ts:10-19 | the starting inventory has six pieces of each value of each colour, 36 in all |

## Left out

- The React UI, the multiplayer context, the socket.io server and the lobby are not part of this model. They are I/O and rendering; only the turn toggle of src/App.tsx:91 is modelled.
- `Math.random()` and the floating-point arithmetic in `shuffle` are replaced by a parameter: the list of swap indices, with index `i` at most `i`.
- MoveSearch.Explore: the source's recursion has no bound. The model adds a `fuel` depth bound, and a call with budget left but no fuel contributes nothing. Wherever a stack that has spent a unit can reach a closed loop of empty cells, as on the board of module `Scenario`, the source recurses forever and the model returns a truncated result instead of overflowing the stack.
- MoveSearch.ExploreMoves: the body of the loop over DIRECTIONS is the method `ExploreDirection`, and each `continue` of the source is an early return from it.
- MoveSearch.LegalMoves: the set of seen string keys `"row,col"` is modelled as a set of positions. The two are equivalent for positions on the board.
- The board copy of `executeMove`, and the fresh board of `initializeBoard`, become value semantics. A `Board` is an immutable value, so "the input board is unchanged" holds by construction and is not stated separately.
- Setup.PlaceRows: the two placement loops of `initializeBoard` (rows 0-2 for black, rows 3-5 for white) are one method, called with the first row.
- JavaScript numbers are modelled as unbounded integers. Scores never exceed 3 × 36 here, so no rounding or overflow can occur.
