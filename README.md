# GomokuAI move engine in Dafny

This project models the core of GomokuAI, a console five-in-a-row game on a 15-by-15 board.
Cells are addressed by 1-based (row, column). 0 is an empty cell and 1 and 2 are the players.
The model covers these parts:

- **Boards and games.** The engine's fixed-size `Board` and the older size-parametric board
  are classes over a 2-D array, with a ghost grid value that mirrors the array.
  The engine's `Gomoku` game and the older `Go` game each hold the board and the current
  player. Their win checks scan a window of nine cells through the last move in four
  directions. `Go` also has a naive whole-board scan.
- **Player factory.** A type code 1..6 maps to one of six player tiers, and any other code is
  an error.
- **Search players.**
  - Medium: alpha-beta over every empty cell, scored by stone count.
  - Hard: candidates are the empty cells near a stone; it answers a forced block, scores by
    four-stone runs and deepens iteratively.
  - VeryHard: a heuristic that first plays a cell that would join three opponent stones
    into a line of four, then one that would join two into a line of three, takes an
    immediate win, and otherwise picks the move with the highest threat-and-row score.
    The "line of L" test counts the cell itself as one, so it fires on L - 1 opponent
    stones that run on, without a gap, from the cell in one direction and its opposite.

Each player works on the shared board by placing a stone, evaluating and lifting it again.
The methods carry those try/undo steps and prove that the board comes back unchanged.

What each player computes is defined once as a ghost function of the grid. Examples are
`AlphaBeta`, `Minimax`, `HardMove`, `MediumMove`, `VeryHardMove`, `ScanAnswer`,
`NearbySet`, `GameScore` and `PotentialAny`. Each method is proved to return that function's
value. Lemmas then prove what the source promises about those functions:

- alpha-beta with the full window equals plain minimax;
- a forced block is played when one exists;
- the chosen move is an empty cell and the first strictly best one;
- Medium reports no valid move on a board with exactly two empty cells when neither order of
  play wins: the maximising node two plies down finds no cell and keeps int.MinValue, which
  no root value beats;
- VeryHard's blocking bonus is never applied;
- a run of five through the last move is a win, and such a win implies the naive scan.

Modules by file:

| file | module | models |
|---|---|---|
| grids.dfy | Grids | grid values, 1-based access and update, row-major sums over cells |
| results.dfy | Results | the error outcomes (exceptions in the engine) |
| engine_board.dfy | EngineBoard | `Engine/Board.cs` |
| legacy_board.dfy | LegacyBoard | `Board.cs` |
| lines.dfy | Lines | the nine-cell window win and the naive five-in-a-row scan |
| factories.dfy | Factories | `Factories/PlayerFactory.cs` |
| gomoku.dfy | EngineGame | `Engine/Gomoku.cs` |
| go.dfy | LegacyGame | `Go.cs` |
| blocking.dfy | Blocking | `CheckOpponentWinningMove`, shared by Medium and Hard |
| choice.dfy | Choice | row-major cell lists and the "first strictly better" running maximum |
| evaluators.dfy | Evaluators | Medium's and Hard's `EvaluateBoard` and Hard's `CheckSequence` |
| search.dfy, search_theory.dfy | Search, SearchTheory | the alpha-beta `Minimax`/`MinMax` of Medium and Hard and its theory |
| root_moves.dfy | RootMoves | the root loops over candidate cells and the deepening passes |
| ordering.dfy | Ordering | Hard's `MoveOrder` sort key and an insertion sort by it |
| nearby.dfy | Nearby | Hard's `GetNearbyEmptyPoints` |
| medium.dfy | Medium | `Players/AIPlayerMedium.cs` |
| hard.dfy | Hard | `Players/AIPlayerHard.cs` |
| potential.dfy | Potential | VeryHard's `CheckDirection` potential rows |
| threats.dfy | Threats | VeryHard's threat counts, potential-row counts, blocking priority and game score |
| very_hard.dfy, very_hard_theory.dfy | VeryHard, VeryHardTheory | `Players/AIPlayerVeryHard.cs` and its theory |

All integers are unbounded. `int.MinValue` and `int.MaxValue` appear as `MinInt` and
`MaxInt`. Lemmas show that no score the engine computes gets near them, so 32-bit
wrap-around never arises; see `ScoreInRange`, `MinimaxInRange` and `GameScoreFits`.

## Model

| member | source | states |
|---|---|---|
| Grids.Set | src/GomokuAI/Engine/Board.cs:35-38 | a write changes exactly the target cell to the new value and keeps the grid's shape |
| Grids.SetRestore | src/GomokuAI/Engine/Board.cs:35-38 | writing a cell and then writing back its previous value gives the original grid (the try/undo the players rely on) |
| Grids.SetWellFormed | src/GomokuAI/Engine/Board.cs:35-38 | a write inside the board keeps a well-formed n-by-n grid |
| Grids.EmptyGrid | src/GomokuAI/Engine/Board.cs:11-14 | the grid of a new board is n-by-n with every in-range cell 0 |
| Grids.SumStep | src/GomokuAI/Players/AIPlayerMedium.cs:129-137 | stepping one cell along a row-major scan adds that cell's weight to the running total |
| Grids.SumWrap | src/GomokuAI/Players/AIPlayerMedium.cs:129-131 | the end of one row and the start of the next mark the same point of the scan |
| Grids.SumBeforeBounds | src/GomokuAI/Players/AIPlayerMedium.cs:129-139 | with every cell weight in [lo, hi], the total of the first k cells lies in [lo*k, hi*k] |
| Grids.SumCellsBounds | src/GomokuAI/Players/AIPlayerMedium.cs:129-139 | with every cell weight in [lo, hi], the whole-board total lies in [lo*n*n, hi*n*n] |
| EngineBoard.Board.constructor | src/GomokuAI/Engine/Board.cs:11-14 | a new 15-by-15 board has every cell 0 |
| EngineBoard.Board.GetPosition | src/GomokuAI/Engine/Board.cs:24-27 | (row, column) in 1..15 reads storage [row-1, column-1], the grid's cell |
| EngineBoard.Board.SetPosition | src/GomokuAI/Engine/Board.cs:35-38 | the new grid is the old one with exactly (row, column) set to value; the board stays valid |
| LegacyBoard.Board.constructor | src/GomokuAI/Board.cs:8-14 | Size is the constructor's argument and every cell is 0 |
| LegacyBoard.Board.GetPosition | src/GomokuAI/Board.cs:16-19 | (row, column) in 1..Size reads the grid's cell |
| LegacyBoard.Board.SetPosition | src/GomokuAI/Board.cs:21-24 | only cell (row, column) changes, to value; Size is unchanged |
| Lines.WinOwnsCell | src/GomokuAI/Engine/Gomoku.cs:107-131 | a win through (r, c) means the tested player owns (r, c) itself, because every five-window inside offsets -4..4 contains offset 0 |
| Lines.LineWinOwnsCell | src/GomokuAI/Engine/Gomoku.cs:107-131 | the same for a win along one direction |
| Lines.ShiftWindow | src/GomokuAI/Engine/Gomoku.cs:107-131 | the window starting at offset k is five owned cells from (r + k*dr, c + k*dc) |
| Lines.LongRunWins | src/GomokuAI/Engine/Gomoku.cs:118-125 | a run of five or more owned cells within offsets -4..4 is a win: runs of six count too |
| Lines.WinImpliesNaive | src/GomokuAI/Go.cs:98-229 | a window win at (r, c) makes the naive whole-board scan report a win |
| Lines.LineWinFive | src/GomokuAI/Go.cs:98-229 | a window win along d gives a five along d somewhere on the board |
| Lines.NaiveImpliesSomeWin | src/GomokuAI/Go.cs:98-183 | conversely, a naive win is a window win at some cell of the board |
| Lines.FiveStartWins | src/GomokuAI/Go.cs:98-183 | a five along d is a window win along d at its first cell |
| Lines.FiveFromEnds | src/GomokuAI/Go.cs:98-183 | both end cells of a found five are on the board |
| Lines.NoFiveAnywhere | src/GomokuAI/Go.cs:98-183 | with no five along d from any board cell, the scan along d finds none |
| Factories.Code | src/GomokuAI/Factories/PlayerFactory.cs:21-26 | every tier has a type code in 1..6 |
| Factories.CreatePlayer | src/GomokuAI/Factories/PlayerFactory.cs:17-29 | succeeds iff the code is in 1..6, with the tier of that code and exactly the given number and board; any other code gives the wrong-player-type error |
| Factories.CodeInjective | src/GomokuAI/Factories/PlayerFactory.cs:21-26 | distinct tiers have distinct codes |
| Factories.CreateFromCode | src/GomokuAI/Factories/PlayerFactory.cs:21-26 | a tier's code creates that tier: 1 Human, 2 VeryEasy, 3 Easy, 4 Medium, 5 Hard, 6 VeryHard |
| EngineGame.Other | src/GomokuAI/Engine/Gomoku.cs:92 | always a player number, and for a player number p it is 3 - p, the opponent the search players use, and differs from p |
| EngineGame.OtherToggles | src/GomokuAI/Engine/Gomoku.cs:90-93 | swapping changes the player, and swapping twice restores it |
| EngineGame.Gomoku.Init | src/GomokuAI/Engine/Gomoku.cs:18-24 | a new game holds the board and both players, and player 1 is to move |
| EngineGame.Gomoku.Create | src/GomokuAI/Engine/Gomoku.cs:18-24 | succeeds iff both type codes are in 1..6, giving a fresh game on an empty board with players of those codes and player 1 to move; otherwise the first unknown code is reported |
| EngineGame.Gomoku.GetCurrentPlayer | src/GomokuAI/Engine/Gomoku.cs:67-70 | returns player 1 iff the current player is 1; the player returned has the current number and the game's board |
| EngineGame.Gomoku.CheckDirection | src/GomokuAI/Engine/Gomoku.cs:102-134 | true iff five consecutive in-range cells within offsets -4..4 along the direction belong to the current player; off-board cells reset the count instead of ending the scan |
| EngineGame.Gomoku.IsGameOver | src/GomokuAI/Engine/Gomoku.cs:142-153 | true iff CheckDirection holds along (1,0), (0,1), (1,1) or (1,-1), for the current player whatever stone is at (row, column); read-only |
| EngineGame.Gomoku.SetMove | src/GomokuAI/Engine/Gomoku.cs:77-85 | the mover's stone is written at (row, column), and the turn passes to the other player iff that move did not win |
| EngineGame.Gomoku.SwapPlayer | src/GomokuAI/Engine/Gomoku.cs:90-93 | the current player toggles and stays in {1, 2} |
| LegacyGame.Go.constructor | src/GomokuAI/Go.cs:8-12 | a fresh empty board of the given size, player 1 to move |
| LegacyGame.Go.SetMove | src/GomokuAI/Go.cs:82-90 | writes the current player's stone and swaps iff the move is not a win |
| LegacyGame.Go.SwapPlayer | src/GomokuAI/Go.cs:92-95 | the current player toggles 1 and 2 |
| LegacyGame.Go.IsGameOverNaive | src/GomokuAI/Go.cs:98-183 | true iff a horizontal, vertical, diagonal or anti-diagonal five of the current player exists anywhere; read-only |
| LegacyGame.Go.ScanRows | src/GomokuAI/Go.cs:102-123 | true iff some row holds five consecutive stones of the current player |
| LegacyGame.Go.ScanColumns | src/GomokuAI/Go.cs:125-146 | true iff some column holds five consecutive stones of the current player |
| LegacyGame.Go.ScanDiagonals | src/GomokuAI/Go.cs:148-180 | true iff some diagonal (or, with anti, anti-diagonal) holds five consecutive stones of the current player |
| LegacyGame.Go.IsGameOver | src/GomokuAI/Go.cs:185-229 | the nine-cell window win of the current player through (row, column), on a board of the game's size |
| Blocking.FirstBlockNone | src/GomokuAI/Players/AIPlayerHard.cs:179-228 | the scan from a point finds nothing iff no later (cell, direction) shows four opponent stones followed by an empty in-range cell |
| Blocking.FirstBlockSome | src/GomokuAI/Players/AIPlayerHard.cs:179-228 | when the scan finds a cell, it is the fifth cell of the first match in row-major and then direction order, and no earlier point matches |
| Blocking.BlockCellEmpty | src/GomokuAI/Players/AIPlayerHard.cs:212-221 | a match's answer cell is on the board and empty |
| Blocking.ScanAnswerSpec | src/GomokuAI/Players/AIPlayerHard.cs:179-228 | the answer is (0,0) iff no match exists; otherwise it is the empty cell after the first match's four stones |
| Blocking.CheckBlockAt | src/GomokuAI/Players/AIPlayerHard.cs:196-221 | true iff offsets 0..3 hold the opponent and offset 4 is an empty board cell |
| Blocking.CheckCell | src/GomokuAI/Players/AIPlayerHard.cs:194-222 | answers for one start cell over the four directions in source order, or passes the scan on to the next cell |
| Blocking.CheckRow | src/GomokuAI/Players/AIPlayerHard.cs:192-223 | answers for one row of start cells, or passes the scan on to the next row |
| Blocking.CheckOpponentWinningMove | src/GomokuAI/Players/AIPlayerMedium.cs:142-191 | the result is the scan's answer for the opponent 3 - playerNumber: (0,0) or the first blocking cell |
| Choice.CellsWithSpec | src/GomokuAI/Players/AIPlayerVeryHard.cs:439-456 | the listed cells are exactly the board cells holding v before the given point, in strictly row-major order |
| Choice.AllWithSpec | src/GomokuAI/Players/AIPlayerVeryHard.cs:439-456 | the full list holds exactly the board cells holding v, in row-major order |
| Choice.NoCellsWith | src/GomokuAI/Players/AIPlayerVeryHard.cs:439-456 | a board where no cell holds v lists nothing |
| Choice.CellsWithPrefix | src/GomokuAI/Players/AIPlayerMedium.cs:37-56 | the list up to an earlier point is a prefix of the list up to a later one |
| Choice.FoldFirstMax | src/GomokuAI/Players/AIPlayerMedium.cs:51-54 | the running maximum keeps its start iff no trial beats it; otherwise it ends on the first trial whose value is strictly above all earlier ones and at least all later ones |
| Choice.FoldSnoc | src/GomokuAI/Players/AIPlayerMedium.cs:51-54 | one more trial updates the running maximum by one step |
| Choice.FoldAppend | src/GomokuAI/Players/AIPlayerHard.cs:51-77 | running over two lists in turn is running over their concatenation: bestScore carries over between depths |
| Evaluators.StoneCountScore | src/GomokuAI/Players/AIPlayerMedium.cs:125-140 | the result is own stones minus other non-empty cells |
| Evaluators.StoneScoreBounds | src/GomokuAI/Players/AIPlayerMedium.cs:125-140 | the stone count lies within -225..225 |
| Evaluators.RunsAt | src/GomokuAI/Players/AIPlayerHard.cs:160-173 | a cell starts between 0 and 4 runs, one per direction |
| Evaluators.RunWeight | src/GomokuAI/Players/AIPlayerHard.cs:155-173 | a cell's contribution lies in -400..400: 100 for each of at most four run starts |
| Evaluators.CheckSequence | src/GomokuAI/Players/AIPlayerHard.cs:250-266 | 1 iff the next three cells along the direction are on the board and hold the start cell's value, else 0 |
| Evaluators.RunCountScore | src/GomokuAI/Players/AIPlayerHard.cs:147-177 | the result is 100 times own run starts minus 100 times the other non-empty cells' run starts |
| Evaluators.RunScoreBounds | src/GomokuAI/Players/AIPlayerHard.cs:147-177 | the run score lies within -400*225..400*225 |
| Evaluators.RunScoreHundreds | src/GomokuAI/Players/AIPlayerHard.cs:160-173 | the run score is a multiple of 100 |
| Evaluators.RunSumHundreds | src/GomokuAI/Players/AIPlayerHard.cs:160-173 | every partial sum of the scan is a multiple of 100 |
| Search.Evaluate | src/GomokuAI/Players/AIPlayerMedium.cs:125-140 | returns the evaluator the context selects, which is the stone count for Medium and the run count for Hard |
| Search.MinMax | src/GomokuAI/Players/AIPlayerHard.cs:88-145 | the result is the fail-soft alpha-beta value over all empty cells in row-major order (maximiser places playerNumber, minimiser 3 - playerNumber, evaluation at depth 0 or on a win of the game's current player), and the board is back as it was |
| SearchTheory.SweepMonotone | src/GomokuAI/Players/AIPlayerMedium.cs:75-96 | the maximiser's loop never lowers its running best, and the minimiser's never raises it |
| SearchTheory.FilledSweep | src/GomokuAI/Players/AIPlayerMedium.cs:75-96 | a loop over cells that are all taken returns its initial best unchanged |
| SearchTheory.OneEmptySweep | src/GomokuAI/Players/AIPlayerMedium.cs:75-121 | with one empty cell left ahead of the loop, the node's value is its initial best combined with the value of playing that cell |
| SearchTheory.AlphaBetaFailSoft | src/GomokuAI/Players/AIPlayerHard.cs:95-144 | within a window alpha < beta, the pruned value equals minimax when strictly inside, and bounds it from the correct side when at or outside an edge |
| SearchTheory.MaxSweepFailSoft | src/GomokuAI/Players/AIPlayerHard.cs:97-118 | the maximiser's pruned loop relates to the unpruned loop as fail-soft alpha-beta does |
| SearchTheory.MinSweepFailSoft | src/GomokuAI/Players/AIPlayerHard.cs:122-143 | the minimiser's pruned loop relates to the unpruned loop as fail-soft alpha-beta does |
| SearchTheory.ScoreInRange | src/GomokuAI/Players/AIPlayerHard.cs:147-177 | both evaluators lie within -90000..90000 |
| SearchTheory.MinimaxInRange | src/GomokuAI/Players/AIPlayerMedium.cs:66-123 | minimax values stay within int.MinValue..int.MaxValue |
| SearchTheory.SweepInRange | src/GomokuAI/Players/AIPlayerMedium.cs:73-122 | a loop started from a representable best stays representable |
| SearchTheory.RootWindowExact | src/GomokuAI/Players/AIPlayerHard.cs:59 | called with the window (Min, Max), alpha-beta returns exactly the unpruned minimax value |
| SearchTheory.LeafSweepFloor | src/GomokuAI/Players/AIPlayerMedium.cs:98-122 | a minimising loop over leaves never goes below min(best, -90000) |
| SearchTheory.DepthOneAboveMin | src/GomokuAI/Players/AIPlayerHard.cs:120-143 | a minimiser one ply above the leaves scores strictly above int.MinValue |
| RootMoves.RootValueExact | src/GomokuAI/Players/AIPlayerHard.cs:57-61 | a root trial's value is minimax on the board with playerNumber's stone placed, minimiser to move |
| RootMoves.TrialsSnoc | src/GomokuAI/Players/AIPlayerMedium.cs:39-55 | one more candidate adds a trial iff it is an empty board cell |
| RootMoves.TrialsMembers | src/GomokuAI/Players/AIPlayerHard.cs:53-67 | every trial is for a listed, empty board cell and carries its root value |
| RootMoves.TrialsOfEmpty | src/GomokuAI/Players/AIPlayerHard.cs:53-67 | when every candidate is empty, there is one trial per candidate, in order |
| RootMoves.DeepTrialsStep | src/GomokuAI/Players/AIPlayerHard.cs:51-67 | each deeper pass continues the running best the shallower passes left, without resetting it |
| RootMoves.DeepTrialsFirstPass | src/GomokuAI/Players/AIPlayerHard.cs:51-53 | the depth-1 pass comes first in the deepening |
| RootMoves.DeepTrialsMembers | src/GomokuAI/Players/AIPlayerHard.cs:51-77 | the deepening's trials are exactly the (candidate, depth) pairs for the depths searched |
| RootMoves.DepthOneTrialAboveMin | src/GomokuAI/Players/AIPlayerHard.cs:59-63 | a depth-1 root trial beats the initial bestScore |
| Ordering.Dist4 | src/GomokuAI/Players/AIPlayerHard.cs:231-235 | four times the squared distance to the centre (7.5, 7.5) is at least 0 and at most 2*15*15 on the board |
| Ordering.Square | src/GomokuAI/Players/AIPlayerHard.cs:231-235 | squares are non-negative and monotone in the absolute value |
| Ordering.KeyOrderMatches | src/GomokuAI/Players/AIPlayerHard.cs:237-247 | for scores in multiples of 100, comparing `score - distance` in reals agrees with the integer key order |
| Ordering.BelowEleven | src/GomokuAI/Players/AIPlayerHard.cs:231-235 | every distance to the centre is below 11, so it never outweighs a 100-point score step |
| Ordering.SquareOrder | src/GomokuAI/Players/AIPlayerHard.cs:231-235 | for non-negative reals, order agrees with the order of squares |
| Ordering.KeyTotal | src/GomokuAI/Players/AIPlayerHard.cs:237-247 | the sort key order is total |
| Ordering.KeyTrans | src/GomokuAI/Players/AIPlayerHard.cs:237-247 | the sort key order is transitive |
| Ordering.InsertSorted | src/GomokuAI/Players/AIPlayerHard.cs:237-247 | inserting at a point between smaller and larger keys keeps the list sorted |
| Ordering.Insert | src/GomokuAI/Players/AIPlayerHard.cs:237-247 | insertion keeps the list sorted and adds exactly the one element |
| Ordering.SortByKey | src/GomokuAI/Players/AIPlayerHard.cs:237-247 | the output is sorted by key and is a permutation of the input |
| Nearby.NearStep | src/GomokuAI/Players/AIPlayerHard.cs:274-288 | passing a cell adds the empty cells near it iff it holds a stone |
| Nearby.NearWrap | src/GomokuAI/Players/AIPlayerHard.cs:272-274 | the end of one row is the start of the next |
| Nearby.NearEnds | src/GomokuAI/Players/AIPlayerHard.cs:268-292 | nothing is found before the first cell, and everything after the last |
| Nearby.AddAround | src/GomokuAI/Players/AIPlayerHard.cs:278-287 | adds exactly the empty board cells within d rows and columns of (row, column), clipped to 1..15 |
| Nearby.ScanRow | src/GomokuAI/Players/AIPlayerHard.cs:274-288 | one row of stones adds its near empty cells to the set |
| Nearby.GetNearbyEmptyPoints | src/GomokuAI/Players/AIPlayerHard.cs:268-292 | the result is exactly the empty board cells within Chebyshev distance d of some stone |
| Nearby.Enumerate | src/GomokuAI/Players/AIPlayerHard.cs:30 | listing a set gives each member once, in an order left open (HashSet order) |
| Nearby.NearbySet | src/GomokuAI/Players/AIPlayerHard.cs:268-292 | membership is exactly being near a stone and empty |
| Nearby.NoStonesNoCandidates | src/GomokuAI/Players/AIPlayerHard.cs:32-35 | a board with no stones has no candidates |
| Nearby.NextToStone | src/GomokuAI/Players/AIPlayerHard.cs:278-287 | every empty neighbour of a stone is a candidate |
| Medium.AIPlayerMedium.constructor | src/GomokuAI/Players/AIPlayerMedium.cs:17-21 | keeps the player number and board; no game yet |
| Medium.AIPlayerMedium.GetMove | src/GomokuAI/Players/AIPlayerMedium.cs:23-64 | returns MediumMove of the board it was called on and leaves the board unchanged |
| Medium.AIPlayerMedium.SearchMoves | src/GomokuAI/Players/AIPlayerMedium.cs:33-56 | the best pick is the running maximum of the depth-3 root trials over the empty cells in row-major order; the board is unchanged |
| Medium.AIPlayerMedium.TryCell | src/GomokuAI/Players/AIPlayerMedium.cs:41-54 | extends the running maximum by the trial for (r, c), if that cell is empty, and restores the board |
| Medium.AIPlayerMedium.Minimax | src/GomokuAI/Players/AIPlayerMedium.cs:66-123 | the fail-soft alpha-beta value under the stone-count evaluation; the board is unchanged |
| Medium.AIPlayerMedium.EvaluateBoard | src/GomokuAI/Players/AIPlayerMedium.cs:125-140 | own stones minus the other non-empty cells |
| Medium.AIPlayerMedium.CheckOpponentWinningMove | src/GomokuAI/Players/AIPlayerMedium.cs:142-191 | (0,0), or the first empty cell after four opponent stones |
| Medium.BlockTest | src/GomokuAI/Players/AIPlayerMedium.cs:28 | the `row != 0 && column != 0` test holds iff a block exists, since a found cell has both coordinates at least 1 |
| Medium.MediumBlocks | src/GomokuAI/Players/AIPlayerMedium.cs:26-31 | with a block available, it is the move, and it is an empty board cell |
| Medium.SweepTrials | src/GomokuAI/Players/AIPlayerMedium.cs:37-56 | there is one trial per empty cell, in row-major order, carrying that cell's depth-3 value |
| Medium.MediumFails | src/GomokuAI/Players/AIPlayerMedium.cs:60-61 | with no block, the move fails iff no empty cell's value exceeds int.MinValue |
| Medium.MediumPicksBest | src/GomokuAI/Players/AIPlayerMedium.cs:37-63 | a successful move is an empty cell, the first in row-major order whose value is strictly greatest: above every earlier one and at least every later one |
| Medium.TwoEmptyValue | src/GomokuAI/Players/AIPlayerMedium.cs:66-122 | with two empty cells a and b and no win at a or at the reply b, playing a is worth exactly int.MinValue |
| Medium.MediumTwoEmptyFails | src/GomokuAI/Players/AIPlayerMedium.cs:51-61 | on a board with exactly two empty cells, nothing to block and no win in either order, the move fails with "No valid moves found!" although the board is not full |
| Medium.MediumFullBoard | src/GomokuAI/Players/AIPlayerMedium.cs:60-61 | a full board gives the no-valid-moves error |
| Hard.DepthsSearched | src/GomokuAI/Players/AIPlayerHard.cs:51-77 | the number of depths searched is at least 1; every depth before the last one finished within 15000 ms, and a stop before depth 3 follows a pass that overran |
| Hard.PassesFrom | src/GomokuAI/Players/AIPlayerHard.cs:69-74 | the same count from a given depth on |
| Hard.StopsAt | src/GomokuAI/Players/AIPlayerHard.cs:69-74 | when the first pass to overrun the budget is the one at depth, exactly depth passes are searched |
| Hard.AIPlayerHard.constructor | src/GomokuAI/Players/AIPlayerHard.cs:19-24 | keeps the player number and board, with no active points |
| Hard.AIPlayerHard.GetMove | src/GomokuAI/Players/AIPlayerHard.cs:26-85 | returns HardMove for the candidate list it built, which lists every candidate once and is sorted by the move-order key when the search runs; the board is unchanged |
| Hard.AIPlayerHard.Deepen | src/GomokuAI/Players/AIPlayerHard.cs:51-77 | the running maximum over all passes, for the depths the stopwatch allows |
| Hard.AIPlayerHard.SearchPass | src/GomokuAI/Players/AIPlayerHard.cs:53-67 | one pass extends the running maximum by the trials of the empty candidates at that depth |
| Hard.AIPlayerHard.TryCandidate | src/GomokuAI/Players/AIPlayerHard.cs:55-66 | an occupied candidate leaves the running best alone; an empty one is tried, the board is restored, and its root value replaces the best only when strictly larger |
| Hard.AIPlayerHard.MinMax | src/GomokuAI/Players/AIPlayerHard.cs:88-145 | the fail-soft alpha-beta value under the run-count evaluation, searching all empty cells; the board is unchanged |
| Hard.AIPlayerHard.EvaluateBoard | src/GomokuAI/Players/AIPlayerHard.cs:147-177 | 100 times own run starts minus 100 times the opponent's |
| Hard.AIPlayerHard.CheckSequence | src/GomokuAI/Players/AIPlayerHard.cs:250-266 | 1 iff a four-stone run starts at the cell in the direction, else 0 |
| Hard.AIPlayerHard.CheckOpponentWinningMove | src/GomokuAI/Players/AIPlayerHard.cs:179-228 | (0,0), or the first empty cell after four opponent stones |
| Hard.AIPlayerHard.GetNearbyEmptyPoints | src/GomokuAI/Players/AIPlayerHard.cs:268-292 | exactly the empty cells within the distance of a stone |
| Hard.AIPlayerHard.MoveOrder | src/GomokuAI/Players/AIPlayerHard.cs:237-247 | a permutation of the moves in ascending order of board score after the move minus distance to the centre; the board is unchanged |
| Hard.AIPlayerHard.ScoreMoves | src/GomokuAI/Players/AIPlayerHard.cs:239-244 | maps each move to the run score after playing it, restoring the board each time |
| Hard.KeysAreScores | src/GomokuAI/Players/AIPlayerHard.cs:237-247 | a list sorted by the scored keys is in move order |
| Hard.CandidatesFree | src/GomokuAI/Players/AIPlayerHard.cs:28-30 | every candidate is an empty board cell |
| Hard.HardEmptyBoard | src/GomokuAI/Players/AIPlayerHard.cs:32-35 | on an empty board there are no candidates and the move is (7,7), by integer division |
| Hard.HardFullBoard | src/GomokuAI/Players/AIPlayerHard.cs:32-35 | on a full board the move is also (7,7), which is occupied |
| Hard.BlockAnswer | src/GomokuAI/Players/AIPlayerHard.cs:37-42 | the `row != 0 \|\| column != 0` test holds iff a block exists, and a found block is empty |
| Hard.HardBlocks | src/GomokuAI/Players/AIPlayerHard.cs:37-42 | with candidates and a block available, the block is the move, without search |
| Hard.FirstTrialAboveMin | src/GomokuAI/Players/AIPlayerHard.cs:51-67 | the first trial of the deepening beats int.MinValue |
| Hard.HardNeverFails | src/GomokuAI/Players/AIPlayerHard.cs:81-84 | with candidates, the move succeeds and is an empty cell; the "No valid moves" exception cannot occur |
| Hard.DeepBest | src/GomokuAI/Players/AIPlayerHard.cs:51-77 | the deepening's result is a candidate at some searched depth, whose value is at least every (depth, candidate) value and strictly above every earlier trial |
| Hard.HardPicksBest | src/GomokuAI/Players/AIPlayerHard.cs:44-84 | with no block, the move is an empty candidate whose value at some searched depth is the greatest over the depths and candidates searched, and the first trial to reach it |
| Potential.PotentialAnyEight | src/GomokuAI/Players/AIPlayerVeryHard.cs:273-304 | a potential row in any direction is the disjunction over the eight vectors, in source order |
| Potential.NegOffset | src/GomokuAI/Players/AIPlayerVeryHard.cs:197-220 | stepping i along the reversed direction is stepping -i along the direction |
| Potential.NoPotentialRow | src/GomokuAI/Players/AIPlayerVeryHard.cs:166-223 | when the forward and backward runs together fall short of L, there is no row |
| Potential.PotentialSymmetric | src/GomokuAI/Players/AIPlayerVeryHard.cs:166-223 | a direction and its reverse find the same rows |
| Potential.PotentialFourLines | src/GomokuAI/Players/AIPlayerVeryHard.cs:133-161 | the eight vectors reduce to the four lines |
| Potential.PotentialShorter | src/GomokuAI/Players/AIPlayerVeryHard.cs:166-223 | a row of length L+1 is also a row of length L, for L >= 2 |
| Potential.PotentialAnyShorter | src/GomokuAI/Players/AIPlayerVeryHard.cs:133-161 | the same in any direction |
| Potential.RowOfFiveIsLineWin | src/GomokuAI/Players/AIPlayerVeryHard.cs:166-223 | a potential row of five along d is a window win along d |
| Potential.RowOfFiveIsWin | src/GomokuAI/Players/AIPlayerVeryHard.cs:273-304 | a potential row of five in any direction is the engine's win |
| Potential.RayIgnoresStart | src/GomokuAI/Players/AIPlayerVeryHard.cs:171-194 | a run from (r, c) does not depend on what (r, c) holds |
| Potential.RowIgnoresStart | src/GomokuAI/Players/AIPlayerVeryHard.cs:166-223 | a potential row through (r, c) does not depend on what (r, c) holds |
| Potential.PotentialIgnoresStart | src/GomokuAI/Players/AIPlayerVeryHard.cs:133-161 | the same in any direction |
| Potential.PotentialFiveWinsByPlacing | src/GomokuAI/Players/AIPlayerVeryHard.cs:69-76 | a five through an empty cell holds iff placing the stone there wins |
| Threats.StonesUpTo | src/GomokuAI/Players/AIPlayerVeryHard.cs:353-377 | the stones counted in the first j steps number between 0 and j |
| Threats.NoSideThreat | src/GomokuAI/Players/AIPlayerVeryHard.cs:353-377 | a side whose scan stops (at the edge, another stone or the last step) having seen fewer than two stones is no threat |
| Threats.StonesGrow | src/GomokuAI/Players/AIPlayerVeryHard.cs:353-377 | more steps never count fewer stones |
| Threats.ThreatsAlong | src/GomokuAI/Players/AIPlayerVeryHard.cs:324-343 | at most two threats per direction |
| Threats.ThreatsAt | src/GomokuAI/Players/AIPlayerVeryHard.cs:324-343 | a cell has 0..16 threats over its eight directions |
| Threats.ThreatsAtEight | src/GomokuAI/Players/AIPlayerVeryHard.cs:324-343 | the count is the sum over the eight vectors in source order |
| Threats.ThreatsCountedTwice | src/GomokuAI/Players/AIPlayerVeryHard.cs:324-408 | each side of a line is counted from both opposite vectors, so a cell's count is even |
| Threats.ThreatWeight | src/GomokuAI/Players/AIPlayerVeryHard.cs:306-322 | a cell's contribution to the board total lies in 0..16 |
| Threats.ThreatAccumulate | src/GomokuAI/Players/AIPlayerVeryHard.cs:312-318 | adding one cell's count extends the running total over the scan |
| Threats.ThreatsBounds | src/GomokuAI/Players/AIPlayerVeryHard.cs:306-322 | the board's threat total lies in 0..16*225 |
| Threats.RowWeight | src/GomokuAI/Players/AIPlayerVeryHard.cs:252-271 | a cell counts 0 or 1 |
| Threats.RowWeightMeaning | src/GomokuAI/Players/AIPlayerVeryHard.cs:252-271 | a cell counts 1 iff it is empty and placing p's stone there wins |
| Threats.PotentialRowsBounds | src/GomokuAI/Players/AIPlayerVeryHard.cs:252-271 | the potential-row count lies in 0..225 |
| Threats.WeightedFits | src/GomokuAI/Players/AIPlayerVeryHard.cs:225-243 | for counts in their proven ranges, the weighted sum plus the bonus stays within 32 bits |
| Threats.GameScoreFits | src/GomokuAI/Players/AIPlayerVeryHard.cs:225-243 | the game score, even plus the 100 bonus, is strictly between int.MinValue and int.MaxValue |
| VeryHard.SqDist | src/GomokuAI/Players/AIPlayerVeryHard.cs:105-110 | the squared distance between two cells is non-negative |
| VeryHard.SquarePositive | src/GomokuAI/Players/AIPlayerVeryHard.cs:105-110 | squares are non-negative |
| VeryHard.InsertByDistanceSorted | src/GomokuAI/Players/AIPlayerVeryHard.cs:37-42 | inserting at the right point keeps the list in non-decreasing distance |
| VeryHard.InsertByDistance | src/GomokuAI/Players/AIPlayerVeryHard.cs:37-42 | insertion keeps the order and adds exactly the one cell |
| VeryHard.SortByDistance | src/GomokuAI/Players/AIPlayerVeryHard.cs:37-42 | the result is in non-decreasing distance to the target and is a permutation of the input |
| VeryHard.OpponentMarkSpec | src/GomokuAI/Players/AIPlayerVeryHard.cs:112-130 | the target is the first opponent stone in row-major order, or (8,8) when there is none |
| VeryHard.EmptyArrangement | src/GomokuAI/Players/AIPlayerVeryHard.cs:31-42 | an arrangement lists exactly the empty board cells |
| VeryHard.FirstPotential | src/GomokuAI/Players/AIPlayerVeryHard.cs:45-60 | the first move in the list with a potential opponent row of length L, or the list's length if none exists |
| VeryHard.FiveAfterWins | src/GomokuAI/Players/AIPlayerVeryHard.cs:69-76 | the win-in-one test holds iff placing the stone wins the game |
| VeryHard.FirstFive | src/GomokuAI/Players/AIPlayerVeryHard.cs:66-76 | the first move in the list that wins in one, or the list's length |
| VeryHard.NoFiveBeforeMeans | src/GomokuAI/Players/AIPlayerVeryHard.cs:66-76 | "no win so far" holds iff no earlier move wins in one |
| VeryHard.FirstFiveAt | src/GomokuAI/Players/AIPlayerVeryHard.cs:66-76 | with no earlier win, a winning move at i is the first; reaching the end means there is none |
| VeryHard.BestAfterFold | src/GomokuAI/Players/AIPlayerVeryHard.cs:88-93 | the best move after i steps is the running maximum over the first i trials |
| VeryHard.AIPlayerVeryHard.constructor | src/GomokuAI/Players/AIPlayerVeryHard.cs:22-26 | keeps the player number and board |
| VeryHard.AIPlayerVeryHard.GetMove | src/GomokuAI/Players/AIPlayerVeryHard.cs:29-100 | returns VeryHardMove for some arrangement of the empty cells by distance to the target, and leaves the board unchanged |
| VeryHard.AIPlayerVeryHard.FindBlock | src/GomokuAI/Players/AIPlayerVeryHard.cs:45-60 | the index of the first move whose cell, counted as one, completes L cells in a line with L - 1 opponent stones |
| VeryHard.AIPlayerVeryHard.SimulateMoves | src/GomokuAI/Players/AIPlayerVeryHard.cs:63-99 | the first win-in-one, or else the first strictly best scored move; the board is unchanged |
| VeryHard.AIPlayerVeryHard.SimulateMove | src/GomokuAI/Players/AIPlayerVeryHard.cs:69-96 | reports whether the move wins in one, and otherwise its score with the bonus rule; the board is unchanged |
| VeryHard.AIPlayerVeryHard.GetOpponentPreviousMove | src/GomokuAI/Players/AIPlayerVeryHard.cs:112-130 | the first opponent stone in row-major order, or (8,8) |
| VeryHard.AIPlayerVeryHard.HasOpponentPotentialWinningRow | src/GomokuAI/Players/AIPlayerVeryHard.cs:133-161 | true iff the opponent has a potential row of length L through the cell in one of the eight directions |
| VeryHard.AIPlayerVeryHard.HasPotentialWinningRow | src/GomokuAI/Players/AIPlayerVeryHard.cs:273-304 | false when L < 4, and otherwise the same eight-way test for player p |
| VeryHard.AIPlayerVeryHard.AnyDirection | src/GomokuAI/Players/AIPlayerVeryHard.cs:283-303 | the eight-way disjunction of CheckDirection |
| VeryHard.AIPlayerVeryHard.CheckDirection | src/GomokuAI/Players/AIPlayerVeryHard.cs:166-223 | true iff 1 plus the forward run of p stones plus the backward run, each with at most L-1 steps, reaches L; the cell itself is not read |
| VeryHard.AIPlayerVeryHard.CountAlong | src/GomokuAI/Players/AIPlayerVeryHard.cs:171-194 | extends the count by the run of p stones along the direction and stops short only at a cell that is not p's |
| VeryHard.AIPlayerVeryHard.EvaluateGameState | src/GomokuAI/Players/AIPlayerVeryHard.cs:225-243 | 500*own rows + 50*own threats + blocking priority - 100*opponent rows - 50*opponent threats |
| VeryHard.AIPlayerVeryHard.CountPotentialWinningRows | src/GomokuAI/Players/AIPlayerVeryHard.cs:252-271 | the number of empty cells where p completes a five |
| VeryHard.AIPlayerVeryHard.CountThreats | src/GomokuAI/Players/AIPlayerVeryHard.cs:306-322 | the total threats over p's stones |
| VeryHard.AIPlayerVeryHard.CountThreatsAtCell | src/GomokuAI/Players/AIPlayerVeryHard.cs:314-317 | a cell's threats if it holds p's stone, else 0 |
| VeryHard.AIPlayerVeryHard.CountThreatsAtPosition | src/GomokuAI/Players/AIPlayerVeryHard.cs:324-343 | the sum of the direction counts over the eight vectors |
| VeryHard.AIPlayerVeryHard.CountThreatsInDirection | src/GomokuAI/Players/AIPlayerVeryHard.cs:345-408 | one threat per side that has two p stones within three steps, before the edge or another stone; empty cells are skipped |
| VeryHard.AIPlayerVeryHard.CountSideThreat | src/GomokuAI/Players/AIPlayerVeryHard.cs:351-377 | 1 iff that one side is a threat |
| VeryHard.AIPlayerVeryHard.GetBlockingPriority | src/GomokuAI/Players/AIPlayerVeryHard.cs:411-435 | 10 iff the opponent has more potential rows than the player, else 100 |
| VeryHard.AIPlayerVeryHard.GetAvailableMoves | src/GomokuAI/Players/AIPlayerVeryHard.cs:439-456 | the empty cells in row-major order |
| VeryHardTheory.BonusNeverApplied | src/GomokuAI/Players/AIPlayerVeryHard.cs:82-86 | when the move's cell would not join two opponent stones into a line of three, the +100 bonus does not apply to it |
| VeryHardTheory.BestIsListed | src/GomokuAI/Players/AIPlayerVeryHard.cs:63-97 | the best scored move is one of the listed moves |
| VeryHardTheory.FiveOrBestIsListed | src/GomokuAI/Players/AIPlayerVeryHard.cs:63-99 | the simulated choice is one of the listed moves |
| VeryHardTheory.VeryHardFails | src/GomokuAI/Players/AIPlayerVeryHard.cs:63 | the move fails iff there is no empty cell; otherwise it is an empty cell |
| VeryHardTheory.FirstPotentialNearest | src/GomokuAI/Players/AIPlayerVeryHard.cs:37-51 | in a list sorted by distance the first match is the nearest match |
| VeryHardTheory.ListedAt | src/GomokuAI/Players/AIPlayerVeryHard.cs:31 | every empty cell has a position in an arrangement |
| VeryHardTheory.VeryHardBlocksFour | src/GomokuAI/Players/AIPlayerVeryHard.cs:44-51 | when some empty cell would join three opponent stones into a line of four, the cell itself counted, the move is such a cell and is nearest the target among them |
| VeryHardTheory.VeryHardBlocksThree | src/GomokuAI/Players/AIPlayerVeryHard.cs:53-60 | failing that, when some empty cell would join two opponent stones into a line of three, the move is such a cell, nearest the target among them |
| VeryHardTheory.NoBlockStage | src/GomokuAI/Players/AIPlayerVeryHard.cs:44-60 | when no empty cell would join two opponent stones into a line of three, neither blocking loop returns (no cell joins three into a line of four either) |
| VeryHardTheory.VeryHardTakesWin | src/GomokuAI/Players/AIPlayerVeryHard.cs:66-76 | with nothing to block and a winning cell, the move wins in one and is nearest the target among winning cells |
| VeryHardTheory.NoFiveStage | src/GomokuAI/Players/AIPlayerVeryHard.cs:66-76 | with no winning cell the simulation never returns early |
| VeryHardTheory.PlacedScores | src/GomokuAI/Players/AIPlayerVeryHard.cs:79-86 | when no empty cell would join two opponent stones into a line of three, each move's score is the game score after placing it |
| VeryHardTheory.VeryHardPicksBest | src/GomokuAI/Players/AIPlayerVeryHard.cs:62-99 | with nothing to block or win, the move maximises the game score after placing it, and it is the first in the list to do so |

## Left out

- Console output is not modelled. This covers `PrintBoard` on both boards, the `Play` loops of
  `Gomoku` and `Go`, the `Console.WriteLine` diagnostics in Medium and Hard, and
  `BaseAIPlayer.PrintMove`. None of them affects a move.
- Console input is not modelled: `Go.GetMove`, `HumanPlayer` and the `Configuration`
  prompts. The board model already captures the legality they check (in range, empty).
- `Gomoku`'s constructor is split in two. `EngineGame.Gomoku.Create` builds the board and calls
  the factory, and it returns the factory's error instead of throwing. `EngineGame.Gomoku.Init`
  stores the board and the two created players.
- The factory maps a type code to a tier value and does not construct the tier. The
  VeryEasy and Easy players are random and are not modelled. `Interfaces/MinMax.cs`,
  `Program.cs` and `Interfaces/IPlayer.cs` are not part of this model.
- Out-of-range `GetPosition`/`SetPosition` throws in the engine. Here those calls are excluded
  by a requires that the coordinates lie on the board.
- Hard.AIPlayerHard.GetMove: the stopwatch becomes a parameter. It is the elapsed time read after each
  pass, and `DepthsSearched` says how many passes run.
- Hard.AIPlayerHard.GetMove: the order in which the HashSet is enumerated is left open. The model
  states only that each candidate is listed once.
- Hard.AIPlayerHard.MoveOrder: the model does not say how equal keys end up ordered. `OrderBy` is
  stable, but the order going in is unspecified anyway.
- Hard's key compares `score - distance` in floating point. The model uses an integer key,
  and `Ordering.KeyOrderMatches` shows the two orders agree for real distances. Rounding of
  `Math.Sqrt` is not modelled.
- VeryHard's `CalculateDistance` takes the square root of the squared distance. The model
  sorts by the squared distance, since equal comparisons follow.
- VeryHard.AIPlayerVeryHard.GetMove: `List.Sort` is unstable, so the order of cells at equal distance is
  left open. The contract holds for some arrangement of the empty cells by distance, and
  every lemma holds for every such arrangement.
- The unused constants `NumberOfSimulations` and `ExplorationParameter` are not modelled.
  There is no Monte-Carlo search in the source.
- The search methods of Medium and Hard are both `Search.MinMax` over a context. The
  context selects the evaluator, the player numbers and the game's current player, which
  stays fixed during a search.
- Nested loops whose bodies are long are split into helper methods with their own
  contracts, such as `TryCell`, `TryCandidate`, `SearchPass`, `CheckCell`, `CheckRow`, `ScanRow`,
  `SimulateMove` and `CountAlong`. The order of board reads and writes is the source's.
- VeryHard's negative-direction loops step through `row - i*dr`. The model walks the
  reversed direction, `row + i*(-dr)`, which reaches the same cells (`Potential.NegOffset`).
- The `gomoku` argument of VeryHard's `GetMove` is never used, and the model does not store it.
- Medium's and Hard's `GetMove` throw when no move beats `int.MinValue`. The model returns
  `Err(NoValidMoves)` instead. VeryHard indexes an empty list on a full board, which the
  model returns as `Err(NoAvailableMoves)`.
