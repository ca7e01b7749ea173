# Game of Life engines, modelled in Dafny

The repository holds three implementations of one generation step of
Conway's Game of Life on a bounded board with hard edges (no wrap-around):

- `no_conditionals.py` keeps a dense grid of cell states and a parallel grid
  of live-neighbour counters. The branches of the step are written as
  dictionary lookups instead of `if` statements.
  `delta_neighbors` adds ±1 to the counters around a cell, `init_neighbors`
  rebuilds them, and `advance` first classifies every cell, then commits the
  births and deaths while keeping the counters up to date.
- `game_of_life.py` has the same design on a fixed 4 x 4 board, written with
  plain branches. Its test meant to skip the centre offset compares a tuple
  with `0`, so it never fires. Each counter therefore counts the whole
  clipped 3 x 3 window, the cell itself included.
- `short_fns.py` stores only the set of live coordinates. It counts how often
  each coordinate is next to a live cell, builds the sets of cells that die
  and are born, and keeps what lies on the board.

The model is split into modules:

| module | holds |
|---|---|
| `Board` | Cells, coordinates, grids, the rule `NextState`, live sets and live counts, Python slicing. |
| `Neighborhood` | The offset sets. The reference count `Hits` is the set of live cells whose offset to p is one of the offsets. |
| `Incremental` | The dense game state shared by both dense engines. It is written once and parameterised by the offset set, and by the function that turns a cell and its count into an action. |
| `NoConditionals` | Instantiates `Incremental` for `no_conditionals.py`: king moves and the dictionary tables. |
| `GameOfLife` | Instantiates `Incremental` for `game_of_life.py`: the 3 x 3 window and the branches. |
| `ShortFns` | Models `short_fns.py` as pure set functions. Its step is proved equal to the dense step. |

The central invariant is `Incremental.Tracks`: every counter equals the
reference count of its cell. It holds after `init_neighbors`, and `advance`
keeps it. Each commit changes a cell and the counters it covers by the same
step, so the difference between a counter and its reference count never
moves (`Incremental.SameDistance`).

Randomness is a parameter of each seed operation:
- `no_conditionals.py` seed takes the shuffled list of dead cells, which must
  be a permutation of `get_dead_cells()`.
- `game_of_life.py` seed takes the stream of cells `random.choice` /
  `random.randint` would draw.
- `short_fns.py` seed takes the random order of all board cells.

## Model

| member | source | states |
|---|---|---|
| Board.NextState | game_of_life.py:110-119 | A live cell stays live exactly when its count is 2 or 3. A dead cell becomes live exactly when its count is 3. |
| Board.LiveCellCount | no_conditionals.py:92-96 | `live_cell_count` is 0 exactly when no cell of the board is live. Board.LiveCellCountIsSize proves it is the number of live cells. |
| Board.LiveCellCountIsSize | no_conditionals.py:92-96 | Summing the 0/1 row entries gives the number of live cells on the board. |
| Neighborhood.NeighborsMap | no_conditionals.py:47-54 | `neighbors_map` is exactly the offsets in {-1,0,1}² other than (0,0). It has 8 elements. |
| Neighborhood.Window | game_of_life.py:70-73 | The loops visit every offset in {-1,0,1}², the centre included, because the skip test never holds. That is 9 offsets. |
| Neighborhood.OffsetListsCoverBlocks | game_of_life.py:70-71 | The two offset lists have no repeats. They enumerate exactly the 3 x 3 block, and the block without its centre. |
| Neighborhood.CoversMeans | no_conditionals.py:124-129 | A neighbour offset leads from q to p exactly when q is a king move from p. A window offset does exactly when q is within one row and one column of p. |
| Neighborhood.WindowCountsCentre | game_of_life.py:72 | The window count is the live king-move neighbour count, plus one when the cell itself is live. |
| Neighborhood.HitsBound | no_conditionals.py:167 | A reference count is at most the number of offsets, so at most 8 for king moves. |
| Neighborhood.TwoByTwoCounts | test_gol.py:26-42 | On a 2 x 2 board the window of a cell sees every live cell. Its king moves see every live cell but itself. |
| Incremental.ZeroOut | no_conditionals.py:57-67 | The board keeps the game's dimensions. Every cell is dead and every counter is 0. |
| Incremental.ZeroOutIsEmptyAndTracked | no_conditionals.py:57-67 | After `zero_out` no cell is live, the live count is 0, and the counters are correct for any neighbourhood. |
| Incremental.DeltaNeighbors | no_conditionals.py:111-136 | Fails with `StepNotUnit` exactly when the step is not ±1. Otherwise the step is added to every on-board counter the offsets reach from the cell. All other counters keep their values and the shape is kept. |
| Incremental.InitNeighbors | no_conditionals.py:144-156 | Whatever the old counters held, every new counter equals its cell's reference count. |
| Incremental.FlipKeepsDistance | no_conditionals.py:193-200 | Flipping one cell while bumping the counters it reaches by the same step keeps every counter's distance to its reference count. |
| Incremental.Commit | no_conditionals.py:192-200 | Queued births become live and queued deaths dead. Every other cell keeps its state. Every counter keeps its distance to its reference count. Empty queues change nothing. |
| Incremental.RuleAction | no_conditionals.py:166-182 | The action is no-op exactly when the rule keeps the state. It is kill exactly when a live cell dies, and birth exactly when a dead cell comes alive. |
| Incremental.Classify | no_conditionals.py:184-190 | Fails exactly when some cell's count has no action, with that cell's error. Otherwise the queues list, in row-major order, exactly the cells to be born and the cells to die. |
| Incremental.QueuedCellsFlip | no_conditionals.py:184-190 | Every queued birth is dead and every queued death is live, so the queues are disjoint. Neither queue repeats a cell. |
| Incremental.QueuedCellsFollowRule | no_conditionals.py:184-200 | Applying the queues gives every cell the rule's verdict on the counts read before any change. |
| Incremental.QueuedMeansChanged | no_conditionals.py:203 | If either queue is non-empty, the board after the commit differs from the board before. |
| Incremental.Advance | no_conditionals.py:158-203 | Fails exactly when some count is undecided. Otherwise every cell follows the rule on the old counts, counters keep their distance to the reference count, the flag is set exactly when a cell changed, and an unset flag means an unchanged game. |
| Incremental.AdvanceKeepsTracking | no_conditionals.py:184-200 | Correct counters before the step stay correct after it, and the new board is the reference generation. |
| Incremental.TrackedCountsBounded | no_conditionals.py:167 | Correct counters lie between 0 and the number of offsets. |
| NoConditionals.New | no_conditionals.py:33-54 | Fails with `NeedRowsAndCols` exactly when rows or cols is below 1. Otherwise the game has those dimensions, no live cell and correct counters. |
| NoConditionals.DeltaNeighbors | no_conditionals.py:111-136 | Fails exactly for steps other than ±1. Otherwise exactly the counters of the king-move neighbours change, by the step. |
| NoConditionals.IncrementNeighbors | no_conditionals.py:138-139 | Exactly the king-move neighbours' counters go up by one. |
| NoConditionals.DecrementNeighbors | no_conditionals.py:141-142 | Exactly the king-move neighbours' counters go down by one. |
| NoConditionals.InitNeighbors | no_conditionals.py:144-156 | Every counter becomes the number of live king-move neighbours of its cell. |
| NoConditionals.DeadCells | no_conditionals.py:98-108 | Lists exactly the dead cells on the board, in row-major order. |
| NoConditionals.DeadCellsCount | no_conditionals.py:98-108 | There are rows·cols minus the live count dead cells. |
| NoConditionals.ShuffledDeadCells | no_conditionals.py:86 | Any shuffle of the dead cells has no repeats and the same length, and holds only dead on-board cells. |
| NoConditionals.SeedAddsCells | no_conditionals.py:88-89 | Setting distinct dead cells live adds exactly those cells to the live set, and their number to the live count. |
| NoConditionals.Seed | no_conditionals.py:77-90 | The live set grows by exactly the first `num_cells` shuffled dead cells, with Python slicing for negative counts. The live count grows by `min(num_cells, #dead)` for non-negative counts. The counters are correct afterwards. |
| NoConditionals.TablesFollowRule | no_conditionals.py:166-182 | The two dictionary tables give the rule's action for counts 0..8. Any other count is a `KeyError`. |
| NoConditionals.TableDecidesAll | no_conditionals.py:184-190 | The scan gets through every cell exactly when every counter lies in 0..8. |
| NoConditionals.TrackedCountsInTable | no_conditionals.py:144-156 | Correct counters never raise the `KeyError`. |
| NoConditionals.Advance | no_conditionals.py:158-203 | Fails exactly when some counter is outside 0..8. Otherwise each cell follows the rule on the old counts, every counter keeps its distance to its live king-move count (the commit steps it by ±1 with each flipped neighbour), and the flag is set exactly when a cell changed. From correct counters the step cannot fail, gives each cell the rule's verdict on its live king-move neighbours, and leaves the counters correct. |
| NoConditionals.TrackedAdvanceIsLife | no_conditionals.py:184-200 | After a step from correct counters, the counters are still correct and every cell follows the rule on its live king-move neighbours. |
| NoConditionals.TrackedCountsAreNeighbors | no_conditionals.py:144-156 | Correct counters hold each cell's number of live king-move neighbours. |
| NoConditionals.FullTwoByTwoIsStill | no_conditionals.py:166-174 | A full 2 x 2 board is a still life: every cell has three live neighbours. |
| NoConditionals.ThreeOfTwoByTwoFill | no_conditionals.py:166-182 | Three live cells of a 2 x 2 board fill it. |
| GameOfLife.New | game_of_life.py:20-34 | The board is 4 x 4 with no live cell and correct window counters. |
| GameOfLife.DeltaNeighbors | game_of_life.py:65-80 | Fails exactly for steps other than ±1. Otherwise every on-board counter in the 3 x 3 window, centre included, changes by the step, and nothing else changes. |
| GameOfLife.IncrementNeighbors | game_of_life.py:82-83 | Every window counter around the cell, its own included, goes up by one. |
| GameOfLife.DecrementNeighbors | game_of_life.py:85-86 | Every window counter around the cell, its own included, goes down by one. |
| GameOfLife.InitNeighbors | game_of_life.py:88-98 | Each counter becomes the number of live king-move neighbours, plus one if the cell itself is live. |
| GameOfLife.TrackedCountsAreWindows | game_of_life.py:88-98 | Correct window counters hold the live neighbours plus the cell itself. |
| GameOfLife.WindowCountAt | game_of_life.py:70-80 | A cell's window count is its live neighbours plus itself when live. |
| GameOfLife.TryPlace | game_of_life.py:46-55 | Up to five draws. If one is dead, the earlier draws of the round were all live, and exactly that cell becomes live: the board is the old one with that cell set. After five live draws nothing changes. |
| GameOfLife.PlaceCells | game_of_life.py:45-56 | No cell dies, and only drawn cells become live. At most `num_cells` cells are added. If fewer were added, the last five draws all hit live cells. |
| GameOfLife.Seed | game_of_life.py:44-57 | The same as PlaceCells, after which the window counters are correct. |
| GameOfLife.BranchesFollowRule | game_of_life.py:107-121 | The branches give the rule's action for every count and never fail. |
| GameOfLife.Advance | game_of_life.py:101-134 | Each cell follows the rule on the old counters, every counter keeps its distance to its window count (the commit steps it by ±1 with each flipped cell of its window), and the flag is set exactly when a cell changed. From correct counters each cell follows the rule on its live neighbours plus itself, and the counters stay correct. |
| GameOfLife.TrackedAdvanceIsWindowLife | game_of_life.py:101-134 | After a step from correct window counters, the new board is the window-rule generation and the counters are still correct. |
| GameOfLife.FullTwoByTwoDies | test_gol.py:35-42 | A full 2 x 2 board dies entirely in one step, since every window count is 4. |
| GameOfLife.ThreeOfTwoByTwoFill | test_gol.py:26-33 | Three live cells of a 2 x 2 board fill it: the dead cell's window count is 3 and the live cells' is 3. |
| ShortFns.New | short_fns.py:22-25 | The game has the given dimensions and no live cell. |
| ShortFns.GetDenseCells | short_fns.py:32-33 | Holds exactly the on-board coordinates, rows·cols of them. |
| ShortFns.ZeroOut | short_fns.py:35-36 | The dimensions are kept and the live count is 0. |
| ShortFns.LiveCount | short_fns.py:53-54 | `live_cell_count` is 0 exactly when the live set is empty. |
| ShortFns.LiveCountFitsBoard | short_fns.py:53-54 | While the live cells lie on the board, there are at most rows·cols of them. |
| ShortFns.Seed | short_fns.py:48-51 | The live set is exactly the first `num_cells` cells of the random order, so it lies on the board. Its size is `min(num_cells, rows·cols)` for non-negative counts. |
| ShortFns.GetNeighborCounts | short_fns.py:56-66 | A coordinate is a key exactly when some live cell is a king move away, off-board coordinates included. Its value is the number of such live cells. |
| ShortFns.AddNeighbors | short_fns.py:58-65 | Counting one more live cell's neighbours keeps the counts exact for the cells done so far. |
| ShortFns.LifeStep | short_fns.py:72 | The next live set always lies on the board. |
| ShortFns.NextLiveCells | short_fns.py:69-72 | Removing the cells to die, adding those to be born and intersecting with the board gives the rule's next generation. |
| ShortFns.Advance | short_fns.py:68-72 | The board moves one generation and the dimensions are kept. The return value is None. |
| ShortFns.AdvanceReportingChange | short_fns.py:68-72 | The same step, returning whether the live set changed. |
| ShortFns.SparseMatchesDense | short_fns.py:62-72 | For a live set on the board, the sparse step equals the dense step with king-move counts. |
| ShortFns.TallyOfToGrid | short_fns.py:56-66 | On the grid of a live set, the dense reference count is the sparse neighbour count. |
| ShortFns.FullTwoByTwoIsStill | test_short.py:53-59 | A full 2 x 2 board does not change in a step. |
| ShortFns.ThreeOfTwoByTwoFill | test_short.py:26-33 | Three live cells of a 2 x 2 board become all four, so the step changes the board. |
| ShortFns.FullThreeByThreeLeavesCorners | test_short.py:35-43 | A full 3 x 3 board keeps exactly its four corners. |
| ShortFns.CornersDie | test_short.py:45-47 | The four corners of a 3 x 3 board all die and nothing is born. |
| ShortFns.EmptyStaysEmpty | test_short.py:49-50 | An empty board stays empty. |
| ShortFns.FullThreeByThreeDiesOut | test_short.py:35-50 | A full 3 x 3 board goes to its corners, then to nothing, then stays empty. |

## Left out

- `dump`, `pprint`, `print` and `main` with its `time.sleep` loop are console output and a delay. They are not modelled.
- The `random` module is replaced by parameters: the shuffled dead list, the stream of drawn cells and the random order of the board.
- `randcell` in short_fns.py (lines 45-46) is never called. It is not modelled.
- The `if False:` block in no_conditionals.py `seed` (lines 81-85) can never run. It is not modelled.
- The `else: raise AssertionError("Bad cell state")` branch of game_of_life.py `advance` (lines 120-121) is unreachable. Cells are the datatype `Dead | Live`, and the source only ever stores 0 or 1.
- Default argument values (`rows=4, cols=4`, `step=0`) are not modelled. Every operation takes its arguments explicitly. `step=0` is one of the steps `DeltaNeighbors` rejects.
- The `is` comparisons against the small integers 0 and 1 are modelled as equality.
- Mutation of the Python lists in place is modelled as returning new values.
- The unittest scaffolding in test_gol.py and test_short.py is not modelled. It serves only as the source of the scenario lemmas. test_gol.py calls `GameOfLife(rows=..., cols=...)`, which game_of_life.py does not accept. Its scenarios are stated for any 2 x 2 board.
- ShortFns.New: short_fns.py does not check the size, so neither does the model. test_short.py:9-15 passes whichever way the constructor behaves.
- ShortFns.SparseMatchesDense requires the live set to lie on the board. The sparse engine keeps it there after `seed` and every `advance`, but a live set placed off the board by hand is not compared with the dense engine.

## Findings

| source | as written | input that shows it | evidently intended | confidence | as-written member | corrected member |
|---|---|---|---|---|---|---|
| game_of_life.py:72 | `(rowoffset, coloffset) == 0` compares a tuple with an integer and is never true, so each counter also counts its own cell. | A full 2 x 2 board: every count is 4, so all four cells die (test_gol.py:35-42 asserts this). | Skip the centre, as the docstring's "all neighbors (8)" says. Then a full 2 x 2 board is a still life. | not executed; the comparison is false for every tuple | GameOfLife.FullTwoByTwoDies | NoConditionals.FullTwoByTwoIsStill |
| short_fns.py:68-72 | `advance` has no `return` statement, so it returns None. | A 2 x 2 board with three live cells: the step fills the board, yet the result is None where test_short.py:31-32 expects True. | Return whether the live set changed, as the other two engines do. | not executed; a Python function without `return` yields None | ShortFns.Advance | ShortFns.AdvanceReportingChange |
