/** game_of_life.py: the first dense engine, fixed at 4 x 4. Its
    `delta_neighbors` tries to skip the cell itself with the test
    `(rowoffset, coloffset) == 0`, which compares a pair with a number and
    never holds, so every counter covers the whole 3 x 3 window around its
    cell, the cell included. The model keeps that behaviour. */
module GameOfLife {
  import opened Board
  import opened Neighborhood
  import opened Incremental

  /** The fixed board size of `GameOfLife()`. */
  const Size: int := 4

  /** `GameOfLife()`: a 4 x 4 board, every cell dead, every counter 0. */
  function New(): (g: Game)
    ensures g.dimensions == (Size, Size) && g.WellShaped()
    ensures LiveSet(g.cellStates, Size, Size) == {}
    ensures Tracks(g.cellStates, g.liveNeighborCounts, Size, Size, Window())
  {
    var blank := Game((Size, Size), [], []);
    ZeroOutIsEmptyAndTracked(blank, Window());
    ZeroOut(blank)
  }

  /** `delta_neighbors` as written: step the counter of every in-bounds cell
      of the 3 x 3 window centred on (row, col), that cell's own counter
      included; a step other than +1 or -1 is refused. */
  method DeltaNeighbors(g: Game, row: int, col: int, step: int) returns (r: Result<Game>)
    requires g.WellShaped()
    ensures r.Err? <==> step != 1 && step != -1
    ensures r.Err? ==> r.error == StepNotUnit
    ensures r.Ok? ==> r.value.dimensions == g.dimensions && r.value.cellStates == g.cellStates
    ensures r.Ok? ==> r.value.WellShaped()
    ensures r.Ok? ==> forall i, j :: 0 <= i < g.dimensions.0 && 0 <= j < g.dimensions.1 ==>
              r.value.liveNeighborCounts[i][j]
              == g.liveNeighborCounts[i][j] + (if -1 <= i - row <= 1 && -1 <= j - col <= 1 then step else 0)
  {
    var counts := Incremental.DeltaNeighbors(g.liveNeighborCounts, g.dimensions.0, g.dimensions.1,
                                             Window(), (row, col), step);
    if counts.Err? {
      return Err(counts.error);
    }
    forall i, j | 0 <= i < g.dimensions.0 && 0 <= j < g.dimensions.1
      ensures Covers(Window(), (row, col), (i, j)) <==> -1 <= i - row <= 1 && -1 <= j - col <= 1
    {
      CoversMeans((row, col), (i, j));
    }
    r := Ok(Game(g.dimensions, g.cellStates, counts.value));
  }

  /** `increment_neighbors`: add one across the window. */
  method IncrementNeighbors(g: Game, row: int, col: int) returns (g': Game)
    requires g.WellShaped()
    ensures g'.dimensions == g.dimensions && g'.cellStates == g.cellStates && g'.WellShaped()
    ensures forall i, j :: 0 <= i < g.dimensions.0 && 0 <= j < g.dimensions.1 ==>
              g'.liveNeighborCounts[i][j]
              == g.liveNeighborCounts[i][j] + (if -1 <= i - row <= 1 && -1 <= j - col <= 1 then 1 else 0)
  {
    var r := DeltaNeighbors(g, row, col, 1);
    g' := r.value;
  }

  /** `decrement_neighbors`: take one across the window. */
  method DecrementNeighbors(g: Game, row: int, col: int) returns (g': Game)
    requires g.WellShaped()
    ensures g'.dimensions == g.dimensions && g'.cellStates == g.cellStates && g'.WellShaped()
    ensures forall i, j :: 0 <= i < g.dimensions.0 && 0 <= j < g.dimensions.1 ==>
              g'.liveNeighborCounts[i][j]
              == g.liveNeighborCounts[i][j] - (if -1 <= i - row <= 1 && -1 <= j - col <= 1 then 1 else 0)
  {
    var r := DeltaNeighbors(g, row, col, -1);
    g' := r.value;
  }

  /** `init_neighbors`: every counter becomes the number of live cells in its
      window, which is the number of live neighbours plus one for a live cell. */
  method InitNeighbors(g: Game) returns (g': Game)
    requires g.WellShaped()
    ensures g'.dimensions == g.dimensions && g'.cellStates == g.cellStates && g'.WellShaped()
    ensures Tracks(g'.cellStates, g'.liveNeighborCounts, g.dimensions.0, g.dimensions.1, Window())
    ensures forall i, j :: 0 <= i < g.dimensions.0 && 0 <= j < g.dimensions.1 ==>
              g'.liveNeighborCounts[i][j]
              == |LiveNeighbors(LiveSet(g.cellStates, g.dimensions.0, g.dimensions.1), (i, j))|
                 + (if g.cellStates[i][j] == Live then 1 else 0)
  {
    var (rows, cols) := g.dimensions;
    var counts := Incremental.InitNeighbors(g.cellStates, g.liveNeighborCounts, rows, cols, Window());
    g' := Game(g.dimensions, g.cellStates, counts);
    TrackedCountsAreWindows(g.cellStates, counts, rows, cols);
  }

  /** Counters that track the window count the live neighbours plus the cell itself. */
  lemma TrackedCountsAreWindows(cells: seq<seq<Cell>>, counts: seq<seq<int>>, rows: int, cols: int)
    requires Tracks(cells, counts, rows, cols, Window())
    ensures forall i, j :: 0 <= i < rows && 0 <= j < cols ==>
              counts[i][j] == |LiveNeighbors(LiveSet(cells, rows, cols), (i, j))| + (if cells[i][j] == Live then 1 else 0)
  {
    var live := LiveSet(cells, rows, cols);
    forall i, j | 0 <= i < rows && 0 <= j < cols
      ensures counts[i][j] == |LiveNeighbors(live, (i, j))| + (if cells[i][j] == Live then 1 else 0)
    {
      assert counts[i][j] == |Hits(live, Window(), (i, j))|;
      WindowCountAt(cells, rows, cols, i, j);
    }
  }

  /** The window count at one cell. */
  lemma WindowCountAt(cells: seq<seq<Cell>>, rows: int, cols: int, i: int, j: int)
    requires Shaped(cells, rows, cols) && InBounds(rows, cols, (i, j))
    ensures |Hits(LiveSet(cells, rows, cols), Window(), (i, j))|
            == |LiveNeighbors(LiveSet(cells, rows, cols), (i, j))| + (if cells[i][j] == Live then 1 else 0)
  {
    var live := LiveSet(cells, rows, cols);
    HitsAreWindow(live, (i, j));
    WindowCountsCentre(live, (i, j));
    assert (i, j) in live <==> cells[i][j] == Live;
  }

  /** The cells drawn by the first t random attempts. */
  function Drawn(pick: nat -> Coord, t: nat): set<Coord> {
    set s: nat | s < t :: pick(s)
  }

  /** `seed`: while cells remain to be placed, draw up to five random cells
      and bring the first dead one drawn to life; five live draws in a row
      end the seeding early. Then recompute every counter. The random draws
      are a parameter: attempt number s draws pick(s). tries is the number of
      draws made. */
  method Seed(g: Game, numCells: int, pick: nat -> Coord) returns (g': Game, tries: nat)
    requires g.WellShaped()
    requires forall s: nat :: InBounds(g.dimensions.0, g.dimensions.1, pick(s))
    ensures g'.dimensions == g.dimensions && g'.WellShaped()
    ensures LiveSet(g.cellStates, g.dimensions.0, g.dimensions.1) <= LiveSet(g'.cellStates, g.dimensions.0, g.dimensions.1)
    ensures LiveSet(g'.cellStates, g.dimensions.0, g.dimensions.1)
            <= LiveSet(g.cellStates, g.dimensions.0, g.dimensions.1) + Drawn(pick, tries)
    ensures |LiveSet(g'.cellStates, g.dimensions.0, g.dimensions.1)|
            <= |LiveSet(g.cellStates, g.dimensions.0, g.dimensions.1)| + (if numCells > 0 then numCells else 0)
    ensures |LiveSet(g'.cellStates, g.dimensions.0, g.dimensions.1)|
            < |LiveSet(g.cellStates, g.dimensions.0, g.dimensions.1)| + (if numCells > 0 then numCells else 0)
            ==> 5 <= tries && forall s :: tries - 5 <= s < tries ==> pick(s) in LiveSet(g'.cellStates, g.dimensions.0, g.dimensions.1)
    ensures Tracks(g'.cellStates, g'.liveNeighborCounts, g.dimensions.0, g.dimensions.1, Window())
  {
    var cells;
    cells, tries := PlaceCells(g.cellStates, g.dimensions.0, g.dimensions.1, numCells, pick);
    g' := InitNeighbors(Game(g.dimensions, cells, g.liveNeighborCounts));
  }

  /** The placement loop of `seed`, before the counters are recomputed. */
  method PlaceCells(cells: seq<seq<Cell>>, rows: int, cols: int, numCells: int, pick: nat -> Coord)
    returns (cells': seq<seq<Cell>>, tries: nat)
    requires Shaped(cells, rows, cols)
    requires forall s: nat :: InBounds(rows, cols, pick(s))
    ensures Shaped(cells', rows, cols)
    ensures LiveSet(cells, rows, cols) <= LiveSet(cells', rows, cols) <= LiveSet(cells, rows, cols) + Drawn(pick, tries)
    ensures |LiveSet(cells', rows, cols)| <= |LiveSet(cells, rows, cols)| + (if numCells > 0 then numCells else 0)
    ensures |LiveSet(cells', rows, cols)| < |LiveSet(cells, rows, cols)| + (if numCells > 0 then numCells else 0)
            ==> 5 <= tries && forall s :: tries - 5 <= s < tries ==> pick(s) in LiveSet(cells', rows, cols)
  {
    ghost var live0 := LiveSet(cells, rows, cols);
    cells' := cells;
    var n := numCells;
    var stop := false;
    tries := 0;
    while n > 0 && !stop
      invariant Shaped(cells', rows, cols)
      invariant numCells > 0 ==> 0 <= n <= numCells
      invariant numCells <= 0 ==> n == numCells
      invariant live0 <= LiveSet(cells', rows, cols) <= live0 + Drawn(pick, tries)
      invariant |LiveSet(cells', rows, cols)| == |live0| + (numCells - n)
      invariant stop ==> 5 <= tries && forall s :: tries - 5 <= s < tries ==> pick(s) in LiveSet(cells', rows, cols)
      decreases n, if stop then 0 else 1
    {
      var placed;
      cells', tries, placed := TryPlace(cells', rows, cols, pick, tries, live0);
      if placed {
        n := n - 1;
      } else {
        stop := true;
      }
    }
  }

  /** One round of the `for attempt in range(5)` loop: draw until a dead
      cell comes up, at most five times, and bring it to life. */
  method TryPlace(cells: seq<seq<Cell>>, rows: int, cols: int, pick: nat -> Coord, tries: nat, ghost live0: set<Coord>)
    returns (cells': seq<seq<Cell>>, tries': nat, placed: bool)
    requires Shaped(cells, rows, cols)
    requires forall s: nat :: InBounds(rows, cols, pick(s))
    requires live0 <= LiveSet(cells, rows, cols) <= live0 + Drawn(pick, tries)
    ensures Shaped(cells', rows, cols)
    ensures tries < tries' <= tries + 5
    ensures live0 <= LiveSet(cells', rows, cols) <= live0 + Drawn(pick, tries')
    ensures placed ==> pick(tries' - 1) !in LiveSet(cells, rows, cols)
    ensures placed ==> cells' == SetCell(cells, pick(tries' - 1), Live)
    ensures placed ==> LiveSet(cells', rows, cols) == LiveSet(cells, rows, cols) + {pick(tries' - 1)}
    ensures placed ==> |LiveSet(cells', rows, cols)| == |LiveSet(cells, rows, cols)| + 1
    ensures placed ==> forall s :: tries <= s < tries' - 1 ==> pick(s) in LiveSet(cells, rows, cols)
    ensures !placed ==> cells' == cells && tries' == tries + 5
    ensures !placed ==> forall s :: tries <= s < tries' ==> pick(s) in LiveSet(cells, rows, cols)
  {
    cells', tries', placed := cells, tries, false;
    var attempt := 0;
    while attempt < 5
      invariant 0 <= attempt <= 5 && tries' == tries + attempt
      invariant forall s :: tries <= s < tries' ==> pick(s) in LiveSet(cells, rows, cols)
      invariant Drawn(pick, tries) <= Drawn(pick, tries')
    {
      var p := pick(tries');
      tries' := tries' + 1;
      attempt := attempt + 1;
      if cells[p.0][p.1] == Dead {
        cells' := SetCell(cells, p, Live);
        placed := true;
        LiveSetAfterSet(cells, rows, cols, p, Live);
        assert p in Drawn(pick, tries');
        return;
      }
    }
  }

  /** The if/elif chain of `advance`: a live cell with fewer than two or more
      than three dies, a dead cell with exactly three is born. Cell has no
      third value, so the "Bad cell state" branch cannot be reached. */
  function BranchAction(c: Cell, n: int): Result<Action> {
    match c
    case Live =>
      if n < 2 then Ok(KillThisCell)
      else if 3 < n then Ok(KillThisCell)
      else Ok(NoOp)
    case Dead =>
      if 3 == n then Ok(BirthThisCell) else Ok(NoOp)
  }

  /** The branches answer every count, and answer as the rule does. */
  lemma BranchesFollowRule()
    ensures FollowsRule(BranchAction)
    ensures forall c, n :: BranchAction(c, n).Ok?
  {
  }

  /** `advance`: classify every cell from its stored counter, then commit the
      births and deaths with their counter steps; report whether any cell
      changed. When the counters tracked the window, each cell follows the
      rule applied to its live neighbours PLUS ITSELF, and the counters keep
      tracking the window. */
  method Advance(g: Game) returns (g': Game, changed: bool)
    requires g.WellShaped()
    ensures g'.dimensions == g.dimensions && g'.WellShaped()
    ensures forall i, j :: 0 <= i < g.dimensions.0 && 0 <= j < g.dimensions.1 ==>
              g'.cellStates[i][j] == NextState(g.cellStates[i][j], g.liveNeighborCounts[i][j])
    ensures SameDistance(g.cellStates, g.liveNeighborCounts, g'.cellStates, g'.liveNeighborCounts,
                         g.dimensions.0, g.dimensions.1, Window())
    ensures changed <==> g'.cellStates != g.cellStates
    ensures !changed ==> g' == g
    ensures Tracks(g.cellStates, g.liveNeighborCounts, g.dimensions.0, g.dimensions.1, Window()) ==>
              && Tracks(g'.cellStates, g'.liveNeighborCounts, g.dimensions.0, g.dimensions.1, Window())
              && g'.cellStates == DenseStep(g.cellStates, g.dimensions.0, g.dimensions.1, Window())
              && forall i, j :: 0 <= i < g.dimensions.0 && 0 <= j < g.dimensions.1 ==>
                   g'.cellStates[i][j]
                   == NextState(g.cellStates[i][j],
                                |LiveNeighbors(LiveSet(g.cellStates, g.dimensions.0, g.dimensions.1), (i, j))|
                                + (if g.cellStates[i][j] == Live then 1 else 0))
  {
    var (rows, cols) := g.dimensions;
    BranchesFollowRule();
    var r := Incremental.Advance(g, Window(), BranchAction);
    g', changed := r.value.0, r.value.1;
    if Tracks(g.cellStates, g.liveNeighborCounts, rows, cols, Window()) {
      TrackedAdvanceIsWindowLife(g, g');
    }
  }

  /** When tracked counters drive the step, the new board is the rule applied
      to the window counts, and the counters keep tracking the window. */
  lemma TrackedAdvanceIsWindowLife(g: Game, g': Game)
    requires g.WellShaped() && g'.WellShaped() && g'.dimensions == g.dimensions
    requires Tracks(g.cellStates, g.liveNeighborCounts, g.dimensions.0, g.dimensions.1, Window())
    requires SameDistance(g.cellStates, g.liveNeighborCounts, g'.cellStates, g'.liveNeighborCounts,
                          g.dimensions.0, g.dimensions.1, Window())
    requires forall i, j :: 0 <= i < g.dimensions.0 && 0 <= j < g.dimensions.1 ==>
               g'.cellStates[i][j] == NextState(g.cellStates[i][j], g.liveNeighborCounts[i][j])
    ensures Tracks(g'.cellStates, g'.liveNeighborCounts, g.dimensions.0, g.dimensions.1, Window())
    ensures g'.cellStates == DenseStep(g.cellStates, g.dimensions.0, g.dimensions.1, Window())
    ensures forall i, j :: 0 <= i < g.dimensions.0 && 0 <= j < g.dimensions.1 ==>
              g'.cellStates[i][j]
              == NextState(g.cellStates[i][j],
                           |LiveNeighbors(LiveSet(g.cellStates, g.dimensions.0, g.dimensions.1), (i, j))|
                           + (if g.cellStates[i][j] == Live then 1 else 0))
  {
    var (rows, cols) := g.dimensions;
    AdvanceKeepsTracking(g.cellStates, g.liveNeighborCounts, g'.cellStates, g'.liveNeighborCounts,
                         rows, cols, Window());
    TrackedCountsAreWindows(g.cellStates, g.liveNeighborCounts, rows, cols);
  }

  /** A full 2 x 2 board, counted through the window, dies out: every
      counter reads 4, which the rule treats as overcrowding. */
  lemma FullTwoByTwoDies(cells: seq<seq<Cell>>)
    requires Shaped(cells, 2, 2)
    requires forall i, j :: 0 <= i < 2 && 0 <= j < 2 ==> cells[i][j] == Live
    ensures DenseStep(cells, 2, 2, Window()) == Filled(2, 2, Dead)
  {
    FullTwoByTwoCellsDie(cells);
    DenseStepIs(cells, 2, 2, Window(), Filled(2, 2, Dead));
  }

  /** The cell-by-cell half of FullTwoByTwoDies. */
  lemma FullTwoByTwoCellsDie(cells: seq<seq<Cell>>)
    requires Shaped(cells, 2, 2)
    requires forall i, j :: 0 <= i < 2 && 0 <= j < 2 ==> cells[i][j] == Live
    ensures forall i, j :: 0 <= i < 2 && 0 <= j < 2 ==> DenseStep(cells, 2, 2, Window())[i][j] == Dead
  {
    assert |LiveSet(cells, 2, 2)| == 4 by { AllLive(cells, 2, 2); }
    forall i, j | 0 <= i < 2 && 0 <= j < 2
      ensures DenseStep(cells, 2, 2, Window())[i][j] == Dead
    {
      TwoByTwoWindowNext(cells, i, j);
      assert cells[i][j] == Live;
    }
  }

  /** Three live cells of a 2 x 2 board, counted through the window, fill it:
      each live cell sees 3 and stays, the dead one sees 3 and is born. */
  lemma ThreeOfTwoByTwoFill(cells: seq<seq<Cell>>, q: Coord)
    requires Shaped(cells, 2, 2) && InBounds(2, 2, q)
    requires forall i, j :: 0 <= i < 2 && 0 <= j < 2 ==> cells[i][j] == if (i, j) == q then Dead else Live
    ensures forall i, j :: 0 <= i < 2 && 0 <= j < 2 ==> DenseStep(cells, 2, 2, Window())[i][j] == Live
  {
    assert |LiveSet(cells, 2, 2)| == 3 by { AllButOneLive(cells, 2, 2, q); }
    forall i, j | 0 <= i < 2 && 0 <= j < 2
      ensures DenseStep(cells, 2, 2, Window())[i][j] == Live
    {
      TwoByTwoWindowNext(cells, i, j);
    }
  }
}
