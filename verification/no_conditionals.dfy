/** no_conditionals.py: the dense engine written without `if`. Choices are
    made by indexing dictionaries, the neighbourhood is the eight king moves,
    and the rule is looked up in two tables keyed by the neighbour count. */
module NoConditionals {
  import opened Board
  import opened Neighborhood
  import opened Incremental

  /** `GameOfLife(rows, cols)`: a board without rows or without columns is
      refused; otherwise every cell starts dead with every counter at 0. */
  function New(rows: int, cols: int): (r: Result<Game>)
    ensures r.Err? <==> rows < 1 || cols < 1
    ensures r.Err? ==> r.error == NeedRowsAndCols
    ensures r.Ok? ==> r.value.dimensions == (rows, cols) && r.value.WellShaped()
    ensures r.Ok? ==> LiveSet(r.value.cellStates, rows, cols) == {}
    ensures r.Ok? ==> Tracks(r.value.cellStates, r.value.liveNeighborCounts, rows, cols, NeighborsMap())
  {
    if (if rows < cols then rows else cols) < 1 then Err(NeedRowsAndCols)
    else
      var blank := Game((rows, cols), [], []);
      ZeroOutIsEmptyAndTracked(blank, NeighborsMap());
      Ok(ZeroOut(blank))
  }

  /** `delta_neighbors`: step every in-bounds king-move neighbour of
      (row, col); a step other than +1 or -1 is refused. */
  method DeltaNeighbors(g: Game, row: int, col: int, step: int) returns (r: Result<Game>)
    requires g.WellShaped()
    ensures r.Err? <==> step != 1 && step != -1
    ensures r.Err? ==> r.error == StepNotUnit
    ensures r.Ok? ==> r.value.dimensions == g.dimensions && r.value.cellStates == g.cellStates
    ensures r.Ok? ==> r.value.WellShaped()
    ensures r.Ok? ==> forall i, j :: 0 <= i < g.dimensions.0 && 0 <= j < g.dimensions.1 ==>
              r.value.liveNeighborCounts[i][j]
              == g.liveNeighborCounts[i][j] + (if Adjacent((row, col), (i, j)) then step else 0)
  {
    var counts := Incremental.DeltaNeighbors(g.liveNeighborCounts, g.dimensions.0, g.dimensions.1,
                                             NeighborsMap(), (row, col), step);
    if counts.Err? {
      return Err(counts.error);
    }
    forall i, j | 0 <= i < g.dimensions.0 && 0 <= j < g.dimensions.1
      ensures Covers(NeighborsMap(), (row, col), (i, j)) <==> Adjacent((row, col), (i, j))
    {
      CoversMeans((row, col), (i, j));
    }
    r := Ok(Game(g.dimensions, g.cellStates, counts.value));
  }

  /** `increment_neighbors`: add one to every in-bounds king-move neighbour. */
  method IncrementNeighbors(g: Game, row: int, col: int) returns (g': Game)
    requires g.WellShaped()
    ensures g'.dimensions == g.dimensions && g'.cellStates == g.cellStates && g'.WellShaped()
    ensures forall i, j :: 0 <= i < g.dimensions.0 && 0 <= j < g.dimensions.1 ==>
              g'.liveNeighborCounts[i][j]
              == g.liveNeighborCounts[i][j] + (if Adjacent((row, col), (i, j)) then 1 else 0)
  {
    var r := DeltaNeighbors(g, row, col, 1);
    g' := r.value;
  }

  /** `decrement_neighbors`: take one from every in-bounds king-move neighbour. */
  method DecrementNeighbors(g: Game, row: int, col: int) returns (g': Game)
    requires g.WellShaped()
    ensures g'.dimensions == g.dimensions && g'.cellStates == g.cellStates && g'.WellShaped()
    ensures forall i, j :: 0 <= i < g.dimensions.0 && 0 <= j < g.dimensions.1 ==>
              g'.liveNeighborCounts[i][j]
              == g.liveNeighborCounts[i][j] - (if Adjacent((row, col), (i, j)) then 1 else 0)
  {
    var r := DeltaNeighbors(g, row, col, -1);
    g' := r.value;
  }

  /** `init_neighbors`: every counter becomes the number of live king-move neighbours. */
  method InitNeighbors(g: Game) returns (g': Game)
    requires g.WellShaped()
    ensures g'.dimensions == g.dimensions && g'.cellStates == g.cellStates && g'.WellShaped()
    ensures Tracks(g'.cellStates, g'.liveNeighborCounts, g.dimensions.0, g.dimensions.1, NeighborsMap())
    ensures forall i, j :: 0 <= i < g.dimensions.0 && 0 <= j < g.dimensions.1 ==>
              g'.liveNeighborCounts[i][j] == |LiveNeighbors(LiveSet(g.cellStates, g.dimensions.0, g.dimensions.1), (i, j))|
  {
    var (rows, cols) := g.dimensions;
    var counts := Incremental.InitNeighbors(g.cellStates, g.liveNeighborCounts, rows, cols, NeighborsMap());
    g' := Game(g.dimensions, g.cellStates, counts);
    TrackedCountsAreNeighbors(g.cellStates, counts, rows, cols);
  }

  /** `get_dead_cells`: the dead coordinates, in row-major order. */
  function DeadCells(cells: seq<seq<Cell>>, rows: int, cols: int): (ds: seq<Coord>)
    requires Shaped(cells, rows, cols)
    ensures RowMajor(ds)
    ensures forall p :: p in ds <==> InBounds(rows, cols, p) && cells[p.0][p.1] == Dead
  {
    DeadInRows(cells, rows, cols, rows)
  }

  /** The dead coordinates of rows 0 .. n - 1. */
  function DeadInRows(cells: seq<seq<Cell>>, rows: int, cols: int, n: int): (ds: seq<Coord>)
    requires Shaped(cells, rows, cols) && 0 <= n <= rows
    ensures RowMajor(ds)
    ensures forall p :: p in ds <==> InBounds(n, cols, p) && cells[p.0][p.1] == Dead
    decreases n
  {
    if n == 0 then []
    else
      var front, last := DeadInRows(cells, rows, cols, n - 1), DeadInRow(cells, rows, cols, n - 1, cols);
      RowMajorAppend(front, last);
      front + last
  }

  /** The dead coordinates (i, 0 .. m - 1) of row i. */
  function DeadInRow(cells: seq<seq<Cell>>, rows: int, cols: int, i: int, m: int): (ds: seq<Coord>)
    requires Shaped(cells, rows, cols) && 0 <= i < rows && 0 <= m <= cols
    ensures RowMajor(ds)
    ensures forall p :: p in ds <==> p.0 == i && 0 <= p.1 < m && cells[i][p.1] == Dead
    decreases m
  {
    if m == 0 then []
    else
      var front := DeadInRow(cells, rows, cols, i, m - 1);
      var last := if cells[i][m - 1] == Dead then [(i, m - 1)] else [];
      RowMajorAppend(front, last);
      front + last
  }

  /** The dead cells and the live cells make up the board. */
  lemma DeadCellsCount(cells: seq<seq<Cell>>, rows: nat, cols: nat)
    requires Shaped(cells, rows, cols)
    ensures |DeadCells(cells, rows, cols)| == rows * cols - LiveCellCount(cells)
  {
    var ds := DeadCells(cells, rows, cols);
    var live := LiveSet(cells, rows, cols);
    RowMajorDistinct(ds);
    DistinctSize(ds);
    DenseCellsSize(rows, cols);
    LiveCellCountIsSize(cells, rows, cols);
    assert Elems(ds) == DenseCells(rows, cols) - live;
    assert DenseCells(rows, cols) == Elems(ds) + live;
  }

  /** `seed`: shuffle the dead cells, bring the first numCells of them to
      life (Python slicing: a negative numCells leaves that many out, a large
      one takes them all), then recompute every counter. The shuffle is a
      parameter: shuffled is any rearrangement of the dead cells. */
  method Seed(g: Game, numCells: int, shuffled: seq<Coord>) returns (g': Game)
    requires g.WellShaped()
    requires multiset(shuffled) == multiset(DeadCells(g.cellStates, g.dimensions.0, g.dimensions.1))
    ensures g'.dimensions == g.dimensions && g'.WellShaped()
    ensures LiveSet(g'.cellStates, g.dimensions.0, g.dimensions.1)
            == LiveSet(g.cellStates, g.dimensions.0, g.dimensions.1) + Elems(shuffled[..SliceEnd(numCells, |shuffled|)])
    ensures |LiveSet(g'.cellStates, g.dimensions.0, g.dimensions.1)|
            == |LiveSet(g.cellStates, g.dimensions.0, g.dimensions.1)|
               + SliceEnd(numCells, |DeadCells(g.cellStates, g.dimensions.0, g.dimensions.1)|)
    ensures Tracks(g'.cellStates, g'.liveNeighborCounts, g.dimensions.0, g.dimensions.1, NeighborsMap())
  {
    var (rows, cols) := g.dimensions;
    var dead := DeadCells(g.cellStates, rows, cols);
    ShuffledDeadCells(g.cellStates, rows, cols, shuffled);
    var toToggleOn := shuffled[..SliceEnd(numCells, |shuffled|)];
    DeadPrefix(g.cellStates, rows, cols, shuffled, SliceEnd(numCells, |shuffled|));
    var cells := MarkAll(g.cellStates, rows, cols, toToggleOn, Live);
    SeedAddsCells(g.cellStates, cells, rows, cols, toToggleOn);
    g' := InitNeighbors(Game(g.dimensions, cells, g.liveNeighborCounts));
  }

  /** A rearrangement of the dead cells lists each dead cell once. */
  lemma ShuffledDeadCells(cells: seq<seq<Cell>>, rows: int, cols: int, shuffled: seq<Coord>)
    requires Shaped(cells, rows, cols)
    requires multiset(shuffled) == multiset(DeadCells(cells, rows, cols))
    ensures Distinct(shuffled) && |shuffled| == |DeadCells(cells, rows, cols)|
    ensures forall m :: 0 <= m < |shuffled| ==> InBounds(rows, cols, shuffled[m]) && cells[shuffled[m].0][shuffled[m].1] == Dead
  {
    var dead := DeadCells(cells, rows, cols);
    RowMajorDistinct(dead);
    PermutationKeepsDistinct(shuffled, dead);
    assert |shuffled| == |multiset(shuffled)| == |multiset(dead)| == |dead|;
    forall m | 0 <= m < |shuffled|
      ensures InBounds(rows, cols, shuffled[m]) && cells[shuffled[m].0][shuffled[m].1] == Dead
    {
      assert shuffled[m] in multiset(shuffled);
    }
  }

  /** A prefix of a list of distinct dead cells is one too. */
  lemma DeadPrefix(cells: seq<seq<Cell>>, rows: int, cols: int, shuffled: seq<Coord>, k: nat)
    requires Shaped(cells, rows, cols) && Distinct(shuffled) && k <= |shuffled|
    requires forall m :: 0 <= m < |shuffled| ==> InBounds(rows, cols, shuffled[m]) && cells[shuffled[m].0][shuffled[m].1] == Dead
    ensures Distinct(shuffled[..k])
    ensures forall m :: 0 <= m < k ==> InBounds(rows, cols, shuffled[..k][m]) && cells[shuffled[..k][m].0][shuffled[..k][m].1] == Dead
  {
    DistinctPrefix(shuffled, k);
    forall m | 0 <= m < k
      ensures InBounds(rows, cols, shuffled[..k][m]) && cells[shuffled[..k][m].0][shuffled[..k][m].1] == Dead
    {
      assert shuffled[..k][m] == shuffled[m];
    }
  }

  /** Marking distinct dead cells live adds exactly those cells to the live set. */
  lemma SeedAddsCells(cells: seq<seq<Cell>>, cells': seq<seq<Cell>>, rows: int, cols: int, on: seq<Coord>)
    requires Shaped(cells, rows, cols) && Distinct(on)
    requires forall m :: 0 <= m < |on| ==> InBounds(rows, cols, on[m]) && cells[on[m].0][on[m].1] == Dead
    requires cells' == MarkAll(cells, rows, cols, on, Live)
    ensures LiveSet(cells', rows, cols) == LiveSet(cells, rows, cols) + Elems(on)
    ensures |LiveSet(cells', rows, cols)| == |LiveSet(cells, rows, cols)| + |on|
  {
    var live, live' := LiveSet(cells, rows, cols), LiveSet(cells', rows, cols);
    assert forall p :: p in live' <==> p in live + Elems(on);
    assert live !! Elems(on);
    DistinctSize(on);
  }

  /** range(0, 9): the counts the tables were built for. */
  const TableKeys: set<int> := {0, 1, 2, 3, 4, 5, 6, 7, 8}

  /** The table of `live_action`: every count 0 .. 8 kills, except 2 and 3. */
  function LiveActionMap(): map<int, Action> {
    (map n | n in TableKeys :: KillThisCell)[2 := NoOp][3 := NoOp]
  }

  /** The table of `dead_action`: every count 0 .. 8 does nothing, except 3, which gives birth. */
  function DeadActionMap(): map<int, Action> {
    (map n | n in TableKeys :: NoOp)[3 := BirthThisCell]
  }

  /** The dispatch of `advance`: the cell's state picks the table and the
      count is looked up in it; a count that is not a key raises KeyError. */
  function TableAction(c: Cell, n: int): Result<Action> {
    var table := match c case Live => LiveActionMap() case Dead => DeadActionMap();
    if n in table then Ok(table[n]) else Err(CountNotInTable)
  }

  /** The tables encode the Game of Life rule, and they answer exactly the counts 0 .. 8. */
  lemma TablesFollowRule()
    ensures FollowsRule(TableAction)
    ensures forall c, n :: TableAction(c, n).Ok? <==> 0 <= n <= 8
    ensures forall c, n :: TableAction(c, n).Err? ==> TableAction(c, n).error == CountNotInTable
  {
    forall c: Cell, n: int
      ensures TableAction(c, n).Ok? <==> 0 <= n <= 8
      ensures TableAction(c, n).Ok? ==> TableAction(c, n).value == RuleAction(c, n)
    {
      if 0 <= n <= 8 {
        assert n in LiveActionMap() && n in DeadActionMap();
      }
    }
  }

  /** Every counter is a key of the tables. */
  ghost predicate CountsInTable(g: Game)
    requires g.WellShaped()
  {
    forall i, j :: 0 <= i < g.dimensions.0 && 0 <= j < g.dimensions.1 ==> 0 <= g.liveNeighborCounts[i][j] <= 8
  }

  /** `advance`: apply the rule to every cell through the tables, then commit
      the births and deaths and their counter steps; report whether any cell
      changed. A counter outside 0 .. 8 raises KeyError before anything changes.
      When the counters tracked the king-move neighbours, the new board is the
      next Game of Life generation and the counters still track it. */
  method Advance(g: Game) returns (r: Result<(Game, bool)>)
    requires g.WellShaped()
    ensures r.Err? <==> !CountsInTable(g)
    ensures r.Err? ==> r.error == CountNotInTable
    ensures r.Ok? ==> r.value.0.dimensions == g.dimensions && r.value.0.WellShaped()
    ensures r.Ok? ==> forall i, j :: 0 <= i < g.dimensions.0 && 0 <= j < g.dimensions.1 ==>
              r.value.0.cellStates[i][j] == NextState(g.cellStates[i][j], g.liveNeighborCounts[i][j])
    ensures r.Ok? ==> SameDistance(g.cellStates, g.liveNeighborCounts, r.value.0.cellStates, r.value.0.liveNeighborCounts,
                                   g.dimensions.0, g.dimensions.1, NeighborsMap())
    ensures r.Ok? ==> (r.value.1 <==> r.value.0.cellStates != g.cellStates)
    ensures r.Ok? && !r.value.1 ==> r.value.0 == g
    ensures Tracks(g.cellStates, g.liveNeighborCounts, g.dimensions.0, g.dimensions.1, NeighborsMap()) ==>
              && r.Ok?
              && Tracks(r.value.0.cellStates, r.value.0.liveNeighborCounts, g.dimensions.0, g.dimensions.1, NeighborsMap())
              && forall i, j :: 0 <= i < g.dimensions.0 && 0 <= j < g.dimensions.1 ==>
                   r.value.0.cellStates[i][j]
                   == NextState(g.cellStates[i][j], |LiveNeighbors(LiveSet(g.cellStates, g.dimensions.0, g.dimensions.1), (i, j))|)
  {
    var (rows, cols) := g.dimensions;
    TablesFollowRule();
    r := Incremental.Advance(g, NeighborsMap(), TableAction);
    TableDecidesAll(g);
    if Tracks(g.cellStates, g.liveNeighborCounts, rows, cols, NeighborsMap()) {
      TrackedCountsInTable(g);
      TrackedAdvanceIsLife(g, r.value.0);
    }
  }

  /** The scan gets through the tables exactly when every counter is a key. */
  lemma TableDecidesAll(g: Game)
    requires g.WellShaped()
    ensures Decided(TableAction, g.cellStates, g.liveNeighborCounts, g.dimensions.0, g.dimensions.1) <==> CountsInTable(g)
  {
    TablesFollowRule();
  }

  /** Tracked counters are always keys of the tables. */
  lemma TrackedCountsInTable(g: Game)
    requires g.WellShaped()
    requires Tracks(g.cellStates, g.liveNeighborCounts, g.dimensions.0, g.dimensions.1, NeighborsMap())
    ensures CountsInTable(g)
  {
    TrackedCountsBounded(g.cellStates, g.liveNeighborCounts, g.dimensions.0, g.dimensions.1, NeighborsMap());
  }

  /** When tracked counters drive the step, the new board is the rule applied
      to the true king-move neighbour counts, and the counters keep tracking. */
  lemma TrackedAdvanceIsLife(g: Game, g': Game)
    requires g.WellShaped() && g'.WellShaped() && g'.dimensions == g.dimensions
    requires Tracks(g.cellStates, g.liveNeighborCounts, g.dimensions.0, g.dimensions.1, NeighborsMap())
    requires SameDistance(g.cellStates, g.liveNeighborCounts, g'.cellStates, g'.liveNeighborCounts,
                          g.dimensions.0, g.dimensions.1, NeighborsMap())
    requires forall i, j :: 0 <= i < g.dimensions.0 && 0 <= j < g.dimensions.1 ==>
               g'.cellStates[i][j] == NextState(g.cellStates[i][j], g.liveNeighborCounts[i][j])
    ensures Tracks(g'.cellStates, g'.liveNeighborCounts, g.dimensions.0, g.dimensions.1, NeighborsMap())
    ensures forall i, j :: 0 <= i < g.dimensions.0 && 0 <= j < g.dimensions.1 ==>
              g'.cellStates[i][j]
              == NextState(g.cellStates[i][j], |LiveNeighbors(LiveSet(g.cellStates, g.dimensions.0, g.dimensions.1), (i, j))|)
  {
    AdvanceKeepsTracking(g.cellStates, g.liveNeighborCounts, g'.cellStates, g'.liveNeighborCounts,
                         g.dimensions.0, g.dimensions.1, NeighborsMap());
    RuleOnNeighbors(g, g');
  }

  /** Tracked counters are the live king-move neighbour counts, so a step
      that follows the counters follows the neighbours. */
  lemma RuleOnNeighbors(g: Game, g': Game)
    requires g.WellShaped() && g'.WellShaped() && g'.dimensions == g.dimensions
    requires Tracks(g.cellStates, g.liveNeighborCounts, g.dimensions.0, g.dimensions.1, NeighborsMap())
    requires forall i, j :: 0 <= i < g.dimensions.0 && 0 <= j < g.dimensions.1 ==>
               g'.cellStates[i][j] == NextState(g.cellStates[i][j], g.liveNeighborCounts[i][j])
    ensures forall i, j :: 0 <= i < g.dimensions.0 && 0 <= j < g.dimensions.1 ==>
              g'.cellStates[i][j]
              == NextState(g.cellStates[i][j], |LiveNeighbors(LiveSet(g.cellStates, g.dimensions.0, g.dimensions.1), (i, j))|)
  {
    var (rows, cols) := g.dimensions;
    TrackedCountsAreNeighbors(g.cellStates, g.liveNeighborCounts, rows, cols);
  }

  /** Counters that track `neighbors_map` count the live king-move neighbours. */
  lemma TrackedCountsAreNeighbors(cells: seq<seq<Cell>>, counts: seq<seq<int>>, rows: int, cols: int)
    requires Tracks(cells, counts, rows, cols, NeighborsMap())
    ensures forall i, j :: 0 <= i < rows && 0 <= j < cols ==>
              counts[i][j] == |LiveNeighbors(LiveSet(cells, rows, cols), (i, j))|
  {
    var live := LiveSet(cells, rows, cols);
    forall i, j | 0 <= i < rows && 0 <= j < cols
      ensures counts[i][j] == |LiveNeighbors(live, (i, j))|
    {
      assert counts[i][j] == |Hits(live, NeighborsMap(), (i, j))|;
      HitsAreKingMoves(live, (i, j));
    }
  }

  /** A full 2 x 2 board is a still life: every cell has 3 live neighbours. */
  lemma FullTwoByTwoIsStill(cells: seq<seq<Cell>>)
    requires Shaped(cells, 2, 2)
    requires forall i, j :: 0 <= i < 2 && 0 <= j < 2 ==> cells[i][j] == Live
    ensures DenseStep(cells, 2, 2, NeighborsMap()) == cells
  {
    FullTwoByTwoStaysLive(cells);
    DenseStepIs(cells, 2, 2, NeighborsMap(), cells);
  }

  /** The cell-by-cell half of FullTwoByTwoIsStill. */
  lemma FullTwoByTwoStaysLive(cells: seq<seq<Cell>>)
    requires Shaped(cells, 2, 2)
    requires forall i, j :: 0 <= i < 2 && 0 <= j < 2 ==> cells[i][j] == Live
    ensures forall i, j :: 0 <= i < 2 && 0 <= j < 2 ==> DenseStep(cells, 2, 2, NeighborsMap())[i][j] == cells[i][j]
  {
    assert |LiveSet(cells, 2, 2)| == 4 by { AllLive(cells, 2, 2); }
    forall i, j | 0 <= i < 2 && 0 <= j < 2
      ensures DenseStep(cells, 2, 2, NeighborsMap())[i][j] == cells[i][j]
    {
      TwoByTwoKingNext(cells, i, j);
      assert cells[i][j] == Live;
      assert |LiveSet(cells, 2, 2)| - 1 == 3;
    }
  }

  /** Three live cells of a 2 x 2 board fill it: each live cell has 2 live
      neighbours and stays, the dead one has 3 and is born. */
  lemma ThreeOfTwoByTwoFill(cells: seq<seq<Cell>>, q: Coord)
    requires Shaped(cells, 2, 2) && InBounds(2, 2, q)
    requires forall i, j :: 0 <= i < 2 && 0 <= j < 2 ==> cells[i][j] == if (i, j) == q then Dead else Live
    ensures forall i, j :: 0 <= i < 2 && 0 <= j < 2 ==> DenseStep(cells, 2, 2, NeighborsMap())[i][j] == Live
  {
    forall i, j | 0 <= i < 2 && 0 <= j < 2
      ensures DenseStep(cells, 2, 2, NeighborsMap())[i][j] == Live
    {
      ThreeOfTwoByTwoCellLives(cells, q, i, j);
    }
  }

  lemma ThreeOfTwoByTwoCellLives(cells: seq<seq<Cell>>, q: Coord, i: int, j: int)
    requires Shaped(cells, 2, 2) && InBounds(2, 2, q) && 0 <= i < 2 && 0 <= j < 2
    requires forall i, j :: 0 <= i < 2 && 0 <= j < 2 ==> cells[i][j] == if (i, j) == q then Dead else Live
    ensures DenseStep(cells, 2, 2, NeighborsMap())[i][j] == Live
  {
    assert |LiveSet(cells, 2, 2)| == 3 by { AllButOneLive(cells, 2, 2, q); }
    TwoByTwoKingNext(cells, i, j);
    if (i, j) == q {
      assert cells[i][j] == Dead;
    } else {
      assert cells[i][j] == Live;
      assert |LiveSet(cells, 2, 2)| - 1 == 2;
    }
  }
}
