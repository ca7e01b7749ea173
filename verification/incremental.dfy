/** The dense representation shared by no_conditionals.py and game_of_life.py:
    a grid of cell states with a parallel grid of counters that is updated on
    every birth and death instead of being recomputed. The neighbourhood is a
    parameter: `offs` is the set of offsets by which a live cell reaches the
    counters it contributes to. */
module Incremental {
  import opened Board
  import opened Neighborhood

  /** `dimensions`, `cell_states` and `live_neighbor_counts` of a GameOfLife object. */
  datatype Game = Game(dimensions: (int, int), cellStates: seq<seq<Cell>>, liveNeighborCounts: seq<seq<int>>)
  {
    /** Both grids have dimensions.0 rows of dimensions.1 entries. */
    predicate WellShaped() {
      && Shaped(cellStates, dimensions.0, dimensions.1)
      && Shaped(liveNeighborCounts, dimensions.0, dimensions.1)
    }
  }

  /** The reference count at p: the live in-bounds cells that reach p, counted from scratch. */
  function Tally(cells: seq<seq<Cell>>, rows: int, cols: int, offs: set<Coord>, p: Coord): nat
    requires Shaped(cells, rows, cols)
  {
    |Hits(LiveSet(cells, rows, cols), offs, p)|
  }

  /** Every counter equals the reference count of its cell. */
  ghost predicate Tracks(cells: seq<seq<Cell>>, counts: seq<seq<int>>, rows: int, cols: int, offs: set<Coord>) {
    && Shaped(cells, rows, cols)
    && Shaped(counts, rows, cols)
    && forall i, j :: 0 <= i < rows && 0 <= j < cols ==> counts[i][j] == Tally(cells, rows, cols, offs, (i, j))
  }

  /** The reference generation: every cell follows the rule applied to its reference count. */
  ghost function DenseStep(cells: seq<seq<Cell>>, rows: int, cols: int, offs: set<Coord>): (next: seq<seq<Cell>>)
    requires Shaped(cells, rows, cols)
    ensures Shaped(next, rows, cols)
    ensures forall i, j :: 0 <= i < rows && 0 <= j < cols ==>
              next[i][j] == NextState(cells[i][j], Tally(cells, rows, cols, offs, (i, j)))
  {
    seq(rows, i requires 0 <= i < rows =>
      seq(cols, j requires 0 <= j < cols => NextState(cells[i][j], Tally(cells, rows, cols, offs, (i, j)))))
  }

  /** On a 2 x 2 board every cell is within one step of every other: counted
      through the window, the next state of a cell is decided by the whole
      live population. */
  lemma TwoByTwoWindowNext(cells: seq<seq<Cell>>, i: int, j: int)
    requires Shaped(cells, 2, 2) && 0 <= i < 2 && 0 <= j < 2
    ensures DenseStep(cells, 2, 2, Window())[i][j] == NextState(cells[i][j], |LiveSet(cells, 2, 2)|)
  {
    TwoByTwoCounts(LiveSet(cells, 2, 2), (i, j));
  }

  /** Counted through the king moves, the next state of a cell on a 2 x 2
      board is decided by the live population less the cell itself. */
  lemma TwoByTwoKingNext(cells: seq<seq<Cell>>, i: int, j: int)
    requires Shaped(cells, 2, 2) && 0 <= i < 2 && 0 <= j < 2
    ensures DenseStep(cells, 2, 2, NeighborsMap())[i][j]
              == NextState(cells[i][j], |LiveSet(cells, 2, 2)| - (if cells[i][j] == Live then 1 else 0))
  {
    var live := LiveSet(cells, 2, 2);
    TwoByTwoCounts(live, (i, j));
    RemoveSize(live, (i, j));
    assert (i, j) in live <==> cells[i][j] == Live;
  }

  /** The reference generation is a given board once it agrees with it cell by cell. */
  lemma DenseStepIs(cells: seq<seq<Cell>>, rows: int, cols: int, offs: set<Coord>, want: seq<seq<Cell>>)
    requires Shaped(cells, rows, cols) && Shaped(want, rows, cols)
    requires forall i, j :: 0 <= i < rows && 0 <= j < cols ==> DenseStep(cells, rows, cols, offs)[i][j] == want[i][j]
    ensures DenseStep(cells, rows, cols, offs) == want
  {
    GridExt(DenseStep(cells, rows, cols, offs), want, rows, cols);
  }

  /** `zero_out`: a board of the game's dimensions, every cell dead and every counter 0. */
  function ZeroOut(g: Game): (z: Game)
    requires 0 <= g.dimensions.0 && 0 <= g.dimensions.1
    ensures z.dimensions == g.dimensions && z.WellShaped()
    ensures forall i, j :: InBounds(g.dimensions.0, g.dimensions.1, (i, j)) ==>
              z.cellStates[i][j] == Dead && z.liveNeighborCounts[i][j] == 0
  {
    var (rows, cols) := g.dimensions;
    Game(g.dimensions, Filled(rows, cols, Dead), Filled(rows, cols, 0))
  }

  /** A zeroed board has no live cell, and its counters already track any neighbourhood. */
  lemma ZeroOutIsEmptyAndTracked(g: Game, offs: set<Coord>)
    requires 0 <= g.dimensions.0 && 0 <= g.dimensions.1
    ensures LiveSet(ZeroOut(g).cellStates, g.dimensions.0, g.dimensions.1) == {}
    ensures LiveCellCount(ZeroOut(g).cellStates) == 0
    ensures Tracks(ZeroOut(g).cellStates, ZeroOut(g).liveNeighborCounts, g.dimensions.0, g.dimensions.1, offs)
  {
    var z := ZeroOut(g);
    var (rows, cols) := g.dimensions;
    assert LiveSet(z.cellStates, rows, cols) == {};
    LiveCellCountIsSize(z.cellStates, rows, cols);
    forall i, j | 0 <= i < rows && 0 <= j < cols
      ensures z.liveNeighborCounts[i][j] == Tally(z.cellStates, rows, cols, offs, (i, j))
    {
      assert Hits({}, offs, (i, j)) == {};
    }
  }

  /** `delta_neighbors`: add step to the counter of every in-bounds cell that q
      reaches through one of the offsets; refuse any step other than +1 or -1. */
  method DeltaNeighbors(counts: seq<seq<int>>, rows: int, cols: int, offs: set<Coord>, q: Coord, step: int)
    returns (r: Result<seq<seq<int>>>)
    requires Shaped(counts, rows, cols)
    ensures r.Err? <==> step != 1 && step != -1
    ensures r.Err? ==> r.error == StepNotUnit
    ensures r.Ok? ==> Shaped(r.value, rows, cols)
    ensures r.Ok? ==> forall i, j :: 0 <= i < rows && 0 <= j < cols ==>
              r.value[i][j] == counts[i][j] + (if Covers(offs, q, (i, j)) then step else 0)
  {
    if step != 1 && step != -1 {
      return Err(StepNotUnit);
    }
    var acc := counts;
    var todo := offs;
    while todo != {}
      invariant todo <= offs
      invariant Shaped(acc, rows, cols)
      invariant forall i, j :: 0 <= i < rows && 0 <= j < cols ==>
                  acc[i][j] == counts[i][j] + (if Covers(offs - todo, q, (i, j)) then step else 0)
      decreases todo
    {
      var d :| d in todo;
      ghost var done := offs - todo;
      var target := (q.0 + d.0, q.1 + d.1);
      ghost var acc0 := acc;
      if InBounds(rows, cols, target) {
        acc := SetCell(acc, target, acc[target.0][target.1] + step);
      }
      assert forall i, j :: 0 <= i < rows && 0 <= j < cols ==>
               acc[i][j] == acc0[i][j] + (if (i, j) == target then step else 0);
      BumpKeepsCount(counts, acc0, acc, rows, cols, offs, done, q, d, step);
      todo := todo - {d};
      assert offs - todo == done + {d};
    }
    return Ok(acc);
  }

  /** One offset more: the counter at q + d, when it is on the board, takes
      the step, and the counts now cover the offsets done plus d. */
  lemma BumpKeepsCount(counts: seq<seq<int>>, acc: seq<seq<int>>, acc': seq<seq<int>>, rows: int, cols: int,
                       offs: set<Coord>, done: set<Coord>, q: Coord, d: Coord, step: int)
    requires Shaped(counts, rows, cols) && Shaped(acc, rows, cols)
    requires d !in done
    requires forall i, j :: 0 <= i < rows && 0 <= j < cols ==>
               acc[i][j] == counts[i][j] + (if Covers(done, q, (i, j)) then step else 0)
    requires Shaped(acc', rows, cols)
    requires forall i, j :: 0 <= i < rows && 0 <= j < cols ==>
               acc'[i][j] == acc[i][j] + (if (i, j) == (q.0 + d.0, q.1 + d.1) then step else 0)
    ensures forall i, j :: 0 <= i < rows && 0 <= j < cols ==>
              acc'[i][j] == counts[i][j] + (if Covers(done + {d}, q, (i, j)) then step else 0)
  {
    forall i, j | 0 <= i < rows && 0 <= j < cols
      ensures acc'[i][j] == counts[i][j] + (if Covers(done + {d}, q, (i, j)) then step else 0)
    {
      assert Covers(done + {d}, q, (i, j)) <==> Covers(done, q, (i, j)) || (i, j) == (q.0 + d.0, q.1 + d.1);
    }
  }

  /** The live cells strictly before (i, j) in row-major order. */
  function LiveBefore(cells: seq<seq<Cell>>, rows: int, cols: int, i: int, j: int): set<Coord>
    requires Shaped(cells, rows, cols)
  {
    set p | p in LiveSet(cells, rows, cols) && Precedes(p, (i, j))
  }

  /** Moving the scan one cell on adds that cell when it is live. */
  lemma LiveBeforeStep(cells: seq<seq<Cell>>, rows: int, cols: int, i: int, j: int)
    requires Shaped(cells, rows, cols) && InBounds(rows, cols, (i, j))
    ensures (i, j) !in LiveBefore(cells, rows, cols, i, j)
    ensures LiveBefore(cells, rows, cols, i, j + 1)
              == LiveBefore(cells, rows, cols, i, j) + (if cells[i][j] == Live then {(i, j)} else {})
  {
    var before, after := LiveBefore(cells, rows, cols, i, j), LiveBefore(cells, rows, cols, i, j + 1);
    var live := LiveSet(cells, rows, cols);
    assert (i, j) in live <==> cells[i][j] == Live;
    forall p
      ensures p in after <==> p in before || (p == (i, j) && p in live)
    {
      assert Precedes(p, (i, j + 1)) <==> Precedes(p, (i, j)) || p == (i, j);
    }
  }

  /** The end of one row is the start of the next. */
  lemma LiveBeforeWrap(cells: seq<seq<Cell>>, rows: int, cols: int, i: int)
    requires Shaped(cells, rows, cols)
    ensures LiveBefore(cells, rows, cols, i, cols) == LiveBefore(cells, rows, cols, i + 1, 0)
  {
  }

  /** Before the first row nothing is live; after the last row everything live is. */
  lemma LiveBeforeEnds(cells: seq<seq<Cell>>, rows: int, cols: int)
    requires Shaped(cells, rows, cols)
    ensures LiveBefore(cells, rows, cols, 0, 0) == {}
    ensures LiveBefore(cells, rows, cols, rows, 0) == LiveSet(cells, rows, cols)
  {
  }

  /** Each counter counts the cells of live that reach it. */
  ghost predicate CountsOf(counts: seq<seq<int>>, rows: int, cols: int, offs: set<Coord>, live: set<Coord>)
    requires Shaped(counts, rows, cols)
  {
    forall a, b :: 0 <= a < rows && 0 <= b < cols ==> counts[a][b] == |Hits(live, offs, (a, b))|
  }

  /** `init_neighbors`: zero every counter, then let every live cell, in
      row-major order, add one to the counters it reaches. */
  method InitNeighbors(cells: seq<seq<Cell>>, counts: seq<seq<int>>, rows: int, cols: int, offs: set<Coord>)
    returns (counts': seq<seq<int>>)
    requires Shaped(cells, rows, cols) && Shaped(counts, rows, cols)
    ensures Tracks(cells, counts', rows, cols, offs)
  {
    counts' := Filled(rows, cols, 0);
    LiveBeforeEnds(cells, rows, cols);
    ZerosCountNothing(counts', rows, cols, offs);
    counts' := InitRows(cells, counts', rows, cols, offs);
    CountsOfLiveSetTrack(cells, counts', rows, cols, offs);
  }

  /** The outer loop of `init_neighbors`: the live cells of every row, one row
      after another, add themselves. */
  method InitRows(cells: seq<seq<Cell>>, counts: seq<seq<int>>, rows: int, cols: int, offs: set<Coord>)
    returns (counts': seq<seq<int>>)
    requires Shaped(cells, rows, cols) && Shaped(counts, rows, cols)
    requires CountsOf(counts, rows, cols, offs, LiveBefore(cells, rows, cols, 0, 0))
    ensures Shaped(counts', rows, cols)
    ensures CountsOf(counts', rows, cols, offs, LiveBefore(cells, rows, cols, rows, 0))
  {
    counts' := counts;
    var i := 0;
    while i < rows
      invariant 0 <= i <= rows
      invariant Shaped(counts', rows, cols)
      invariant CountsOf(counts', rows, cols, offs, LiveBefore(cells, rows, cols, i, 0))
    {
      counts' := InitRow(cells, counts', rows, cols, offs, i);
      LiveBeforeWrap(cells, rows, cols, i);
      i := i + 1;
    }
  }

  /** Counters that are all zero count the empty set. */
  lemma ZerosCountNothing(counts: seq<seq<int>>, rows: int, cols: int, offs: set<Coord>)
    requires Shaped(counts, rows, cols)
    requires forall a, b :: 0 <= a < rows && 0 <= b < cols ==> counts[a][b] == 0
    ensures CountsOf(counts, rows, cols, offs, {})
  {
    forall a, b | 0 <= a < rows && 0 <= b < cols
      ensures counts[a][b] == |Hits({}, offs, (a, b))|
    {
      assert Hits({}, offs, (a, b)) == {};
    }
  }

  /** Counters that count the live set of a board track it. */
  lemma CountsOfLiveSetTrack(cells: seq<seq<Cell>>, counts: seq<seq<int>>, rows: int, cols: int, offs: set<Coord>)
    requires Shaped(cells, rows, cols) && Shaped(counts, rows, cols)
    requires CountsOf(counts, rows, cols, offs, LiveSet(cells, rows, cols))
    ensures Tracks(cells, counts, rows, cols, offs)
  {
  }

  /** The inner loop of `init_neighbors`: the live cells of row i add themselves. */
  method InitRow(cells: seq<seq<Cell>>, counts: seq<seq<int>>, rows: int, cols: int, offs: set<Coord>, i: int)
    returns (counts': seq<seq<int>>)
    requires Shaped(cells, rows, cols) && Shaped(counts, rows, cols) && 0 <= i < rows
    requires CountsOf(counts, rows, cols, offs, LiveBefore(cells, rows, cols, i, 0))
    ensures Shaped(counts', rows, cols)
    ensures CountsOf(counts', rows, cols, offs, LiveBefore(cells, rows, cols, i, cols))
  {
    counts' := counts;
    var j := 0;
    while j < cols
      invariant 0 <= j <= cols
      invariant Shaped(counts', rows, cols)
      invariant CountsOf(counts', rows, cols, offs, LiveBefore(cells, rows, cols, i, j))
    {
      counts' := InitCell(cells, counts', rows, cols, offs, i, j);
      j := j + 1;
    }
  }

  /** One step of the inner loop: a live cell at (i, j) adds itself. */
  method InitCell(cells: seq<seq<Cell>>, counts: seq<seq<int>>, rows: int, cols: int, offs: set<Coord>, i: int, j: int)
    returns (counts': seq<seq<int>>)
    requires Shaped(cells, rows, cols) && Shaped(counts, rows, cols) && InBounds(rows, cols, (i, j))
    requires CountsOf(counts, rows, cols, offs, LiveBefore(cells, rows, cols, i, j))
    ensures Shaped(counts', rows, cols)
    ensures CountsOf(counts', rows, cols, offs, LiveBefore(cells, rows, cols, i, j + 1))
  {
    ghost var before, after := LiveBefore(cells, rows, cols, i, j), LiveBefore(cells, rows, cols, i, j + 1);
    LiveBeforeStep(cells, rows, cols, i, j);
    counts' := counts;
    if cells[i][j] == Live {
      var r := DeltaNeighbors(counts, rows, cols, offs, (i, j), 1);
      AddOneMore(counts, r.value, rows, cols, offs, before, (i, j), after);
      counts' := r.value;
    } else {
      assert after == before;
    }
  }

  /** Letting a cell q that is not yet counted add one to the counters it
      reaches gives the counts of the larger set. */
  lemma AddOneMore(counts: seq<seq<int>>, bumped: seq<seq<int>>, rows: int, cols: int, offs: set<Coord>,
                   live: set<Coord>, q: Coord, live': set<Coord>)
    requires Shaped(counts, rows, cols) && Shaped(bumped, rows, cols)
    requires q !in live && live' == live + {q}
    requires CountsOf(counts, rows, cols, offs, live)
    requires forall a, b :: 0 <= a < rows && 0 <= b < cols ==>
               bumped[a][b] == counts[a][b] + (if Covers(offs, q, (a, b)) then 1 else 0)
    ensures CountsOf(bumped, rows, cols, offs, live')
  {
    forall a, b | 0 <= a < rows && 0 <= b < cols
      ensures bumped[a][b] == |Hits(live', offs, (a, b))|
    {
      HitsInsert(live, offs, q, (a, b));
    }
  }

  /** Every counter of countsB is as far from the reference count of cellsB
      as the same counter of countsA is from that of cellsA. */
  ghost predicate SameDistance(cellsA: seq<seq<Cell>>, countsA: seq<seq<int>>,
                               cellsB: seq<seq<Cell>>, countsB: seq<seq<int>>,
                               rows: int, cols: int, offs: set<Coord>)
    requires Shaped(cellsA, rows, cols) && Shaped(countsA, rows, cols)
    requires Shaped(cellsB, rows, cols) && Shaped(countsB, rows, cols)
  {
    forall i, j :: 0 <= i < rows && 0 <= j < cols ==>
      countsB[i][j] - Tally(cellsB, rows, cols, offs, (i, j))
      == countsA[i][j] - Tally(cellsA, rows, cols, offs, (i, j))
  }

  /** SameDistance composes along a run of updates. */
  lemma SameDistanceTrans(cellsA: seq<seq<Cell>>, countsA: seq<seq<int>>,
                          cellsB: seq<seq<Cell>>, countsB: seq<seq<int>>,
                          cellsC: seq<seq<Cell>>, countsC: seq<seq<int>>,
                          rows: int, cols: int, offs: set<Coord>)
    requires Shaped(cellsA, rows, cols) && Shaped(countsA, rows, cols)
    requires Shaped(cellsB, rows, cols) && Shaped(countsB, rows, cols)
    requires Shaped(cellsC, rows, cols) && Shaped(countsC, rows, cols)
    requires SameDistance(cellsA, countsA, cellsB, countsB, rows, cols, offs)
    requires SameDistance(cellsB, countsB, cellsC, countsC, rows, cols, offs)
    ensures SameDistance(cellsA, countsA, cellsC, countsC, rows, cols, offs)
  {
  }

  /** The counter step that goes with setting a cell to v: +1 for a birth, -1 for a death. */
  function StepFor(v: Cell): int {
    if v == Live then 1 else -1
  }

  /** Flipping one cell to v together with the matching counter steps keeps
      every counter's distance to its reference count. */
  lemma FlipKeepsDistance(cells: seq<seq<Cell>>, counts: seq<seq<int>>, bumped: seq<seq<int>>,
                          rows: int, cols: int, offs: set<Coord>, p: Coord, v: Cell)
    requires Shaped(cells, rows, cols) && Shaped(counts, rows, cols) && Shaped(bumped, rows, cols)
    requires InBounds(rows, cols, p) && cells[p.0][p.1] != v
    requires forall i, j :: 0 <= i < rows && 0 <= j < cols ==>
               bumped[i][j] == counts[i][j] + (if Covers(offs, p, (i, j)) then StepFor(v) else 0)
    ensures Shaped(SetCell(cells, p, v), rows, cols)
    ensures SameDistance(cells, counts, SetCell(cells, p, v), bumped, rows, cols, offs)
  {
    forall i, j | 0 <= i < rows && 0 <= j < cols
      ensures Tally(SetCell(cells, p, v), rows, cols, offs, (i, j))
              == Tally(cells, rows, cols, offs, (i, j)) + (if Covers(offs, p, (i, j)) then StepFor(v) else 0)
    {
      FlipTallyAt(cells, rows, cols, offs, p, v, (i, j));
    }
  }

  /** Flipping the cell at p to v moves the reference count at c by one step
      exactly when p reaches c. */
  lemma FlipTallyAt(cells: seq<seq<Cell>>, rows: int, cols: int, offs: set<Coord>, p: Coord, v: Cell, c: Coord)
    requires Shaped(cells, rows, cols) && InBounds(rows, cols, p) && cells[p.0][p.1] != v
    ensures Shaped(SetCell(cells, p, v), rows, cols)
    ensures Tally(SetCell(cells, p, v), rows, cols, offs, c)
            == Tally(cells, rows, cols, offs, c) + (if Covers(offs, p, c) then StepFor(v) else 0)
  {
    var live := LiveSet(cells, rows, cols);
    LiveSetAfterSet(cells, rows, cols, p, v);
    assert p in live <==> v == Dead;
    if v == Live {
      HitsInsert(live, offs, p, c);
    } else {
      HitsRemove(live, offs, p, c);
    }
  }

  /** The commit phase of `advance`: mark each coordinate of births live and
      raise the counters it reaches, then mark each coordinate of deaths dead
      and lower the counters it reaches. Every counter keeps its distance to
      the reference count, so counters that tracked the board still do. */
  method Commit(cells: seq<seq<Cell>>, counts: seq<seq<int>>, rows: int, cols: int, offs: set<Coord>,
                births: seq<Coord>, deaths: seq<Coord>)
    returns (cells': seq<seq<Cell>>, counts': seq<seq<int>>)
    requires Shaped(cells, rows, cols) && Shaped(counts, rows, cols)
    requires forall p :: p in births ==> InBounds(rows, cols, p) && cells[p.0][p.1] == Dead
    requires forall p :: p in deaths ==> InBounds(rows, cols, p) && cells[p.0][p.1] == Live
    requires Distinct(births) && Distinct(deaths)
    ensures Shaped(cells', rows, cols) && Shaped(counts', rows, cols)
    ensures forall i, j :: 0 <= i < rows && 0 <= j < cols ==>
              cells'[i][j] == (if (i, j) in births then Live else if (i, j) in deaths then Dead else cells[i][j])
    ensures SameDistance(cells, counts, cells', counts', rows, cols, offs)
    ensures |births| == 0 && |deaths| == 0 ==> cells' == cells && counts' == counts
  {
    var cellsB, countsB := CommitRun(cells, counts, rows, cols, offs, births, Live);
    cells', counts' := CommitRun(cellsB, countsB, rows, cols, offs, deaths, Dead);
    SameDistanceTrans(cells, counts, cellsB, countsB, cells', counts', rows, cols, offs);
  }

  /** One loop of the commit phase: set every coordinate of ps to v, stepping
      the counters each one reaches. */
  method CommitRun(cells: seq<seq<Cell>>, counts: seq<seq<int>>, rows: int, cols: int, offs: set<Coord>,
                   ps: seq<Coord>, v: Cell)
    returns (cells': seq<seq<Cell>>, counts': seq<seq<int>>)
    requires Shaped(cells, rows, cols) && Shaped(counts, rows, cols)
    requires forall p :: p in ps ==> InBounds(rows, cols, p) && cells[p.0][p.1] != v
    requires Distinct(ps)
    ensures Shaped(cells', rows, cols) && Shaped(counts', rows, cols)
    ensures forall i, j :: 0 <= i < rows && 0 <= j < cols ==>
              cells'[i][j] == (if (i, j) in ps then v else cells[i][j])
    ensures SameDistance(cells, counts, cells', counts', rows, cols, offs)
    ensures |ps| == 0 ==> cells' == cells && counts' == counts
  {
    cells', counts' := cells, counts;
    if |ps| == 0 {
      return;
    }
    var k := 0;
    while k < |ps|
      invariant 0 <= k <= |ps|
      invariant Shaped(cells', rows, cols) && Shaped(counts', rows, cols)
      invariant cells' == MarkAll(cells, rows, cols, ps[..k], v)
      invariant SameDistance(cells, counts, cells', counts', rows, cols, offs)
    {
      cells', counts' := CommitOne(cells, counts, cells', counts', rows, cols, offs, ps, k, v);
      k := k + 1;
    }
    assert ps[..k] == ps;
  }

  /** One iteration of a commit loop: the k-th coordinate of ps becomes v. */
  method CommitOne(cells0: seq<seq<Cell>>, counts0: seq<seq<int>>, cells: seq<seq<Cell>>, counts: seq<seq<int>>,
                   rows: int, cols: int, offs: set<Coord>, ps: seq<Coord>, k: int, v: Cell)
    returns (cells': seq<seq<Cell>>, counts': seq<seq<int>>)
    requires Shaped(cells0, rows, cols) && Shaped(counts0, rows, cols)
    requires Shaped(cells, rows, cols) && Shaped(counts, rows, cols)
    requires forall p :: p in ps ==> InBounds(rows, cols, p) && cells0[p.0][p.1] != v
    requires Distinct(ps) && 0 <= k < |ps|
    requires cells == MarkAll(cells0, rows, cols, ps[..k], v)
    requires SameDistance(cells0, counts0, cells, counts, rows, cols, offs)
    ensures Shaped(cells', rows, cols) && Shaped(counts', rows, cols)
    ensures cells' == MarkAll(cells0, rows, cols, ps[..k + 1], v)
    ensures SameDistance(cells0, counts0, cells', counts', rows, cols, offs)
  {
    var p := ps[k];
    NextNotMarked(cells0, rows, cols, ps, k, v);
    var r := DeltaNeighbors(counts, rows, cols, offs, p, StepFor(v));
    FlipKeepsDistance(cells, counts, r.value, rows, cols, offs, p, v);
    cells', counts' := SetCell(cells, p, v), r.value;
    SameDistanceTrans(cells0, counts0, cells, counts, cells', counts', rows, cols, offs);
    MarkAllStep(cells0, rows, cols, ps, k, v);
  }

  /** The k-th coordinate of a distinct list is untouched by marking the ones before it. */
  lemma NextNotMarked(cells0: seq<seq<Cell>>, rows: int, cols: int, ps: seq<Coord>, k: int, v: Cell)
    requires Shaped(cells0, rows, cols)
    requires forall a :: 0 <= a < |ps| ==> InBounds(rows, cols, ps[a])
    requires Distinct(ps) && 0 <= k < |ps|
    ensures InBounds(rows, cols, ps[k])
    ensures MarkAll(cells0, rows, cols, ps[..k], v)[ps[k].0][ps[k].1] == cells0[ps[k].0][ps[k].1]
  {
    var p := ps[k];
    assert p !in ps[..k] by {
      forall a | 0 <= a < k
        ensures ps[..k][a] != p
      {
        assert ps[..k][a] == ps[a];
      }
    }
  }

  /** What the scan of `advance` decides for one cell. */
  datatype Action = NoOp | KillThisCell | BirthThisCell

  /** The action the Game of Life rule calls for. */
  function RuleAction(c: Cell, n: int): (a: Action)
    ensures a == NoOp <==> NextState(c, n) == c
    ensures a == KillThisCell <==> c == Live && NextState(c, n) == Dead
    ensures a == BirthThisCell <==> c == Dead && NextState(c, n) == Live
  {
    if NextState(c, n) == c then NoOp else if c == Live then KillThisCell else BirthThisCell
  }

  /** A way of choosing the action: it may fail (the dispatch tables of
      no_conditionals.py raise KeyError), but whatever it answers is the rule's. */
  ghost predicate FollowsRule(decide: (Cell, int) -> Result<Action>) {
    forall c: Cell, n: int :: decide(c, n).Ok? ==> decide(c, n).value == RuleAction(c, n)
  }

  /** Every cell of the board gets an answer. */
  ghost predicate Decided(decide: (Cell, int) -> Result<Action>, cells: seq<seq<Cell>>, counts: seq<seq<int>>,
                          rows: int, cols: int)
    requires Shaped(cells, rows, cols) && Shaped(counts, rows, cols)
  {
    forall i, j :: 0 <= i < rows && 0 <= j < cols ==> decide(cells[i][j], counts[i][j]).Ok?
  }

  /** The scan has reached (i, j): every earlier cell got an answer, and births
      and deaths list, in row-major order, exactly the earlier cells whose
      answer was BirthThisCell and KillThisCell. */
  ghost predicate ScannedTo(decide: (Cell, int) -> Result<Action>, cells: seq<seq<Cell>>, counts: seq<seq<int>>,
                            rows: int, cols: int, births: seq<Coord>, deaths: seq<Coord>, i: int, j: int)
    requires Shaped(cells, rows, cols) && Shaped(counts, rows, cols)
  {
    && RowMajor(births) && RowMajor(deaths)
    && (forall p :: InBounds(rows, cols, p) && Precedes(p, (i, j)) ==> decide(cells[p.0][p.1], counts[p.0][p.1]).Ok?)
    && (forall p :: p in births <==>
          InBounds(rows, cols, p) && Precedes(p, (i, j)) && decide(cells[p.0][p.1], counts[p.0][p.1]) == Ok(BirthThisCell))
    && (forall p :: p in deaths <==>
          InBounds(rows, cols, p) && Precedes(p, (i, j)) && decide(cells[p.0][p.1], counts[p.0][p.1]) == Ok(KillThisCell))
  }

  /** The scan of `advance`: visit the cells in row-major order, read each
      cell's counter and queue it for birth or death as decide says; the first
      failure of decide ends the scan. */
  method Classify(decide: (Cell, int) -> Result<Action>, cells: seq<seq<Cell>>, counts: seq<seq<int>>,
                  rows: int, cols: int)
    returns (r: Result<(seq<Coord>, seq<Coord>)>)
    requires Shaped(cells, rows, cols) && Shaped(counts, rows, cols)
    ensures r.Err? <==> !Decided(decide, cells, counts, rows, cols)
    ensures r.Err? ==> exists i, j :: 0 <= i < rows && 0 <= j < cols && decide(cells[i][j], counts[i][j]) == Err(r.error)
    ensures r.Ok? ==> ScannedTo(decide, cells, counts, rows, cols, r.value.0, r.value.1, rows, 0)
  {
    var births, deaths := [], [];
    var i := 0;
    while i < rows
      invariant 0 <= i <= rows
      invariant ScannedTo(decide, cells, counts, rows, cols, births, deaths, i, 0)
    {
      var row := ClassifyRow(decide, cells, counts, rows, cols, births, deaths, i);
      if row.Err? {
        var j :| 0 <= j < cols && decide(cells[i][j], counts[i][j]) == Err(row.error);
        UndecidedAt(decide, cells, counts, rows, cols, i, j);
        return Err(row.error);
      }
      births, deaths := row.value.0, row.value.1;
      ScannedRowWraps(decide, cells, counts, rows, cols, births, deaths, i);
      i := i + 1;
    }
    ScannedAllDecided(decide, cells, counts, rows, cols, births, deaths);
    r := Ok((births, deaths));
  }

  /** One failing cell leaves the board undecided. */
  lemma UndecidedAt(decide: (Cell, int) -> Result<Action>, cells: seq<seq<Cell>>, counts: seq<seq<int>>,
                    rows: int, cols: int, i: int, j: int)
    requires Shaped(cells, rows, cols) && Shaped(counts, rows, cols) && InBounds(rows, cols, (i, j))
    requires decide(cells[i][j], counts[i][j]).Err?
    ensures !Decided(decide, cells, counts, rows, cols)
  {
  }

  /** A finished scan has decided every cell. */
  lemma ScannedAllDecided(decide: (Cell, int) -> Result<Action>, cells: seq<seq<Cell>>, counts: seq<seq<int>>,
                          rows: int, cols: int, births: seq<Coord>, deaths: seq<Coord>)
    requires Shaped(cells, rows, cols) && Shaped(counts, rows, cols)
    requires ScannedTo(decide, cells, counts, rows, cols, births, deaths, rows, 0)
    ensures Decided(decide, cells, counts, rows, cols)
  {
    forall a, b | 0 <= a < rows && 0 <= b < cols
      ensures decide(cells[a][b], counts[a][b]).Ok?
    {
      var p := (a, b);
      assert InBounds(rows, cols, p) && Precedes(p, (rows, 0));
    }
  }

  /** The inner loop of the scan, over row i. */
  method ClassifyRow(decide: (Cell, int) -> Result<Action>, cells: seq<seq<Cell>>, counts: seq<seq<int>>,
                     rows: int, cols: int, births: seq<Coord>, deaths: seq<Coord>, i: int)
    returns (r: Result<(seq<Coord>, seq<Coord>)>)
    requires Shaped(cells, rows, cols) && Shaped(counts, rows, cols) && 0 <= i < rows
    requires ScannedTo(decide, cells, counts, rows, cols, births, deaths, i, 0)
    ensures r.Err? ==> exists j :: 0 <= j < cols && decide(cells[i][j], counts[i][j]) == Err(r.error)
    ensures r.Ok? ==> ScannedTo(decide, cells, counts, rows, cols, r.value.0, r.value.1, i, cols)
  {
    var bs, ds := births, deaths;
    var j := 0;
    while j < cols
      invariant 0 <= j <= cols
      invariant ScannedTo(decide, cells, counts, rows, cols, bs, ds, i, j)
    {
      var a := decide(cells[i][j], counts[i][j]);
      if a.Err? {
        return Err(a.error);
      }
      bs, ds := ClassifyCell(decide, cells, counts, rows, cols, bs, ds, i, j);
      j := j + 1;
    }
    return Ok((bs, ds));
  }

  /** One cell of the scan: queue (i, j) as decide answers. */
  method ClassifyCell(decide: (Cell, int) -> Result<Action>, cells: seq<seq<Cell>>, counts: seq<seq<int>>,
                      rows: int, cols: int, births: seq<Coord>, deaths: seq<Coord>, i: int, j: int)
    returns (births': seq<Coord>, deaths': seq<Coord>)
    requires Shaped(cells, rows, cols) && Shaped(counts, rows, cols) && InBounds(rows, cols, (i, j))
    requires ScannedTo(decide, cells, counts, rows, cols, births, deaths, i, j)
    requires decide(cells[i][j], counts[i][j]).Ok?
    ensures ScannedTo(decide, cells, counts, rows, cols, births', deaths', i, j + 1)
  {
    var a := decide(cells[i][j], counts[i][j]).value;
    births', deaths' := births, deaths;
    if a == BirthThisCell {
      births' := births + [(i, j)];
    } else if a == KillThisCell {
      deaths' := deaths + [(i, j)];
    }
    ScannedOneMore(decide, cells, counts, rows, cols, births, deaths, i, j);
  }

  /** Queueing (i, j) as decide answers moves the scan one cell on. */
  lemma ScannedOneMore(decide: (Cell, int) -> Result<Action>, cells: seq<seq<Cell>>, counts: seq<seq<int>>,
                       rows: int, cols: int, births: seq<Coord>, deaths: seq<Coord>, i: int, j: int)
    requires Shaped(cells, rows, cols) && Shaped(counts, rows, cols) && InBounds(rows, cols, (i, j))
    requires ScannedTo(decide, cells, counts, rows, cols, births, deaths, i, j)
    requires decide(cells[i][j], counts[i][j]).Ok?
    ensures ScannedTo(decide, cells, counts, rows, cols,
                      if decide(cells[i][j], counts[i][j]).value == BirthThisCell then births + [(i, j)] else births,
                      if decide(cells[i][j], counts[i][j]).value == KillThisCell then deaths + [(i, j)] else deaths,
                      i, j + 1)
  {
    assert forall p :: Precedes(p, (i, j + 1)) <==> Precedes(p, (i, j)) || p == (i, j);
  }

  /** The end of row i is the start of row i + 1. */
  lemma ScannedRowWraps(decide: (Cell, int) -> Result<Action>, cells: seq<seq<Cell>>, counts: seq<seq<int>>,
                        rows: int, cols: int, births: seq<Coord>, deaths: seq<Coord>, i: int)
    requires Shaped(cells, rows, cols) && Shaped(counts, rows, cols)
    requires ScannedTo(decide, cells, counts, rows, cols, births, deaths, i, cols)
    ensures ScannedTo(decide, cells, counts, rows, cols, births, deaths, i + 1, 0)
  {
    assert forall p :: InBounds(rows, cols, p) ==> (Precedes(p, (i, cols)) <==> Precedes(p, (i + 1, 0)));
  }

  /** `advance` with a given way of choosing actions: scan the board, then
      commit the queued births and deaths; report whether anything was queued.
      A failure during the scan leaves the board untouched. */
  method Advance(g: Game, offs: set<Coord>, decide: (Cell, int) -> Result<Action>) returns (r: Result<(Game, bool)>)
    requires g.WellShaped()
    requires FollowsRule(decide)
    ensures r.Err? <==> !Decided(decide, g.cellStates, g.liveNeighborCounts, g.dimensions.0, g.dimensions.1)
    ensures r.Err? ==> (exists i, j :: 0 <= i < g.dimensions.0 && 0 <= j < g.dimensions.1 &&
                          decide(g.cellStates[i][j], g.liveNeighborCounts[i][j]) == Err(r.error))
    ensures r.Ok? ==> r.value.0.dimensions == g.dimensions && r.value.0.WellShaped()
    ensures r.Ok? ==> forall i, j :: 0 <= i < g.dimensions.0 && 0 <= j < g.dimensions.1 ==>
              r.value.0.cellStates[i][j] == NextState(g.cellStates[i][j], g.liveNeighborCounts[i][j])
    ensures r.Ok? ==> SameDistance(g.cellStates, g.liveNeighborCounts, r.value.0.cellStates,
                                   r.value.0.liveNeighborCounts, g.dimensions.0, g.dimensions.1, offs)
    ensures r.Ok? ==> (r.value.1 <==> r.value.0.cellStates != g.cellStates)
    ensures r.Ok? && !r.value.1 ==> r.value.0 == g
  {
    var (rows, cols) := g.dimensions;
    var cells, counts := g.cellStates, g.liveNeighborCounts;
    var scan := Classify(decide, cells, counts, rows, cols);
    if scan.Err? {
      return Err(scan.error);
    }
    var (births, deaths) := scan.value;
    QueuedCellsFlip(decide, cells, counts, rows, cols, births, deaths);
    var cells', counts' := Commit(cells, counts, rows, cols, offs, births, deaths);
    QueuedCellsFollowRule(decide, cells, counts, rows, cols, births, deaths, cells');
    var changed := |births| > 0 || |deaths| > 0;
    QueuedMeansChanged(cells, cells', rows, cols, births, deaths);
    r := Ok((Game(g.dimensions, cells', counts'), changed));
  }

  /** Committing a nonempty queue changes the board. */
  lemma QueuedMeansChanged(cells: seq<seq<Cell>>, cells': seq<seq<Cell>>, rows: int, cols: int,
                           births: seq<Coord>, deaths: seq<Coord>)
    requires Shaped(cells, rows, cols) && Shaped(cells', rows, cols)
    requires forall p :: p in births ==> InBounds(rows, cols, p) && cells[p.0][p.1] == Dead
    requires forall p :: p in deaths ==> InBounds(rows, cols, p) && cells[p.0][p.1] == Live
    requires forall i, j :: 0 <= i < rows && 0 <= j < cols ==>
               cells'[i][j] == (if (i, j) in births then Live else if (i, j) in deaths then Dead else cells[i][j])
    ensures |births| > 0 || |deaths| > 0 ==> cells' != cells
  {
    if |births| > 0 {
      var p := births[0];
      assert cells'[p.0][p.1] != cells[p.0][p.1];
    } else if |deaths| > 0 {
      var p := deaths[0];
      assert cells'[p.0][p.1] != cells[p.0][p.1];
    }
  }

  /** Queued births are dead cells, queued deaths are live cells, and neither
      list repeats a cell. */
  lemma QueuedCellsFlip(decide: (Cell, int) -> Result<Action>, cells: seq<seq<Cell>>, counts: seq<seq<int>>,
                        rows: int, cols: int, births: seq<Coord>, deaths: seq<Coord>)
    requires Shaped(cells, rows, cols) && Shaped(counts, rows, cols)
    requires FollowsRule(decide)
    requires ScannedTo(decide, cells, counts, rows, cols, births, deaths, rows, 0)
    ensures forall p :: p in births ==> InBounds(rows, cols, p) && cells[p.0][p.1] == Dead
    ensures forall p :: p in deaths ==> InBounds(rows, cols, p) && cells[p.0][p.1] == Live
    ensures Distinct(births) && Distinct(deaths)
  {
    RowMajorDistinct(births);
    RowMajorDistinct(deaths);
    forall p | p in births
      ensures InBounds(rows, cols, p) && cells[p.0][p.1] == Dead
    {
      var a := decide(cells[p.0][p.1], counts[p.0][p.1]);
      assert a.Ok? && a.value == RuleAction(cells[p.0][p.1], counts[p.0][p.1]);
    }
    forall p | p in deaths
      ensures InBounds(rows, cols, p) && cells[p.0][p.1] == Live
    {
      var a := decide(cells[p.0][p.1], counts[p.0][p.1]);
      assert a.Ok? && a.value == RuleAction(cells[p.0][p.1], counts[p.0][p.1]);
    }
  }

  /** Committing the queues of a complete scan applies the rule to every cell. */
  lemma QueuedCellsFollowRule(decide: (Cell, int) -> Result<Action>, cells: seq<seq<Cell>>, counts: seq<seq<int>>,
                              rows: int, cols: int, births: seq<Coord>, deaths: seq<Coord>, cells': seq<seq<Cell>>)
    requires Shaped(cells, rows, cols) && Shaped(counts, rows, cols) && Shaped(cells', rows, cols)
    requires FollowsRule(decide)
    requires ScannedTo(decide, cells, counts, rows, cols, births, deaths, rows, 0)
    requires forall i, j :: 0 <= i < rows && 0 <= j < cols ==>
               cells'[i][j] == (if (i, j) in births then Live else if (i, j) in deaths then Dead else cells[i][j])
    ensures forall i, j :: 0 <= i < rows && 0 <= j < cols ==> cells'[i][j] == NextState(cells[i][j], counts[i][j])
  {
    forall i, j | 0 <= i < rows && 0 <= j < cols
      ensures cells'[i][j] == NextState(cells[i][j], counts[i][j])
    {
      var p := (i, j);
      assert InBounds(rows, cols, p) && Precedes(p, (rows, 0));
      var a := decide(cells[i][j], counts[i][j]);
      assert a.Ok? && a.value == RuleAction(cells[i][j], counts[i][j]);
    }
  }

  /** Counters that tracked the board before `advance` track it after, and
      the new board is the reference generation. */
  lemma AdvanceKeepsTracking(cells: seq<seq<Cell>>, counts: seq<seq<int>>, cells': seq<seq<Cell>>,
                             counts': seq<seq<int>>, rows: int, cols: int, offs: set<Coord>)
    requires Tracks(cells, counts, rows, cols, offs)
    requires Shaped(cells', rows, cols) && Shaped(counts', rows, cols)
    requires SameDistance(cells, counts, cells', counts', rows, cols, offs)
    requires forall i, j :: 0 <= i < rows && 0 <= j < cols ==> cells'[i][j] == NextState(cells[i][j], counts[i][j])
    ensures Tracks(cells', counts', rows, cols, offs)
    ensures cells' == DenseStep(cells, rows, cols, offs)
  {
    GridExt(cells', DenseStep(cells, rows, cols, offs), rows, cols);
  }

  /** A tracked counter lies between 0 and the number of offsets. */
  lemma TrackedCountsBounded(cells: seq<seq<Cell>>, counts: seq<seq<int>>, rows: int, cols: int, offs: set<Coord>)
    requires Tracks(cells, counts, rows, cols, offs)
    ensures forall i, j :: 0 <= i < rows && 0 <= j < cols ==> 0 <= counts[i][j] <= |offs|
  {
    forall i, j | 0 <= i < rows && 0 <= j < cols
      ensures counts[i][j] <= |offs|
    {
      HitsBound(LiveSet(cells, rows, cols), offs, (i, j));
    }
  }
}
