/** short_fns.py: the sparse engine. The board is the set of live
    coordinates; each step counts, for every coordinate next to a live cell,
    how many live cells it touches, and rebuilds the set. */
module ShortFns {
  import opened Board
  import opened Neighborhood
  import Incremental

  /** `rows`, `cols` and `live_cells` of a GameOfLife object. */
  datatype Life = Life(rows: int, cols: int, liveCells: set<Coord>)

  /** `GameOfLife(rows, cols)`: no live cell. The size is not checked. */
  function New(rows: int, cols: int): (s: Life)
    ensures s.rows == rows && s.cols == cols
    ensures s.liveCells == {} && LiveCount(s) == 0
  {
    Life(rows, cols, {})
  }

  /** `get_dense_cells`: every coordinate of the board. */
  function GetDenseCells(s: Life): (d: set<Coord>)
    ensures forall p :: p in d <==> InBounds(s.rows, s.cols, p)
    ensures 0 <= s.rows && 0 <= s.cols ==> |d| == s.rows * s.cols
  {
    if 0 <= s.rows && 0 <= s.cols then DenseCellsSize(s.rows, s.cols); DenseCells(s.rows, s.cols)
    else DenseCells(s.rows, s.cols)
  }

  /** `zero_out`: forget every live cell. */
  function ZeroOut(s: Life): (s': Life)
    ensures s'.rows == s.rows && s'.cols == s.cols
    ensures LiveCount(s') == 0
  {
    s.(liveCells := {})
  }

  /** `live_cell_count`: 0 exactly for an empty board. */
  function LiveCount(s: Life): (n: nat)
    ensures n == 0 <==> s.liveCells == {}
  {
    |s.liveCells|
  }

  /** While the live cells stay on the board, there are at most rows·cols of them. */
  lemma LiveCountFitsBoard(s: Life)
    requires s.liveCells <= GetDenseCells(s) && 0 <= s.rows && 0 <= s.cols
    ensures LiveCount(s) <= s.rows * s.cols
  {
    SubsetSize(s.liveCells, GetDenseCells(s));
  }

  /** `seed`: clear the board, order all its coordinates at random and make
      the first numCells of them live (Python slicing: a negative numCells
      leaves that many out). The random order is a parameter: order lists
      every coordinate of the board once. */
  function Seed(s: Life, numCells: int, order: seq<Coord>): (s': Life)
    requires Distinct(order) && Elems(order) == GetDenseCells(s)
    ensures s'.rows == s.rows && s'.cols == s.cols
    ensures s'.liveCells <= GetDenseCells(s)
    ensures s'.liveCells == Elems(order[..SliceEnd(numCells, |order|)])
    ensures LiveCount(s') == SliceEnd(numCells, |GetDenseCells(s)|)
  {
    var k := SliceEnd(numCells, |order|);
    DistinctSize(order);
    DistinctPrefix(order, k);
    ZeroOut(s).(liveCells := Elems(order[..k]))
  }

  /** nc counts, for every coordinate, the cells of done that reach it
      through nm; it has a key exactly where that count is not zero. */
  ghost predicate CountsFrom(nc: map<Coord, int>, done: set<Coord>, nm: set<Coord>) {
    forall p :: (p in nc <==> Hits(done, nm, p) != {}) && (p in nc ==> nc[p] == |Hits(done, nm, p)|)
  }

  /** `get_neighbor_counts` over `gen_all_neighbors`: for every live cell and
      every offset of `neighbors_map`, add one at the coordinate reached, on
      the board or not. A coordinate no live cell reaches has no key. */
  method GetNeighborCounts(live: set<Coord>) returns (nc: map<Coord, int>)
    ensures forall p :: p in nc <==> LiveNeighbors(live, p) != {}
    ensures forall p :: p in nc ==> nc[p] == |LiveNeighbors(live, p)|
  {
    var nm := NeighborsMap();
    nc := map[];
    var todo := live;
    assert forall p :: Hits({}, nm, p) == {};
    while todo != {}
      invariant todo <= live
      invariant CountsFrom(nc, live - todo, nm)
      decreases todo
    {
      var c :| c in todo;
      nc := AddNeighbors(nc, live - todo, nm, c);
      assert live - (todo - {c}) == (live - todo) + {c};
      todo := todo - {c};
    }
    assert live - todo == live;
    forall p
      ensures Hits(live, nm, p) == LiveNeighbors(live, p)
    {
      HitsAreKingMoves(live, p);
    }
  }

  /** The inner loop of `gen_all_neighbors` for one live cell c. */
  method AddNeighbors(nc: map<Coord, int>, done: set<Coord>, nm: set<Coord>, c: Coord)
    returns (nc': map<Coord, int>)
    requires c !in done
    requires CountsFrom(nc, done, nm)
    ensures CountsFrom(nc', done + {c}, nm)
  {
    nc' := nc;
    var todo := nm;
    while todo != {}
      invariant todo <= nm
      invariant forall p :: p in nc' <==> Hits(done, nm, p) != {} || Covers(nm - todo, c, p)
      invariant forall p :: p in nc' ==> nc'[p] == |Hits(done, nm, p)| + (if Covers(nm - todo, c, p) then 1 else 0)
      decreases todo
    {
      var d :| d in todo;
      var n := (c.0 + d.0, c.1 + d.1);
      nc' := nc'[n := 1 + Get(nc', n)];
      assert forall p :: Covers(nm - (todo - {d}), c, p) <==> Covers(nm - todo, c, p) || p == n;
      todo := todo - {d};
    }
    forall p
      ensures (p in nc' <==> Hits(done + {c}, nm, p) != {}) && (p in nc' ==> nc'[p] == |Hits(done + {c}, nm, p)|)
    {
      HitsInsert(done, nm, c, p);
      if Covers(nm, c, p) {
        assert c in Hits(done + {c}, nm, p);
      } else {
        assert Hits(done + {c}, nm, p) == Hits(done, nm, p);
      }
    }
  }

  /** `nc.get(p, 0)`. */
  function Get(nc: map<Coord, int>, p: Coord): (n: int)
    ensures p in nc ==> n == nc[p]
    ensures p !in nc ==> n == 0
  {
    if p in nc then nc[p] else 0
  }

  /** The Game of Life on a rows x cols board, from scratch: a coordinate of
      the board is live next exactly when the rule says so for its state and
      its number of live king-move neighbours. */
  function LifeStep(live: set<Coord>, rows: int, cols: int): (next: set<Coord>)
    ensures next <= DenseCells(rows, cols)
  {
    set p | p in DenseCells(rows, cols) && LiveNext(live, p)
  }

  /** The rule says p is live in the next generation. */
  predicate LiveNext(live: set<Coord>, p: Coord) {
    NextState(if p in live then Live else Dead, |LiveNeighbors(live, p)|) == Live
  }

  /** The body of `advance`: count, pick the cells to die (live ones whose
      count is not 2 or 3) and to be born (counted dead ones whose count is
      3), and keep what lies on the board. */
  method NextLiveCells(s: Life) returns (next: set<Coord>)
    ensures next == LifeStep(s.liveCells, s.rows, s.cols)
  {
    var nc := GetNeighborCounts(s.liveCells);
    var toDie := set lc | lc in s.liveCells && Get(nc, lc) !in [2, 3];
    var toBirth := set dc | dc in nc.Keys - s.liveCells && Get(nc, dc) == 3;
    next := (s.liveCells - toDie + toBirth) * GetDenseCells(s);
    forall p
      ensures p in next <==> p in LifeStep(s.liveCells, s.rows, s.cols)
    {
      assert Get(nc, p) == |LiveNeighbors(s.liveCells, p)|;
    }
  }

  /** `advance` as written: the board moves one generation, but the method
      has no return statement, so it always returns None. */
  method Advance(s: Life) returns (s': Life, ret: Option<bool>)
    ensures s'.rows == s.rows && s'.cols == s.cols
    ensures s'.liveCells == LifeStep(s.liveCells, s.rows, s.cols)
    ensures ret == None
  {
    var next := NextLiveCells(s);
    s' := s.(liveCells := next);
    ret := None;
  }

  /** `advance` as evidently intended: the same step, reporting whether the
      board changed, which is what the steady-state test of `main` reads. */
  method AdvanceReportingChange(s: Life) returns (s': Life, changed: bool)
    ensures s'.rows == s.rows && s'.cols == s.cols
    ensures s'.liveCells == LifeStep(s.liveCells, s.rows, s.cols)
    ensures changed <==> s'.liveCells != s.liveCells
  {
    var next := NextLiveCells(s);
    s' := s.(liveCells := next);
    changed := next != s.liveCells;
  }

  /** The sparse step and the dense step with `neighbors_map` agree on every board. */
  lemma SparseMatchesDense(live: set<Coord>, rows: nat, cols: nat)
    requires live <= DenseCells(rows, cols)
    ensures ToGrid(LifeStep(live, rows, cols), rows, cols)
            == Incremental.DenseStep(ToGrid(live, rows, cols), rows, cols, NeighborsMap())
  {
    var g := ToGrid(live, rows, cols);
    var a, b := ToGrid(LifeStep(live, rows, cols), rows, cols), Incremental.DenseStep(g, rows, cols, NeighborsMap());
    forall i, j | 0 <= i < rows && 0 <= j < cols
      ensures a[i][j] == b[i][j]
    {
      SparseMatchesDenseAt(live, rows, cols, i, j);
    }
    GridExt(a, b, rows, cols);
  }

  /** The two steps agree at one cell. */
  lemma SparseMatchesDenseAt(live: set<Coord>, rows: nat, cols: nat, i: int, j: int)
    requires live <= DenseCells(rows, cols) && InBounds(rows, cols, (i, j))
    ensures (ToGrid(LifeStep(live, rows, cols), rows, cols)[i][j] == Live)
            == (NextState(ToGrid(live, rows, cols)[i][j],
                          Incremental.Tally(ToGrid(live, rows, cols), rows, cols, NeighborsMap(), (i, j))) == Live)
  {
    TallyOfToGrid(live, rows, cols, (i, j));
    assert ToGrid(live, rows, cols)[i][j] == if (i, j) in live then Live else Dead;
  }

  /** On the board of a set, the reference count is the number of live king-move neighbours. */
  lemma TallyOfToGrid(live: set<Coord>, rows: nat, cols: nat, p: Coord)
    requires live <= DenseCells(rows, cols)
    ensures Incremental.Tally(ToGrid(live, rows, cols), rows, cols, NeighborsMap(), p) == |LiveNeighbors(live, p)|
  {
    var g := ToGrid(live, rows, cols);
    ToGridRoundTrip(g, live, rows, cols);
    assert LiveSet(g, rows, cols) == live;
    HitsAreKingMoves(live, p);
  }

  /** On a 2 x 2 board every cell touches every other, so a cell's live
      neighbours are the live cells other than itself. */
  lemma TwoByTwoNeighborCount(live: set<Coord>, p: Coord)
    requires live <= DenseCells(2, 2) && InBounds(2, 2, p)
    ensures |LiveNeighbors(live, p)| == |live| - (if p in live then 1 else 0)
  {
    HitsAreKingMoves(live, p);
    TwoByTwoCounts(live, p);
    RemoveSize(live, p);
  }

  /** A full 2 x 2 board is a still life: each cell has three live
      neighbours, so a step changes nothing. */
  lemma FullTwoByTwoIsStill(live: set<Coord>)
    requires live == DenseCells(2, 2)
    ensures LifeStep(live, 2, 2) == live
  {
    DenseCellsSize(2, 2);
    forall p | p in live
      ensures LiveNext(live, p)
    {
      TwoByTwoNeighborCount(live, p);
    }
  }

  /** Three live cells of a 2 x 2 board fill it: each live one has two live
      neighbours and stays, the dead one has three and is born. */
  lemma ThreeOfTwoByTwoFill(live: set<Coord>, q: Coord)
    requires InBounds(2, 2, q) && live == DenseCells(2, 2) - {q}
    ensures LifeStep(live, 2, 2) == DenseCells(2, 2)
    ensures LifeStep(live, 2, 2) != live
  {
    assert |live| == 3 by {
      DenseCellsSize(2, 2);
      RemoveSize(DenseCells(2, 2), q);
    }
    forall p | p in DenseCells(2, 2)
      ensures LiveNext(live, p)
    {
      TwoByTwoNeighborCount(live, p);
    }
    assert q in LifeStep(live, 2, 2);
  }

  /** The four corners of a 3 x 3 board. */
  function Corners(): (c: set<Coord>)
    ensures c <= DenseCells(3, 3)
  {
    {(0, 0), (0, 2), (2, 0), (2, 2)}
  }

  /** A full 3 x 3 board keeps only its corners: a corner has three live
      neighbours, every other cell at least four. */
  lemma FullThreeByThreeLeavesCorners(live: set<Coord>)
    requires live == DenseCells(3, 3)
    ensures LifeStep(live, 3, 3) == Corners()
  {
    forall p | p in live
      ensures LiveNext(live, p) <==> p in Corners()
    {
      if p in Corners() {
        FullCornerCount(live, p);
      } else {
        FullInnerCount(live, p);
      }
    }
  }

  lemma FullCornerCount(live: set<Coord>, p: Coord)
    requires live == DenseCells(3, 3) && p in Corners()
    ensures |LiveNeighbors(live, p)| == 3
  {
    var di, dj := if p.0 == 0 then 1 else -1, if p.1 == 0 then 1 else -1;
    var near := {(p.0 + di, p.1), (p.0, p.1 + dj), (p.0 + di, p.1 + dj)};
    forall q
      ensures q in LiveNeighbors(live, p) <==> q in near
    {
    }
    assert LiveNeighbors(live, p) == near;
    assert |near| == 3;
  }

  lemma FullInnerCount(live: set<Coord>, p: Coord)
    requires live == DenseCells(3, 3) && p in live && p !in Corners()
    ensures |LiveNeighbors(live, p)| >= 4
  {
    var four: set<Coord>;
    if p.0 == 1 {
      var c := if p.1 == 1 then 0 else 1;
      four := {(0, p.1), (2, p.1), (0, c), (2, c)};
    } else {
      var r := if p.0 == 1 then 0 else 1;
      four := {(p.0, 0), (p.0, 2), (r, 0), (r, 2)};
    }
    assert |four| == 4;
    SubsetSize(four, LiveNeighbors(live, p));
  }

  /** The four corners of a 3 x 3 board all die and nothing is born: a
      corner has no live neighbour, an edge cell two and the centre four. */
  lemma CornersDie(live: set<Coord>)
    requires live == Corners()
    ensures LifeStep(live, 3, 3) == {}
  {
    forall p | p in DenseCells(3, 3)
      ensures !LiveNext(live, p)
    {
      if p in live {
        assert LiveNeighbors(live, p) == {};
      } else if p == (1, 1) {
        assert LiveNeighbors(live, p) == live;
      } else if p.0 == 1 {
        assert LiveNeighbors(live, p) == {(0, p.1), (2, p.1)};
      } else {
        assert LiveNeighbors(live, p) == {(p.0, 0), (p.0, 2)};
      }
    }
  }

  /** An empty board stays empty. */
  lemma EmptyStaysEmpty(rows: int, cols: int)
    ensures LifeStep({}, rows, cols) == {}
  {
    forall p | p in DenseCells(rows, cols)
      ensures !LiveNext({}, p)
    {
      assert LiveNeighbors({}, p) == {};
    }
  }

  /** A full 3 x 3 board dies out in two steps and then stays empty. */
  lemma FullThreeByThreeDiesOut(live: set<Coord>)
    requires live == DenseCells(3, 3)
    ensures LifeStep(live, 3, 3) == Corners()
    ensures LifeStep(LifeStep(live, 3, 3), 3, 3) == {}
    ensures LifeStep({}, 3, 3) == {}
  {
    FullThreeByThreeLeavesCorners(live);
    CornersDie(Corners());
    EmptyStaysEmpty(3, 3);
  }
}
