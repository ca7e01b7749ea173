/** Boards shared by the three engines: cell states, coordinates, rectangular
    grids stored as rows of cells, the Game of Life rule, and the counting of
    live and dead cells. */
module Board {

  /** A cell. The source stores LIVE as 1 and DEAD as 0; no other value is ever stored. */
  datatype Cell = Dead | Live

  /** A (row, column) pair. */
  type Coord = (int, int)

  /** The failures the engines raise. */
  datatype Error =
    | NeedRowsAndCols   // construction with fewer than one row or column
    | StepNotUnit       // a counter step other than +1 or -1
    | CountNotInTable   // a neighbour count missing from a dispatch table (a KeyError)

  datatype Result<T> = Ok(value: T) | Err(error: Error)

  datatype Option<T> = None | Some(value: T)

  predicate InBounds(rows: int, cols: int, p: Coord) {
    0 <= p.0 < rows && 0 <= p.1 < cols
  }

  /** Every coordinate of a rows x cols board, in no particular order. */
  function DenseCells(rows: int, cols: int): (s: set<Coord>)
    ensures forall p :: p in s <==> InBounds(rows, cols, p)
  {
    set i, j | 0 <= i < rows && 0 <= j < cols :: (i, j)
  }

  /** g has `rows` rows of `cols` entries each. */
  predicate Shaped<T>(g: seq<seq<T>>, rows: int, cols: int) {
    |g| == rows && 0 <= cols && forall i :: 0 <= i < rows ==> |g[i]| == cols
  }

  /** A rows x cols board with every entry equal to v. */
  function Filled<T>(rows: nat, cols: nat, v: T): (g: seq<seq<T>>)
    ensures Shaped(g, rows, cols)
    ensures forall i, j :: 0 <= i < rows && 0 <= j < cols ==> g[i][j] == v
  {
    seq(rows, _ => seq(cols, _ => v))
  }

  /** g with the entry at p replaced by v. */
  function SetCell<T>(g: seq<seq<T>>, p: Coord, v: T): (g': seq<seq<T>>)
    requires 0 <= p.0 < |g| && 0 <= p.1 < |g[p.0]|
    ensures |g'| == |g|
    ensures forall i :: 0 <= i < |g| ==> |g'[i]| == |g[i]|
    ensures forall i, j :: 0 <= i < |g| && 0 <= j < |g[i]| ==>
              g'[i][j] == (if (i, j) == p then v else g[i][j])
  {
    g[p.0 := g[p.0][p.1 := v]]
  }

  /** g with the entry at every coordinate of ps replaced by v, in the order of ps. */
  function MarkAll<T>(g: seq<seq<T>>, rows: int, cols: int, ps: seq<Coord>, v: T): (g': seq<seq<T>>)
    requires Shaped(g, rows, cols)
    requires forall k :: 0 <= k < |ps| ==> InBounds(rows, cols, ps[k])
    ensures Shaped(g', rows, cols)
    ensures forall i, j :: 0 <= i < rows && 0 <= j < cols ==>
              g'[i][j] == (if (i, j) in ps then v else g[i][j])
    decreases |ps|
  {
    if |ps| == 0 then g
    else
      var n := |ps| - 1;
      assert ps == ps[..n] + [ps[n]];
      var front := MarkAll(g, rows, cols, ps[..n], v);
      assert InBounds(rows, cols, ps[n]) && |front[ps[n].0]| == cols;
      SetCell(front, ps[n], v)
  }

  /** Marking one more coordinate of ps sets that entry on top of the earlier marks. */
  lemma MarkAllStep<T>(g: seq<seq<T>>, rows: int, cols: int, ps: seq<Coord>, k: int, v: T)
    requires Shaped(g, rows, cols) && 0 <= k < |ps|
    requires forall m :: 0 <= m < |ps| ==> InBounds(rows, cols, ps[m])
    ensures InBounds(rows, cols, ps[k])
    ensures MarkAll(g, rows, cols, ps[..k + 1], v) == SetCell(MarkAll(g, rows, cols, ps[..k], v), ps[k], v)
  {
    assert ps[..k + 1][..k] == ps[..k];
  }

  /** Two boards of the same shape with the same entries are equal. */
  lemma GridExt<T>(a: seq<seq<T>>, b: seq<seq<T>>, rows: int, cols: int)
    requires Shaped(a, rows, cols) && Shaped(b, rows, cols)
    requires forall i, j :: 0 <= i < rows && 0 <= j < cols ==> a[i][j] == b[i][j]
    ensures a == b
  {
    forall i | 0 <= i < rows
      ensures a[i] == b[i]
    {
      assert |a[i]| == |b[i]| == cols;
      assert forall j :: 0 <= j < cols ==> a[i][j] == b[i][j];
    }
  }

  /** The coordinates of the live cells of g. */
  function LiveSet(g: seq<seq<Cell>>, rows: int, cols: int): (s: set<Coord>)
    requires Shaped(g, rows, cols)
    ensures s <= DenseCells(rows, cols)
  {
    set p | p in DenseCells(rows, cols) && g[p.0][p.1] == Live
  }

  /** The dense board of a set of live coordinates: entry (i, j) is live
      exactly when (i, j) is in the set. */
  function ToGrid(live: set<Coord>, rows: nat, cols: nat): (g: seq<seq<Cell>>)
    ensures Shaped(g, rows, cols)
    ensures forall i, j :: 0 <= i < rows && 0 <= j < cols ==> (g[i][j] == Live <==> (i, j) in live)
  {
    seq(rows, i => seq(cols, j => if (i, j) in live then Live else Dead))
  }

  /** Reading a board back from its live set gives the board, and the live
      set of the board of a set is that set cut to the board. */
  lemma ToGridRoundTrip(g: seq<seq<Cell>>, live: set<Coord>, rows: nat, cols: nat)
    requires Shaped(g, rows, cols)
    ensures ToGrid(LiveSet(g, rows, cols), rows, cols) == g
    ensures LiveSet(ToGrid(live, rows, cols), rows, cols) == live * DenseCells(rows, cols)
  {
    var h := ToGrid(LiveSet(g, rows, cols), rows, cols);
    forall i, j | 0 <= i < rows && 0 <= j < cols
      ensures h[i][j] == g[i][j]
    {
      assert (i, j) in DenseCells(rows, cols);
    }
    GridExt(h, g, rows, cols);
  }

  /** A board whose every cell is live has the whole grid as its live set. */
  lemma AllLive(g: seq<seq<Cell>>, rows: nat, cols: nat)
    requires Shaped(g, rows, cols)
    requires forall i, j :: 0 <= i < rows && 0 <= j < cols ==> g[i][j] == Live
    ensures LiveSet(g, rows, cols) == DenseCells(rows, cols)
    ensures |LiveSet(g, rows, cols)| == rows * cols
  {
    DenseCellsSize(rows, cols);
  }

  /** A board live everywhere but at q has every cell but q in its live set. */
  lemma AllButOneLive(g: seq<seq<Cell>>, rows: nat, cols: nat, q: Coord)
    requires Shaped(g, rows, cols) && InBounds(rows, cols, q)
    requires forall i, j :: 0 <= i < rows && 0 <= j < cols ==> g[i][j] == if (i, j) == q then Dead else Live
    ensures LiveSet(g, rows, cols) == DenseCells(rows, cols) - {q}
    ensures |LiveSet(g, rows, cols)| == rows * cols - 1
  {
    DenseCellsSize(rows, cols);
    RemoveSize(DenseCells(rows, cols), q);
  }

  /** Removing an element shrinks a set by one exactly when it was there. */
  lemma RemoveSize<T>(s: set<T>, x: T)
    ensures |s - {x}| == |s| - (if x in s then 1 else 0)
  {
    if x in s {
      assert s == (s - {x}) + {x};
    } else {
      assert s - {x} == s;
    }
  }

  /** Setting one cell changes the live set by that cell only. */
  lemma LiveSetAfterSet(g: seq<seq<Cell>>, rows: int, cols: int, q: Coord, v: Cell)
    requires Shaped(g, rows, cols) && InBounds(rows, cols, q)
    ensures Shaped(SetCell(g, q, v), rows, cols)
    ensures LiveSet(SetCell(g, q, v), rows, cols)
              == if v == Live then LiveSet(g, rows, cols) + {q} else LiveSet(g, rows, cols) - {q}
  {
    var g' := SetCell(g, q, v);
    assert Shaped(g', rows, cols);
    var l, l' := LiveSet(g, rows, cols), LiveSet(g', rows, cols);
    if v == Live {
      assert forall p :: p in l' <==> p in l + {q};
    } else {
      assert forall p :: p in l' <==> p in l - {q};
    }
  }

  /** The Game of Life rule: the next state of a cell in state c with n live neighbours. */
  function NextState(c: Cell, n: int): (c': Cell)
    ensures c == Live ==> (c' == Live <==> n == 2 || n == 3)
    ensures c == Dead ==> (c' == Live <==> n == 3)
  {
    match c
    case Live => if n < 2 || 3 < n then Dead else Live
    case Dead => if n == 3 then Live else Dead
  }

  /** Number of live cells in a row, as the sum of its 0/1 values. */
  function RowLiveCount(row: seq<Cell>): (n: nat)
    ensures n <= |row|
    ensures n == 0 <==> forall j :: 0 <= j < |row| ==> row[j] == Dead
  {
    if |row| == 0 then 0
    else RowLiveCount(row[..|row| - 1]) + (if row[|row| - 1] == Live then 1 else 0)
  }

  /** `live_cell_count`: the sum over the rows of each row's sum. */
  function LiveCellCount(g: seq<seq<Cell>>): (n: nat)
    ensures n == 0 <==> forall i, j :: 0 <= i < |g| && 0 <= j < |g[i]| ==> g[i][j] == Dead
  {
    if |g| == 0 then 0 else LiveCellCount(g[..|g| - 1]) + RowLiveCount(g[|g| - 1])
  }

  /** The live cells of one row, as coordinates in row i. */
  function RowLiveSet(row: seq<Cell>, i: int): set<Coord> {
    set p | p in RowCells(i, |row|) && row[p.1] == Live
  }

  lemma {:induction false} RowLiveCountIsSize(row: seq<Cell>, i: int)
    ensures RowLiveCount(row) == |RowLiveSet(row, i)|
    decreases |row|
  {
    if |row| == 0 {
      assert RowLiveSet(row, i) == {};
    } else {
      var n := |row| - 1;
      var front := row[..n];
      RowLiveCountIsSize(front, i);
      var whole, part := RowLiveSet(row, i), RowLiveSet(front, i);
      forall p
        ensures p in whole <==> p in part || (p == (i, n) && row[n] == Live)
      {
        if p.0 == i && 0 <= p.1 < n {
          assert front[p.1] == row[p.1];
        }
      }
      if row[n] == Live {
        assert whole == part + {(i, n)};
        assert (i, n) !in part;
      } else {
        assert whole == part;
      }
    }
  }

  /** `live_cell_count` counts exactly the live coordinates of the board. */
  lemma {:induction false} LiveCellCountIsSize(g: seq<seq<Cell>>, rows: int, cols: int)
    requires Shaped(g, rows, cols)
    ensures LiveCellCount(g) == |LiveSet(g, rows, cols)|
    decreases rows
  {
    if rows == 0 {
      assert LiveSet(g, rows, cols) == {};
    } else {
      var n := rows - 1;
      var front := g[..n];
      assert Shaped(front, n, cols);
      LiveCellCountIsSize(front, n, cols);
      RowLiveCountIsSize(g[n], n);
      var top, last := LiveSet(front, n, cols), RowLiveSet(g[n], n);
      assert LiveSet(g, rows, cols) == top + last;
      assert top !! last;
    }
  }

  /** Row-major order: p comes strictly before q. */
  predicate Precedes(p: Coord, q: Coord) {
    p.0 < q.0 || (p.0 == q.0 && p.1 < q.1)
  }

  /** s is strictly increasing in row-major order (so it has no repeats). */
  predicate RowMajor(s: seq<Coord>) {
    forall a, b :: 0 <= a < b < |s| ==> Precedes(s[a], s[b])
  }

  /** A sequence whose neighbours are in row-major order is row-major throughout. */
  lemma {:induction false} RowMajorFromSteps(s: seq<Coord>)
    requires forall k :: 0 <= k < |s| - 1 ==> Precedes(s[k], s[k + 1])
    ensures RowMajor(s)
    decreases |s|
  {
    if |s| > 1 {
      var t := s[1..];
      forall k | 0 <= k < |t| - 1
        ensures Precedes(t[k], t[k + 1])
      {
        assert t[k] == s[k + 1] && t[k + 1] == s[k + 2];
      }
      RowMajorFromSteps(t);
      forall a, b | 0 <= a < b < |s|
        ensures Precedes(s[a], s[b])
      {
        assert s[b] == t[b - 1];
        if 0 < a {
          assert s[a] == t[a - 1];
        } else if 1 < b {
          assert s[1] == t[0];
        }
      }
    }
  }

  /** Two row-major runs, the first wholly before the second, join into one. */
  lemma RowMajorAppend(a: seq<Coord>, b: seq<Coord>)
    requires RowMajor(a) && RowMajor(b)
    requires forall x, y :: x in a && y in b ==> Precedes(x, y)
    ensures RowMajor(a + b)
  {
    forall m, n | 0 <= m < n < |a + b|
      ensures Precedes((a + b)[m], (a + b)[n])
    {
      if n < |a| {
        assert (a + b)[m] == a[m] && (a + b)[n] == a[n];
      } else if m < |a| {
        assert (a + b)[m] == a[m] && (a + b)[n] == b[n - |a|];
      } else {
        assert (a + b)[m] == b[m - |a|] && (a + b)[n] == b[n - |a|];
      }
    }
  }

  predicate Distinct<T(==)>(s: seq<T>) {
    forall a, b :: 0 <= a < b < |s| ==> s[a] != s[b]
  }

  function Elems<T>(s: seq<T>): set<T> {
    set x | x in s
  }

  /** A prefix of a distinct sequence is distinct. */
  lemma DistinctPrefix<T>(s: seq<T>, k: nat)
    requires Distinct(s) && k <= |s|
    ensures Distinct(s[..k]) && |Elems(s[..k])| == k
  {
    assert Distinct(s[..k]);
    DistinctSize(s[..k]);
  }

  /** A row-major sequence has no repeats. */
  lemma RowMajorDistinct(s: seq<Coord>)
    requires RowMajor(s)
    ensures Distinct(s)
  {
    forall a, b | 0 <= a < b < |s|
      ensures s[a] != s[b]
    {
      assert Precedes(s[a], s[b]);
    }
  }

  lemma {:induction false} DistinctSize<T>(s: seq<T>)
    requires Distinct(s)
    ensures |Elems(s)| == |s|
    decreases |s|
  {
    if |s| > 0 {
      var n := |s| - 1;
      assert Distinct(s[..n]);
      DistinctSize(s[..n]);
      assert Elems(s) == Elems(s[..n]) + {s[n]};
      assert s[n] !in Elems(s[..n]);
    } else {
      assert Elems(s) == {};
    }
  }

  /** A distinct sequence has each element at most once in its multiset. */
  lemma {:induction false} DistinctMultiplicity<T>(s: seq<T>, x: T)
    requires Distinct(s)
    ensures multiset(s)[x] <= 1
    decreases |s|
  {
    if |s| > 0 {
      var n := |s| - 1;
      assert s == s[..n] + [s[n]];
      assert Distinct(s[..n]);
      DistinctMultiplicity(s[..n], x);
      if x == s[n] {
        assert x !in s[..n];
      }
    }
  }

  /** A permutation of a distinct sequence is distinct. */
  lemma PermutationKeepsDistinct<T>(a: seq<T>, b: seq<T>)
    requires multiset(a) == multiset(b) && Distinct(b)
    ensures Distinct(a)
  {
    forall i, j | 0 <= i < j < |a|
      ensures a[i] != a[j]
    {
      if a[i] == a[j] {
        var x := a[i];
        assert a == a[..j] + a[j..];
        assert x in a[..j] && x in a[j..];
        assert multiset(a)[x] == multiset(a[..j])[x] + multiset(a[j..])[x];
        DistinctMultiplicity(b, x);
        assert false;
      }
    }
  }

  /** The length of the Python slice xs[:n] of a list xs of length len;
      a negative n drops that many elements from the end. */
  function SliceEnd(n: int, len: nat): (k: nat)
    ensures k <= len
    ensures 0 <= n ==> k == if n < len then n else len
  {
    if 0 <= n then (if n < len then n else len)
    else if 0 < len + n then len + n else 0
  }

  /** The coordinates (i, 0..cols) of row i. */
  function RowCells(i: int, cols: int): (s: set<Coord>)
    ensures forall p :: p in s <==> p.0 == i && 0 <= p.1 < cols
  {
    set j | 0 <= j < cols :: (i, j)
  }

  lemma {:induction false} RowCellsSize(i: int, cols: nat)
    ensures |RowCells(i, cols)| == cols
  {
    if cols == 0 {
      assert RowCells(i, cols) == {};
    } else {
      RowCellsSize(i, cols - 1);
      assert RowCells(i, cols) == RowCells(i, cols - 1) + {(i, cols - 1)};
    }
  }

  lemma DenseCellsSplit(n: nat, cols: nat)
    ensures DenseCells(n + 1, cols) == DenseCells(n, cols) + RowCells(n, cols)
    ensures DenseCells(n, cols) !! RowCells(n, cols)
  {
  }

  /** A rows x cols board has rows * cols coordinates. */
  lemma {:induction false} DenseCellsSize(rows: nat, cols: nat)
    ensures |DenseCells(rows, cols)| == rows * cols
  {
    if rows == 0 {
      assert DenseCells(rows, cols) == {};
    } else {
      DenseCellsSize(rows - 1, cols);
      RowCellsSize(rows - 1, cols);
      DenseCellsSplit(rows - 1, cols);
      assert rows * cols == (rows - 1) * cols + cols;
    }
  }
}
