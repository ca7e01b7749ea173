/** The neighbour model: the offsets that define adjacency, and the reference
    count of live cells around a coordinate against which every engine's
    counters are measured. */
module Neighborhood {
  import opened Board

  /** The eight neighbour offsets and the nine window offsets, listed in row-major order. */
  const NeighborOffsets: seq<Coord> := [(-1, -1), (-1, 0), (-1, 1), (0, -1), (0, 1), (1, -1), (1, 0), (1, 1)]
  const WindowOffsets: seq<Coord> := [(-1, -1), (-1, 0), (-1, 1), (0, -1), (0, 0), (0, 1), (1, -1), (1, 0), (1, 1)]

  /** The whole 3x3 block of offsets around the origin, (0, 0) included. */
  function Window(): (w: set<Coord>)
    ensures forall d :: d in w <==> -1 <= d.0 <= 1 && -1 <= d.1 <= 1
    ensures |w| == 9
  {
    OffsetListsCoverBlocks();
    DistinctSize(WindowOffsets);
    Elems(WindowOffsets)
  }

  /** `neighbors_map`: the king moves, the product of range(-1, 2) with itself
      without (0, 0). */
  function NeighborsMap(): (nm: set<Coord>)
    ensures forall d :: d in nm <==> -1 <= d.0 <= 1 && -1 <= d.1 <= 1 && d != (0, 0)
    ensures |nm| == 8
  {
    OffsetListsCoverBlocks();
    DistinctSize(NeighborOffsets);
    Elems(NeighborOffsets)
  }

  lemma OffsetListsCoverBlocks()
    ensures Distinct(NeighborOffsets) && Distinct(WindowOffsets)
    ensures forall d :: d in WindowOffsets <==> -1 <= d.0 <= 1 && -1 <= d.1 <= 1
    ensures forall d :: d in NeighborOffsets <==> -1 <= d.0 <= 1 && -1 <= d.1 <= 1 && d != (0, 0)
  {
    OffsetListsAscend();
    RowMajorDistinct(NeighborOffsets);
    RowMajorDistinct(WindowOffsets);
    WindowOffsetsCoverBlock();
    NeighborOffsetsCoverBlock();
  }

  lemma OffsetListsAscend()
    ensures RowMajor(NeighborOffsets) && RowMajor(WindowOffsets)
  {
    RowMajorFromSteps(NeighborOffsets);
    RowMajorFromSteps(WindowOffsets);
  }

  lemma WindowOffsetsCoverBlock()
    ensures forall d :: d in WindowOffsets <==> -1 <= d.0 <= 1 && -1 <= d.1 <= 1
  {
  }

  lemma NeighborOffsetsCoverBlock()
    ensures forall d :: d in NeighborOffsets <==> -1 <= d.0 <= 1 && -1 <= d.1 <= 1 && d != (0, 0)
  {
  }

  /** A live cell at q adds to the counter at p: p is q moved by one of the offsets. */
  predicate Covers(offs: set<Coord>, q: Coord, p: Coord) {
    (p.0 - q.0, p.1 - q.1) in offs
  }

  /** The live cells counted at p: those whose offset to p is one of offs. */
  function Hits(live: set<Coord>, offs: set<Coord>, p: Coord): set<Coord> {
    set q | q in live && Covers(offs, q, p)
  }

  /** q is one king move away from p. */
  predicate Adjacent(q: Coord, p: Coord) {
    q != p && -1 <= q.0 - p.0 <= 1 && -1 <= q.1 - p.1 <= 1
  }

  /** Reaching through `neighbors_map` is being a king move away; reaching
      through the window is being at most one step away in each direction. */
  lemma CoversMeans(q: Coord, p: Coord)
    ensures Covers(NeighborsMap(), q, p) <==> Adjacent(q, p)
    ensures Covers(Window(), q, p) <==> -1 <= q.0 - p.0 <= 1 && -1 <= q.1 - p.1 <= 1
  {
  }

  /** The live cells among the eight king-move neighbours of p. */
  function LiveNeighbors(live: set<Coord>, p: Coord): set<Coord> {
    set q | q in live && Adjacent(q, p)
  }

  /** The live cells in the 3x3 block centred on p, p itself included. */
  function LiveInWindow(live: set<Coord>, p: Coord): set<Coord> {
    set q | q in live && -1 <= q.0 - p.0 <= 1 && -1 <= q.1 - p.1 <= 1
  }

  /** Counting through `neighbors_map` counts the king-move neighbours, and
      counting through the window counts the block centred on the cell. */
  lemma HitsAreNeighbors(live: set<Coord>, p: Coord)
    ensures Hits(live, NeighborsMap(), p) == LiveNeighbors(live, p)
    ensures Hits(live, Window(), p) == LiveInWindow(live, p)
  {
    HitsAreKingMoves(live, p);
    HitsAreWindow(live, p);
  }

  lemma HitsAreKingMoves(live: set<Coord>, p: Coord)
    ensures Hits(live, NeighborsMap(), p) == LiveNeighbors(live, p)
  {
    assert forall q :: q in Hits(live, NeighborsMap(), p) <==> q in LiveNeighbors(live, p);
  }

  lemma HitsAreWindow(live: set<Coord>, p: Coord)
    ensures Hits(live, Window(), p) == LiveInWindow(live, p)
  {
    assert forall q :: q in Hits(live, Window(), p) <==> q in LiveInWindow(live, p);
  }

  /** A window count is the neighbour count plus one for a live centre. */
  lemma WindowCountsCentre(live: set<Coord>, p: Coord)
    ensures |LiveInWindow(live, p)| == |LiveNeighbors(live, p)| + (if p in live then 1 else 0)
  {
    if p in live {
      assert LiveInWindow(live, p) == LiveNeighbors(live, p) + {p};
    } else {
      assert LiveInWindow(live, p) == LiveNeighbors(live, p);
    }
  }

  /** Adding a cell that was not live raises the count at p by one exactly when it covers p. */
  lemma HitsInsert(live: set<Coord>, offs: set<Coord>, q: Coord, p: Coord)
    requires q !in live
    ensures |Hits(live + {q}, offs, p)| == |Hits(live, offs, p)| + (if Covers(offs, q, p) then 1 else 0)
  {
    if Covers(offs, q, p) {
      assert Hits(live + {q}, offs, p) == Hits(live, offs, p) + {q};
    } else {
      assert Hits(live + {q}, offs, p) == Hits(live, offs, p);
    }
  }

  /** Removing a live cell lowers the count at p by one exactly when it covers p. */
  lemma HitsRemove(live: set<Coord>, offs: set<Coord>, q: Coord, p: Coord)
    requires q in live
    ensures |Hits(live - {q}, offs, p)| == |Hits(live, offs, p)| - (if Covers(offs, q, p) then 1 else 0)
  {
    if Covers(offs, q, p) {
      assert Hits(live, offs, p) == Hits(live - {q}, offs, p) + {q};
    } else {
      assert Hits(live - {q}, offs, p) == Hits(live, offs, p);
    }
  }

  /** No count exceeds the number of offsets. */
  lemma {:induction false} HitsBound(live: set<Coord>, offs: set<Coord>, p: Coord)
    ensures |Hits(live, offs, p)| <= |offs|
    decreases |offs|
  {
    if offs == {} {
      assert Hits(live, offs, p) == {};
    } else {
      var d :| d in offs;
      var rest := offs - {d};
      HitsBound(live, rest, p);
      var src := (p.0 - d.0, p.1 - d.1);
      assert Hits(live, offs, p) <= Hits(live, rest, p) + {src};
      SubsetSize(Hits(live, offs, p), Hits(live, rest, p) + {src});
    }
  }

  lemma SubsetSize<T>(a: set<T>, b: set<T>)
    requires a <= b
    ensures |a| <= |b|
  {
    assert b == a + (b - a);
  }

  /** On a 2 x 2 board every cell is within one step of every other, so a
      window holds every live cell and the neighbours are all the others. */
  lemma TwoByTwoCounts(live: set<Coord>, p: Coord)
    requires live <= DenseCells(2, 2) && InBounds(2, 2, p)
    ensures |Hits(live, Window(), p)| == |live|
    ensures |Hits(live, NeighborsMap(), p)| == |live - {p}|
  {
    TwoByTwoClose(live, p);
    TwoByTwoWindow(live, p);
    TwoByTwoNeighbors(live, p);
  }

  lemma TwoByTwoClose(live: set<Coord>, p: Coord)
    requires live <= DenseCells(2, 2) && InBounds(2, 2, p)
    ensures forall q :: q in live ==> -1 <= q.0 - p.0 <= 1 && -1 <= q.1 - p.1 <= 1
  {
    forall q | q in live
      ensures -1 <= q.0 - p.0 <= 1 && -1 <= q.1 - p.1 <= 1
    {
      assert InBounds(2, 2, q);
    }
  }

  lemma TwoByTwoWindow(live: set<Coord>, p: Coord)
    requires forall q :: q in live ==> -1 <= q.0 - p.0 <= 1 && -1 <= q.1 - p.1 <= 1
    ensures |Hits(live, Window(), p)| == |live|
  {
    HitsAreWindow(live, p);
    assert LiveInWindow(live, p) == live;
  }

  lemma TwoByTwoNeighbors(live: set<Coord>, p: Coord)
    requires forall q :: q in live ==> -1 <= q.0 - p.0 <= 1 && -1 <= q.1 - p.1 <= 1
    ensures |Hits(live, NeighborsMap(), p)| == |live - {p}|
  {
    HitsAreKingMoves(live, p);
    assert LiveNeighbors(live, p) == live - {p};
  }
}
