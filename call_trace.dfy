/**
  The callback `func` of parallel_for is modelled as an opaque call that
  appends its argument to a trace. This module gives the traces the worker
  loops produce: an interval of indices (1D) and a row-major grid of index
  pairs (2D), with the lemmas that glue adjacent pieces together and count
  how often each argument occurs.
*/
module CallTrace {

  /** The indices lo, lo+1, ..., hi-1 in order (empty when hi <= lo). */
  function Interval(lo: int, hi: int): seq<int>
    decreases hi - lo
  {
    if hi <= lo then [] else Interval(lo, hi - 1) + [hi - 1]
  }

  /** Two adjacent intervals run one after the other give the joined interval. */
  lemma {:induction false} IntervalSplit(lo: int, mid: int, hi: int)
    requires lo <= mid <= hi
    ensures Interval(lo, mid) + Interval(mid, hi) == Interval(lo, hi)
    decreases hi - mid
  {
    if mid < hi {
      IntervalSplit(lo, mid, hi - 1);
    }
  }

  /** Every index of [lo, hi) occurs exactly once in Interval(lo, hi), and no other does. */
  lemma {:induction false} IntervalCount(lo: int, hi: int, x: int)
    ensures multiset(Interval(lo, hi))[x] == if lo <= x < hi then 1 else 0
    decreases hi - lo
  {
    if lo < hi {
      IntervalCount(lo, hi - 1, x);
    }
  }

  /** How often each index occurs in a trace made of two intervals one after the other. */
  lemma IntervalsCount(s: seq<int>, lo1: int, hi1: int, lo2: int, hi2: int)
    requires s == Interval(lo1, hi1) + Interval(lo2, hi2)
    ensures forall x :: (multiset(s)[x]
      == (if lo1 <= x < hi1 then 1 else 0) + (if lo2 <= x < hi2 then 1 else 0))
  {
    forall x ensures multiset(s)[x] == (if lo1 <= x < hi1 then 1 else 0) + (if lo2 <= x < hi2 then 1 else 0) {
      IntervalCount(lo1, hi1, x);
      IntervalCount(lo2, hi2, x);
    }
  }

  /** The pairs (i, lo), (i, lo+1), ..., (i, hi-1): one pass of the inner j loop. */
  function Row(i: int, lo: int, hi: int): seq<(int, int)>
    decreases hi - lo
  {
    if hi <= lo then [] else Row(i, lo, hi - 1) + [(i, hi - 1)]
  }

  lemma {:induction false} RowCount(i: int, lo: int, hi: int, p: (int, int))
    ensures multiset(Row(i, lo, hi))[p] == if p.0 == i && lo <= p.1 < hi then 1 else 0
    decreases hi - lo
  {
    if lo < hi {
      RowCount(i, lo, hi - 1, p);
    }
  }

  /** Rows i0, i0+1, ..., i1-1 of columns [j0, j1), one after the other. */
  function Grid(i0: int, i1: int, j0: int, j1: int): seq<(int, int)>
    decreases i1 - i0
  {
    if i1 <= i0 then [] else Grid(i0, i1 - 1, j0, j1) + Row(i1 - 1, j0, j1)
  }

  /** Two adjacent bands of rows run one after the other give the joined band. */
  lemma {:induction false} GridSplit(i0: int, mid: int, i1: int, j0: int, j1: int)
    requires i0 <= mid <= i1
    ensures Grid(i0, mid, j0, j1) + Grid(mid, i1, j0, j1) == Grid(i0, i1, j0, j1)
    decreases i1 - mid
  {
    if mid < i1 {
      GridSplit(i0, mid, i1 - 1, j0, j1);
    }
  }

  /** Every pair of [i0, i1) x [j0, j1) occurs exactly once in the grid, and no other does. */
  lemma {:induction false} GridCount(i0: int, i1: int, j0: int, j1: int, p: (int, int))
    ensures multiset(Grid(i0, i1, j0, j1))[p] == if i0 <= p.0 < i1 && j0 <= p.1 < j1 then 1 else 0
    decreases i1 - i0
  {
    if i0 < i1 {
      GridCount(i0, i1 - 1, j0, j1, p);
      RowCount(i1 - 1, j0, j1, p);
    }
  }

  /** How often each pair occurs in a trace made of two grids one after the other. */
  lemma GridsCount(s: seq<(int, int)>, i0: int, i1: int, k0: int, k1: int, j0: int, j1: int)
    requires s == Grid(i0, i1, j0, j1) + Grid(k0, k1, j0, j1)
    ensures forall p: (int, int) :: (multiset(s)[p]
      == (if i0 <= p.0 < i1 && j0 <= p.1 < j1 then 1 else 0) + (if k0 <= p.0 < k1 && j0 <= p.1 < j1 then 1 else 0))
  {
    forall p: (int, int) ensures multiset(s)[p]
      == (if i0 <= p.0 < i1 && j0 <= p.1 < j1 then 1 else 0) + (if k0 <= p.0 < k1 && j0 <= p.1 < j1 then 1 else 0)
    {
      GridCount(i0, i1, j0, j1, p);
      GridCount(k0, k1, j0, j1, p);
    }
  }
}
