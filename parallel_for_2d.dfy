/**
  The two-dimensional parallel_for of simple-multithreader.h, with its
  threads run one after the other. Only the outer range [low1, high1) is
  split among the threads; every chunk carries the whole inner range
  [low2, high2). As in the 1D model, each call func(i, j) appends (i, j) to
  the returned trace and `spawnOk(t)` says whether pthread_create succeeds
  for worker t.
*/
module ParallelFor2D {
  import opened ThreadRange
  import opened CallTrace
  import ParallelFor1D

  /** ThreadWork2D without its copy of the callback. */
  datatype ThreadWork2D = ThreadWork2D(startI: int, endI: int, lowJ: int, highJ: int)

  /** The work table: entry t is thread t's band of rows, over all of [low2, high2). */
  function WorkTable(low1: int, high1: int, low2: int, high2: int, n: int): (table: seq<ThreadWork2D>)
    requires InInt32(low1) && InInt32(high1) && InInt32(high1 - low1) && 0 <= n <= INT_MAX
    ensures |table| == n
    ensures forall t :: 0 <= t < n ==>
      var r := CalculateThreadRange(low1, high1, t, n);
      table[t] == ThreadWork2D(r.start, r.end, low2, high2)
  {
    seq(n, t requires 0 <= t < n =>
      var r := CalculateThreadRange(low1, high1, t, n);
      ThreadWork2D(r.start, r.end, low2, high2))
  }

  /** The band of rows the calling thread runs itself. */
  function LastBand(low1: int, high1: int, n: int): Span
    requires InInt32(low1) && InInt32(high1) && InInt32(high1 - low1) && 1 <= n <= INT_MAX
  {
    CalculateThreadRange(low1, high1, n - 1, n)
  }

  /** The calls made by running work items lo .. hi-1 of a table in order. */
  function RunWork(table: seq<ThreadWork2D>, lo: int, hi: int): seq<(int, int)>
    requires 0 <= lo && hi <= |table|
    decreases hi - lo
  {
    if hi <= lo then []
    else RunWork(table, lo, hi - 1) + Grid(table[hi - 1].startI, table[hi - 1].endI, table[hi - 1].lowJ, table[hi - 1].highJ)
  }

  /** Band k of the table begins at the row where band k-1 ends. */
  predicate BandAdjacent(table: seq<ThreadWork2D>, k: int)
    requires 0 < k < |table|
  {
    table[k - 1].endI == table[k].startI
  }

  /**
    Every band of the table is a range of rows, each band ends where the
    next begins, and all of them run over the columns [low2, high2).
  */
  predicate Banded(table: seq<ThreadWork2D>, low2: int, high2: int) {
    && (forall k :: 0 <= k < |table| ==> table[k].startI <= table[k].endI)
    && (forall k :: 0 < k < |table| ==> BandAdjacent(table, k))
    && (forall k :: 0 <= k < |table| ==> table[k].lowJ == low2 && table[k].highJ == high2)
  }

  /** The table parallel_for builds covers [low1, high1) x [low2, high2) with adjacent bands. */
  lemma WorkTableBanded(low1: int, high1: int, low2: int, high2: int, n: int)
    requires WellFormedCall(low1, high1, n)
    ensures Banded(WorkTable(low1, high1, low2, high2, n), low2, high2)
    ensures WorkTable(low1, high1, low2, high2, n)[0].startI == low1
    ensures WorkTable(low1, high1, low2, high2, n)[n - 1].endI == high1
  {
    var table := WorkTable(low1, high1, low2, high2, n);
    forall k | 0 <= k < n
      ensures table[k].startI <= table[k].endI
      ensures 0 < k ==> BandAdjacent(table, k)
    {
      ChunkBounds(low1, high1, n, k);
      if 0 < k {
        ChunksContiguous(low1, high1, n, k - 1);
      }
    }
    ChunksContiguous(low1, high1, n, 0);
  }

  /** Running items lo .. mid-1 and then mid .. hi-1 is running lo .. hi-1. */
  lemma {:induction false} RunWorkAppend(table: seq<ThreadWork2D>, lo: int, mid: int, hi: int)
    requires 0 <= lo <= mid <= hi <= |table|
    ensures RunWork(table, lo, mid) + RunWork(table, mid, hi) == RunWork(table, lo, hi)
    decreases hi - mid
  {
    if mid < hi {
      RunWorkAppend(table, lo, mid, hi - 1);
    }
  }

  /** Running the single item k is running its band. */
  lemma RunWorkOne(table: seq<ThreadWork2D>, k: int)
    requires 0 <= k < |table|
    ensures RunWork(table, k, k + 1) == Grid(table[k].startI, table[k].endI, table[k].lowJ, table[k].highJ)
  {
    assert RunWork(table, k, k) == [];
  }

  /** Running adjacent bands lo .. hi-1 in order calls func on one grid of rows. */
  lemma {:induction false} RunWorkSpan(table: seq<ThreadWork2D>, low2: int, high2: int, lo: int, hi: int)
    requires Banded(table, low2, high2) && 0 <= lo < hi <= |table|
    ensures table[lo].startI <= table[hi - 1].endI
    ensures RunWork(table, lo, hi) == Grid(table[lo].startI, table[hi - 1].endI, low2, high2)
    decreases hi - lo
  {
    if lo < hi - 1 {
      RunWorkSpan(table, low2, high2, lo, hi - 1);
      assert BandAdjacent(table, hi - 1);
      GridSplit(table[lo].startI, table[hi - 1].startI, table[hi - 1].endI, low2, high2);
    }
  }

  /**
    The trace parallel_for produces as written from its work table, when
    `created` of its workers were created: the created workers' bands;
    after a failed creation, the fallback's bands from `created` to the end
    of the table; then the caller's band, the last one.
  */
  function Schedule(table: seq<ThreadWork2D>, created: int): seq<(int, int)>
    requires 1 <= |table| && 0 <= created <= ParallelFor1D.WorkerCount(|table|)
  {
    var n := |table|;
    RunWork(table, 0, created)
      + (if created < ParallelFor1D.WorkerCount(n) then RunWork(table, created, n) else [])
      + RunWork(table, n - 1, n)
  }

  /** The trace of the corrected fallback, which stops before the caller's band. */
  function ScheduleFixed(table: seq<ThreadWork2D>, created: int): seq<(int, int)>
    requires 1 <= |table| && 0 <= created <= ParallelFor1D.WorkerCount(|table|)
  {
    var n := |table|;
    RunWork(table, 0, created)
      + (if created < ParallelFor1D.WorkerCount(n) then RunWork(table, created, n - 1) else [])
      + RunWork(table, n - 1, n)
  }

  /** When every worker is created, each pair the table covers reaches func once, in row-major order. */
  lemma ScheduleAllCreated(table: seq<ThreadWork2D>, low2: int, high2: int)
    requires 1 <= |table| && Banded(table, low2, high2)
    ensures Schedule(table, ParallelFor1D.WorkerCount(|table|)) == Grid(table[0].startI, table[|table| - 1].endI, low2, high2)
  {
    var n := |table|;
    RunWorkAppend(table, 0, n - 1, n);
    RunWorkSpan(table, low2, high2, 0, n);
  }

  /**
    When creating worker `created` fails, every pair the table covers
    reaches func, and then the caller's band reaches it a second time.
  */
  lemma ScheduleCreationFailed(table: seq<ThreadWork2D>, low2: int, high2: int, created: int)
    requires 1 <= |table| && Banded(table, low2, high2) && 0 <= created < ParallelFor1D.WorkerCount(|table|)
    ensures Schedule(table, created)
         == Grid(table[0].startI, table[|table| - 1].endI, low2, high2)
          + Grid(table[|table| - 1].startI, table[|table| - 1].endI, low2, high2)
  {
    var n := |table|;
    RunWorkAppend(table, 0, created, n);
    RunWorkSpan(table, low2, high2, 0, n);
    RunWorkSpan(table, low2, high2, n - 1, n);
  }

  /** With the corrected fallback, every pair the table covers reaches func once whatever creation does. */
  lemma ScheduleFixedExact(table: seq<ThreadWork2D>, low2: int, high2: int, created: int)
    requires 1 <= |table| && Banded(table, low2, high2) && 0 <= created <= ParallelFor1D.WorkerCount(|table|)
    ensures ScheduleFixed(table, created) == Grid(table[0].startI, table[|table| - 1].endI, low2, high2)
  {
    var n := |table|;
    RunWorkAppend(table, 0, created, n - 1);
    RunWorkAppend(table, 0, n - 1, n);
    RunWorkSpan(table, low2, high2, 0, n);
  }

  /**
    The worker loop's calls followed by the caller's band make up the
    schedule as written.
  */
  lemma ScheduleTrace(table: seq<ThreadWork2D>, created: int, calls: seq<(int, int)>, mainShare: seq<(int, int)>)
    requires 1 <= |table| && 0 <= created <= ParallelFor1D.WorkerCount(|table|)
    requires calls == RunWork(table, 0, created)
      + (if created < ParallelFor1D.WorkerCount(|table|) then RunWork(table, created, |table|) else [])
    requires mainShare == RunWork(table, |table| - 1, |table|)
    ensures calls + mainShare == Schedule(table, created)
  {
  }

  /** The worker loop's calls followed by the caller's band make up the corrected schedule. */
  lemma ScheduleFixedTrace(table: seq<ThreadWork2D>, created: int, calls: seq<(int, int)>, mainShare: seq<(int, int)>)
    requires 1 <= |table| && 0 <= created <= ParallelFor1D.WorkerCount(|table|)
    requires calls == RunWork(table, 0, created)
      + (if created < ParallelFor1D.WorkerCount(|table|) then RunWork(table, created, |table| - 1) else [])
    requires mainShare == RunWork(table, |table| - 1, |table|)
    ensures calls + mainShare == ScheduleFixed(table, created)
  {
  }

  /** Rows [0, 2) by one column over two threads whose worker cannot be created: func(1, 0) is called twice. */
  lemma DuplicateWitness()
    ensures Schedule(WorkTable(0, 2, 0, 1, 2), 0) == [(0, 0), (1, 0), (1, 0)]
    ensures multiset(Schedule(WorkTable(0, 2, 0, 1, 2), 0))[(1, 0)] == 2
  {
    var table := WorkTable(0, 2, 0, 1, 2);
    WorkTableBanded(0, 2, 0, 1, 2);
    ScheduleCreationFailed(table, 0, 1, 0);
    BoundaryClosedForm(2, 2, 1);
    assert table[1] == ThreadWork2D(1, 2, 0, 1);
    assert Grid(0, 2, 0, 1) == [(0, 0), (1, 0)];
    assert Grid(1, 2, 0, 1) == [(1, 0)];
  }

  /** thread_entry_2d: for each row i of the band, call func(i, j) for every column j. */
  method ThreadEntry(work: ThreadWork2D) returns (calls: seq<(int, int)>)
    ensures calls == Grid(work.startI, work.endI, work.lowJ, work.highJ)
  {
    calls := [];
    var i := work.startI;
    while i < work.endI
      invariant i == work.startI || work.startI < i <= work.endI
      invariant calls == Grid(work.startI, i, work.lowJ, work.highJ)
    {
      ghost var before := calls;
      var j := work.lowJ;
      while j < work.highJ
        invariant j == work.lowJ || work.lowJ < j <= work.highJ
        invariant calls == before + Row(i, work.lowJ, j)
      {
        calls := calls + [(i, j)];
        j := j + 1;
      }
      i := i + 1;
    }
  }

  /** The loop that fills the work table in place: a band of rows per thread, the full column range each. */
  method FillWork(chunks: array<ThreadWork2D>, low1: int, high1: int, low2: int, high2: int)
    requires InInt32(low1) && InInt32(high1) && InInt32(high1 - low1) && chunks.Length <= INT_MAX
    modifies chunks
    ensures chunks[..] == WorkTable(low1, high1, low2, high2, chunks.Length)
    ensures high1 > low1 && chunks.Length > 0 ==>
      Banded(chunks[..], low2, high2) && chunks[0].startI == low1 && chunks[chunks.Length - 1].endI == high1
  {
    var n := chunks.Length;
    for t := 0 to n
      invariant forall k :: 0 <= k < t ==>
        var r := CalculateThreadRange(low1, high1, k, n);
        chunks[k] == ThreadWork2D(r.start, r.end, low2, high2)
    {
      var r := CalculateThreadRange(low1, high1, t, n);
      chunks[t] := ThreadWork2D(r.start, r.end, low2, high2);
    }
    if high1 > low1 && n > 0 {
      WorkTableBanded(low1, high1, low2, high2, n);
    }
  }

  /** The fallback after a failed creation: run work items lo .. hi-1 on the calling thread. */
  method RunWorkInline(chunks: array<ThreadWork2D>, lo: int, hi: int) returns (calls: seq<(int, int)>)
    requires 0 <= lo <= hi <= chunks.Length
    ensures calls == RunWork(chunks[..], lo, hi)
  {
    calls := [];
    for k := lo to hi
      invariant calls == RunWork(chunks[..], lo, k)
    {
      var share := ThreadEntry(chunks[k]);
      calls := calls + share;
    }
  }

  /**
    The worker-creation loop: worker t runs work item t. When creating
    worker t fails, items t .. fallbackEnd-1 are run inline instead and the
    loop stops; the returned `created` is the number of workers to join.
  */
  method CreateWorkers(chunks: array<ThreadWork2D>, workers: int, fallbackEnd: int, spawnOk: int -> bool)
    returns (calls: seq<(int, int)>, created: int)
    requires 0 <= workers <= fallbackEnd <= chunks.Length
    ensures 0 <= created <= workers
    ensures forall t :: 0 <= t < created ==> spawnOk(t)
    ensures created < workers ==> !spawnOk(created)
    ensures calls == RunWork(chunks[..], 0, created)
      + (if created < workers then RunWork(chunks[..], created, fallbackEnd) else [])
  {
    calls, created := [], workers;
    var t := 0;
    while t < workers
      invariant 0 <= t <= workers && created == workers
      invariant forall k :: 0 <= k < t ==> spawnOk(k)
      invariant calls == RunWork(chunks[..], 0, t)
    {
      if !spawnOk(t) {
        var rest := RunWorkInline(chunks, t, fallbackEnd);
        calls := calls + rest;
        created := t;
        break;
      }
      var share := ThreadEntry(chunks[t]);
      calls := calls + share;
      t := t + 1;
    }
  }

  /**
    parallel_for (2D) as written. Returns the calls made to func and
    `workerCount`, the number of workers that are joined at the end.
  */
  method ParallelFor(low1: int, high1: int, low2: int, high2: int, numThreads: int, spawnOk: int -> bool)
    returns (trace: seq<(int, int)>, workerCount: int)
    requires InInt32(low1) && InInt32(high1) && InInt32(low2) && InInt32(high2) && InInt32(numThreads)
    requires high1 > low1 ==> InInt32(high1 - low1)
    ensures numThreads <= 0 || high1 <= low1 || high2 <= low2 ==> trace == [] && workerCount == 0
    ensures numThreads > 0 && high1 > low1 && high2 > low2 ==>
      && 0 <= workerCount <= ParallelFor1D.WorkerCount(numThreads)
      && (forall t :: 0 <= t < workerCount ==> spawnOk(t))
      && (workerCount < ParallelFor1D.WorkerCount(numThreads) ==> !spawnOk(workerCount))
      && trace == Schedule(WorkTable(low1, high1, low2, high2, numThreads), workerCount)
    ensures numThreads > 0 && high1 > low1 && high2 > low2 && workerCount == ParallelFor1D.WorkerCount(numThreads) ==>
      trace == Grid(low1, high1, low2, high2)
    ensures numThreads > 0 && high1 > low1 && high2 > low2 && workerCount < ParallelFor1D.WorkerCount(numThreads) ==>
      trace == Grid(low1, high1, low2, high2) + Grid(LastBand(low1, high1, numThreads).start, high1, low2, high2)
  {
    trace, workerCount := [], 0;
    if numThreads <= 0 {
      return;
    }
    if high1 <= low1 || high2 <= low2 {
      return;
    }
    var T := numThreads;
    if T > 1 {
      workerCount := T - 1;
    } else {
      workerCount := 0;
    }
    var chunks := new ThreadWork2D[T];
    FillWork(chunks, low1, high1, low2, high2);
    ghost var table := chunks[..];

    trace, workerCount := CreateWorkers(chunks, workerCount, T, spawnOk);

    // The calling thread runs the last band.
    var mainIndex := T - 1;
    var mainShare := ThreadEntry(chunks[mainIndex]);
    RunWorkOne(table, T - 1);
    ScheduleTrace(table, workerCount, trace, mainShare);
    trace := trace + mainShare;
    // Joining the workers changes nothing in the sequential model.
    if workerCount < ParallelFor1D.WorkerCount(T) {
      ScheduleCreationFailed(table, low2, high2, workerCount);
    } else {
      ScheduleAllCreated(table, low2, high2);
    }
  }

  /**
    parallel_for (2D) with the fallback stopping before the caller's band:
    every pair of [low1, high1) x [low2, high2) reaches func exactly once,
    in row-major order, whether or not every worker is created.
  */
  method ParallelForFixed(low1: int, high1: int, low2: int, high2: int, numThreads: int, spawnOk: int -> bool)
    returns (trace: seq<(int, int)>, workerCount: int)
    requires InInt32(low1) && InInt32(high1) && InInt32(low2) && InInt32(high2) && InInt32(numThreads)
    requires high1 > low1 ==> InInt32(high1 - low1)
    ensures numThreads <= 0 || high1 <= low1 || high2 <= low2 ==> trace == [] && workerCount == 0
    ensures numThreads > 0 && high1 > low1 && high2 > low2 ==>
      && 0 <= workerCount <= ParallelFor1D.WorkerCount(numThreads)
      && (forall t :: 0 <= t < workerCount ==> spawnOk(t))
      && (workerCount < ParallelFor1D.WorkerCount(numThreads) ==> !spawnOk(workerCount))
    ensures numThreads > 0 && high2 > low2 ==> trace == Grid(low1, high1, low2, high2)
    ensures forall p: (int, int) :: (multiset(trace)[p]
      == if numThreads > 0 && low1 <= p.0 < high1 && low2 <= p.1 < high2 then 1 else 0)
  {
    trace, workerCount := [], 0;
    if numThreads <= 0 {
      return;
    }
    if high1 <= low1 || high2 <= low2 {
      return;
    }
    var T := numThreads;
    if T > 1 {
      workerCount := T - 1;
    } else {
      workerCount := 0;
    }
    var chunks := new ThreadWork2D[T];
    FillWork(chunks, low1, high1, low2, high2);
    ghost var table := chunks[..];

    trace, workerCount := CreateWorkers(chunks, workerCount, T - 1, spawnOk);

    var mainIndex := T - 1;
    var mainShare := ThreadEntry(chunks[mainIndex]);
    RunWorkOne(table, T - 1);
    ScheduleFixedTrace(table, workerCount, trace, mainShare);
    trace := trace + mainShare;
    ScheduleFixedExact(table, low2, high2, workerCount);
    GridsCount(trace, low1, high1, high1, high1, low2, high2);
  }
}
