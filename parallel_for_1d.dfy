/**
  The one-dimensional parallel_for of simple-multithreader.h, with its
  threads run one after the other.

  `func` is an opaque callback: each call func(i) appends i to the trace
  the methods return. Whether pthread_create succeeds for worker t is the
  input `spawnOk(t)`. A worker that is created runs its chunk at once (its
  calls are appended to the trace at that point); the inline fallback and
  the caller's own chunk follow. This is one order in which the real
  threads may interleave; which arguments reach `func`, and how often, does
  not depend on that order.
*/
module ParallelFor1D {
  import opened ThreadRange
  import opened CallTrace

  /** Number of pthreads to create: every logical thread except the caller. */
  function WorkerCount(numThreads: int): (w: nat)
    ensures numThreads >= 1 ==> w == numThreads - 1
  {
    if numThreads > 1 then numThreads - 1 else 0
  }

  /** The chunk table: entry t is thread t's share of [low, high). */
  function ChunkTable(low: int, high: int, n: int): (table: seq<Span>)
    requires InInt32(low) && InInt32(high) && InInt32(high - low) && 0 <= n <= INT_MAX
    ensures |table| == n
    ensures forall t :: 0 <= t < n ==> table[t] == CalculateThreadRange(low, high, t, n)
  {
    seq(n, t requires 0 <= t < n => CalculateThreadRange(low, high, t, n))
  }

  /** The chunk the calling thread runs itself. */
  function LastChunk(low: int, high: int, n: int): Span
    requires InInt32(low) && InInt32(high) && InInt32(high - low) && 1 <= n <= INT_MAX
  {
    CalculateThreadRange(low, high, n - 1, n)
  }

  /** The calls made by running chunks lo .. hi-1 of a table in order. */
  function RunChunks(table: seq<Span>, lo: int, hi: int): seq<int>
    requires 0 <= lo && hi <= |table|
    decreases hi - lo
  {
    if hi <= lo then [] else RunChunks(table, lo, hi - 1) + Interval(table[hi - 1].start, table[hi - 1].end)
  }

  /** Chunk k of the table begins where chunk k-1 ends. */
  predicate Adjacent(table: seq<Span>, k: int)
    requires 0 < k < |table|
  {
    table[k - 1].end == table[k].start
  }

  /** Every chunk of the table is a range, and each one ends where the next begins. */
  predicate Contiguous(table: seq<Span>) {
    && (forall k :: 0 <= k < |table| ==> table[k].start <= table[k].end)
    && (forall k :: 0 < k < |table| ==> Adjacent(table, k))
  }

  /** The table parallel_for builds covers [low, high) with contiguous chunks. */
  lemma ChunkTableContiguous(low: int, high: int, n: int)
    requires WellFormedCall(low, high, n)
    ensures Contiguous(ChunkTable(low, high, n))
    ensures ChunkTable(low, high, n)[0].start == low
    ensures ChunkTable(low, high, n)[n - 1].end == high
  {
    var table := ChunkTable(low, high, n);
    forall k | 0 <= k < n
      ensures table[k].start <= table[k].end
      ensures 0 < k ==> Adjacent(table, k)
    {
      ChunkBounds(low, high, n, k);
      if 0 < k {
        ChunksContiguous(low, high, n, k - 1);
      }
    }
    ChunksContiguous(low, high, n, 0);
  }

  /** Running chunks lo .. mid-1 and then mid .. hi-1 is running lo .. hi-1. */
  lemma {:induction false} RunChunksAppend(table: seq<Span>, lo: int, mid: int, hi: int)
    requires 0 <= lo <= mid <= hi <= |table|
    ensures RunChunks(table, lo, mid) + RunChunks(table, mid, hi) == RunChunks(table, lo, hi)
    decreases hi - mid
  {
    if mid < hi {
      RunChunksAppend(table, lo, mid, hi - 1);
    }
  }

  /** Running the single chunk k is running its interval. */
  lemma RunChunksOne(table: seq<Span>, k: int)
    requires 0 <= k < |table|
    ensures RunChunks(table, k, k + 1) == Interval(table[k].start, table[k].end)
  {
    assert RunChunks(table, k, k) == [];
  }

  /** Running contiguous chunks lo .. hi-1 in order calls func on one interval. */
  lemma {:induction false} RunChunksSpan(table: seq<Span>, lo: int, hi: int)
    requires Contiguous(table) && 0 <= lo < hi <= |table|
    ensures table[lo].start <= table[hi - 1].end
    ensures RunChunks(table, lo, hi) == Interval(table[lo].start, table[hi - 1].end)
    decreases hi - lo
  {
    if lo < hi - 1 {
      RunChunksSpan(table, lo, hi - 1);
      assert Adjacent(table, hi - 1);
      IntervalSplit(table[lo].start, table[hi - 1].start, table[hi - 1].end);
    }
  }

  /**
    The trace parallel_for produces as written from its table of chunks,
    when `created` of its workers were created: the created workers'
    chunks; after a failed creation, the fallback's chunks from `created`
    to the end of the table; then the caller's chunk, the last one.
  */
  function Schedule(table: seq<Span>, created: int): seq<int>
    requires 1 <= |table| && 0 <= created <= WorkerCount(|table|)
  {
    var n := |table|;
    RunChunks(table, 0, created)
      + (if created < WorkerCount(n) then RunChunks(table, created, n) else [])
      + RunChunks(table, n - 1, n)
  }

  /** The trace of the corrected fallback, which stops before the caller's chunk. */
  function ScheduleFixed(table: seq<Span>, created: int): seq<int>
    requires 1 <= |table| && 0 <= created <= WorkerCount(|table|)
  {
    var n := |table|;
    RunChunks(table, 0, created)
      + (if created < WorkerCount(n) then RunChunks(table, created, n - 1) else [])
      + RunChunks(table, n - 1, n)
  }

  /** When every worker is created, each index the table covers reaches func once, in order. */
  lemma ScheduleAllCreated(table: seq<Span>)
    requires 1 <= |table| && Contiguous(table)
    ensures Schedule(table, WorkerCount(|table|)) == Interval(table[0].start, table[|table| - 1].end)
  {
    var n := |table|;
    RunChunksAppend(table, 0, n - 1, n);
    RunChunksSpan(table, 0, n);
  }

  /**
    When creating worker `created` fails, every index the table covers
    reaches func, and then the caller's chunk reaches it a second time.
  */
  lemma ScheduleCreationFailed(table: seq<Span>, created: int)
    requires 1 <= |table| && Contiguous(table) && 0 <= created < WorkerCount(|table|)
    ensures Schedule(table, created)
         == Interval(table[0].start, table[|table| - 1].end)
          + Interval(table[|table| - 1].start, table[|table| - 1].end)
  {
    var n := |table|;
    RunChunksAppend(table, 0, created, n);
    RunChunksSpan(table, 0, n);
    RunChunksSpan(table, n - 1, n);
  }

  /** With the corrected fallback, every index the table covers reaches func once whatever creation does. */
  lemma ScheduleFixedExact(table: seq<Span>, created: int)
    requires 1 <= |table| && Contiguous(table) && 0 <= created <= WorkerCount(|table|)
    ensures ScheduleFixed(table, created) == Interval(table[0].start, table[|table| - 1].end)
  {
    var n := |table|;
    RunChunksAppend(table, 0, created, n - 1);
    RunChunksAppend(table, 0, n - 1, n);
    RunChunksSpan(table, 0, n);
  }

  /** The worker loop's calls followed by the caller's chunk make up the schedule as written. */
  lemma ScheduleTrace(table: seq<Span>, created: int, calls: seq<int>, mainShare: seq<int>)
    requires 1 <= |table| && 0 <= created <= WorkerCount(|table|)
    requires calls == RunChunks(table, 0, created)
      + (if created < WorkerCount(|table|) then RunChunks(table, created, |table|) else [])
    requires mainShare == RunChunks(table, |table| - 1, |table|)
    ensures calls + mainShare == Schedule(table, created)
  {
  }

  /** The worker loop's calls followed by the caller's chunk make up the corrected schedule. */
  lemma ScheduleFixedTrace(table: seq<Span>, created: int, calls: seq<int>, mainShare: seq<int>)
    requires 1 <= |table| && 0 <= created <= WorkerCount(|table|)
    requires calls == RunChunks(table, 0, created)
      + (if created < WorkerCount(|table|) then RunChunks(table, created, |table| - 1) else [])
    requires mainShare == RunChunks(table, |table| - 1, |table|)
    ensures calls + mainShare == ScheduleFixed(table, created)
  {
  }

  /** Two threads over [0, 2) whose one worker cannot be created: func(1) is called twice. */
  lemma DuplicateWitness()
    ensures Schedule(ChunkTable(0, 2, 2), 0) == [0, 1, 1]
    ensures multiset(Schedule(ChunkTable(0, 2, 2), 0))[1] == 2
  {
    var table := ChunkTable(0, 2, 2);
    ChunkTableContiguous(0, 2, 2);
    ScheduleCreationFailed(table, 0);
    BoundaryClosedForm(2, 2, 1);
    assert table[1] == Span(1, 2);
  }

  /** thread_entry_1d: call func(i) for i from the chunk's start up to its end. */
  method ThreadEntry(chunk: Span) returns (calls: seq<int>)
    ensures calls == Interval(chunk.start, chunk.end)
  {
    calls := [];
    var i := chunk.start;
    while i < chunk.end
      invariant i == chunk.start || chunk.start < i <= chunk.end
      invariant calls == Interval(chunk.start, i)
    {
      calls := calls + [i];
      i := i + 1;
    }
  }

  /** The loop that fills the chunk table in place, one calculateThreadRange per entry. */
  method FillChunks(chunks: array<Span>, low: int, high: int)
    requires InInt32(low) && InInt32(high) && InInt32(high - low) && chunks.Length <= INT_MAX
    modifies chunks
    ensures chunks[..] == ChunkTable(low, high, chunks.Length)
    ensures high > low && chunks.Length > 0 ==>
      Contiguous(chunks[..]) && chunks[0].start == low && chunks[chunks.Length - 1].end == high
  {
    var n := chunks.Length;
    for t := 0 to n
      invariant forall k :: 0 <= k < t ==> chunks[k] == CalculateThreadRange(low, high, k, n)
    {
      chunks[t] := CalculateThreadRange(low, high, t, n);
    }
    if high > low && n > 0 {
      ChunkTableContiguous(low, high, n);
    }
  }

  /** The fallback after a failed creation: run chunks lo .. hi-1 on the calling thread. */
  method RunChunksInline(chunks: array<Span>, lo: int, hi: int) returns (calls: seq<int>)
    requires 0 <= lo <= hi <= chunks.Length
    ensures calls == RunChunks(chunks[..], lo, hi)
  {
    calls := [];
    for k := lo to hi
      invariant calls == RunChunks(chunks[..], lo, k)
    {
      var share := ThreadEntry(chunks[k]);
      calls := calls + share;
    }
  }

  /**
    The worker-creation loop: worker t runs chunk t. When creating worker t
    fails, chunks t .. fallbackEnd-1 are run inline instead and the loop
    stops; the returned `created` is the number of workers to join. As
    written, parallel_for's fallback runs up to the last chunk (fallbackEnd
    is the number of chunks).
  */
  method CreateWorkers(chunks: array<Span>, workers: int, fallbackEnd: int, spawnOk: int -> bool)
    returns (calls: seq<int>, created: int)
    requires 0 <= workers <= fallbackEnd <= chunks.Length
    ensures 0 <= created <= workers
    ensures forall t :: 0 <= t < created ==> spawnOk(t)
    ensures created < workers ==> !spawnOk(created)
    ensures calls == RunChunks(chunks[..], 0, created)
      + (if created < workers then RunChunks(chunks[..], created, fallbackEnd) else [])
  {
    calls, created := [], workers;
    var t := 0;
    while t < workers
      invariant 0 <= t <= workers && created == workers
      invariant forall k :: 0 <= k < t ==> spawnOk(k)
      invariant calls == RunChunks(chunks[..], 0, t)
    {
      if !spawnOk(t) {
        var rest := RunChunksInline(chunks, t, fallbackEnd);
        calls := calls + rest;
        created := t;
        break;
      }
      var share := ThreadEntry(chunks[t]);
      calls := calls + share;
      t := t + 1;
    }
  }

  /**
    parallel_for (1D) as written. Returns the calls made to func and
    `workerCount`, the number of workers that are joined at the end.
  */
  method ParallelFor(low: int, high: int, numThreads: int, spawnOk: int -> bool)
    returns (trace: seq<int>, workerCount: int)
    requires InInt32(low) && InInt32(high) && InInt32(numThreads)
    requires high > low ==> InInt32(high - low)
    ensures numThreads <= 0 || high <= low ==> trace == [] && workerCount == 0
    ensures numThreads > 0 && high > low ==>
      && 0 <= workerCount <= WorkerCount(numThreads)
      && (forall t :: 0 <= t < workerCount ==> spawnOk(t))
      && (workerCount < WorkerCount(numThreads) ==> !spawnOk(workerCount))
      && trace == Schedule(ChunkTable(low, high, numThreads), workerCount)
    ensures numThreads > 0 && high > low && workerCount == WorkerCount(numThreads) ==>
      trace == Interval(low, high)
    ensures numThreads > 0 && high > low && workerCount < WorkerCount(numThreads) ==>
      trace == Interval(low, high) + Interval(LastChunk(low, high, numThreads).start, high)
  {
    trace, workerCount := [], 0;
    if numThreads <= 0 {
      return;
    }
    if high <= low {
      return;
    }
    var T := numThreads;
    if T > 1 {
      workerCount := T - 1;
    } else {
      workerCount := 0;
    }
    var chunks := new Span[T];
    FillChunks(chunks, low, high);
    ghost var table := chunks[..];

    trace, workerCount := CreateWorkers(chunks, workerCount, T, spawnOk);

    // The calling thread runs the last chunk.
    var mainIndex := T - 1;
    var mainShare := ThreadEntry(chunks[mainIndex]);
    RunChunksOne(table, T - 1);
    ScheduleTrace(table, workerCount, trace, mainShare);
    trace := trace + mainShare;
    // Joining the workers changes nothing in the sequential model.
    if workerCount < WorkerCount(T) {
      ScheduleCreationFailed(table, workerCount);
    } else {
      ScheduleAllCreated(table);
    }
  }

  /**
    parallel_for (1D) with the fallback stopping before the caller's chunk:
    every index of [low, high) reaches func exactly once, whether or not
    every worker is created.
  */
  method ParallelForFixed(low: int, high: int, numThreads: int, spawnOk: int -> bool)
    returns (trace: seq<int>, workerCount: int)
    requires InInt32(low) && InInt32(high) && InInt32(numThreads)
    requires high > low ==> InInt32(high - low)
    ensures numThreads <= 0 || high <= low ==> trace == [] && workerCount == 0
    ensures numThreads > 0 && high > low ==>
      && 0 <= workerCount <= WorkerCount(numThreads)
      && (forall t :: 0 <= t < workerCount ==> spawnOk(t))
      && (workerCount < WorkerCount(numThreads) ==> !spawnOk(workerCount))
    ensures numThreads > 0 ==> trace == Interval(low, high)
    ensures forall i :: multiset(trace)[i] == if numThreads > 0 && low <= i < high then 1 else 0
  {
    trace, workerCount := [], 0;
    if numThreads <= 0 {
      return;
    }
    if high <= low {
      return;
    }
    var T := numThreads;
    if T > 1 {
      workerCount := T - 1;
    } else {
      workerCount := 0;
    }
    var chunks := new Span[T];
    FillChunks(chunks, low, high);
    ghost var table := chunks[..];

    trace, workerCount := CreateWorkers(chunks, workerCount, T - 1, spawnOk);

    var mainIndex := T - 1;
    var mainShare := ThreadEntry(chunks[mainIndex]);
    RunChunksOne(table, T - 1);
    ScheduleFixedTrace(table, workerCount, trace, mainShare);
    trace := trace + mainShare;
    ScheduleFixedExact(table, workerCount);
    IntervalsCount(trace, low, high, high, high);
  }
}
