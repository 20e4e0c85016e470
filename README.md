# simple-multithreader: range partitioning and the parallel_for schedule

This project models the core of `simple-multithreader.h`. That header is a
blocking `parallel_for` utility, built on pthreads, with two parts:

- **`calculateThreadRange`** splits the half-open loop range `[low, high)`
  among `numThreads` logical threads. Thread `t` gets `total / n` indices,
  plus one more when `t < total % n`. The chunks lie end to end.
- **`parallel_for`** comes in two overloads.
  - The 1D overload runs `func(i)` for every `i` in `[low, high)`.
  - The 2D overload runs `func(i, j)` for every pair in
    `[low1, high1) x [low2, high2)`. Only the outer range is split. Every
    work item carries the whole inner range.
  - Both overloads build a table of `T = numThreads` chunk records in
    place. They create `T - 1` worker threads for chunks `0 .. T-2`. The
    calling thread runs chunk `T-1` itself, then joins the workers.
  - When `pthread_create` fails for worker `t`, the caller runs chunks
    `t .. T-1` inline and sets `workerCount = t`. Only the workers already
    created are joined.

## How the model works

- `ThreadRange` (`thread_range.dfy`) models `calculateThreadRange`.
  - It is a function on mathematical integers. It requires that the four
    arguments and `high - low` fit in a 32-bit `int`.
  - Its result is tied to an independent reference layout, `Boundary`,
    which lays the chunk sizes end to end.
  - Lemmas state contiguity, bounds, no 32-bit overflow, balanced sizes,
    disjointness and the partition of `[low, high)`.
- `CallTrace` (`call_trace.dfy`) treats `func` as an opaque callback.
  - Each call appends its argument to a trace.
  - `Interval(lo, hi)` is the trace of one 1D chunk. `Row` and `Grid` are
    the traces of the 2D nested loops.
  - Lemmas join adjacent pieces and count how often each argument occurs,
    using multiset counts.
- `ParallelFor1D` and `ParallelFor2D` (`parallel_for_1d.dfy`,
  `parallel_for_2d.dfy`) model the two overloads as imperative methods.
  - The table is an `array` filled by a loop. The worker-creation loop, the
    inline fallback and the thread-entry loops are `while`/`for` loops with
    invariants.
  - Whether `pthread_create` succeeds for worker `t` is an input, the
    predicate `spawnOk(t)`.
  - The threads run one after the other. A worker's chunk is appended to
    the trace when the worker is created. The fallback comes next, then the
    caller's chunk. This is one interleaving of the real threads. Which
    arguments reach `func`, and how often, does not depend on the
    interleaving.
  - `Schedule(table, created)` is the specification of the trace as
    written. `ScheduleFixed` is the trace with the fallback corrected (see
    Findings).

## Model

| member | source | states |
|---|---|---|
| ThreadRange.CalculateThreadRange | 31/simple-multithreader.h:30-45 | For an empty or inverted range, or `numThreads <= 0`, the chunk is the empty range at `low`. For `0 <= t < n`, chunk `t` starts `Boundary(t)` after `low` and ends `Boundary(t+1)` after it. `Boundary` is the reference layout: chunk sizes `total/n + (t < total%n)` laid end to end. |
| ThreadRange.BoundaryClosedForm | 31/simple-multithreader.h:37-40 | The reference layout has the closed form the C code computes as `offset`: `k*base + min(k, rem)`. |
| ThreadRange.BoundaryTotal | 31/simple-multithreader.h:37-44 | The `n` chunk sizes add up to `total`, so the last chunk ends exactly at `high`. |
| ThreadRange.BoundaryMonotone | 31/simple-multithreader.h:40-41 | Chunk starts never decrease with the thread index. |
| ThreadRange.ChunksContiguous | 31/simple-multithreader.h:40-44 | Chunk 0 starts at `low`. Chunk `n-1` ends at `high`. Each chunk ends where the next one begins. |
| ThreadRange.ChunkBounds | 31/simple-multithreader.h:37-44 | `low <= start <= end <= high` for every thread in `[0, n)`. `threadIndex * base` and `offset` lie in `[0, total]`. Both ends fit in 32 bits. |
| ThreadRange.ChunkSizesBalanced | 31/simple-multithreader.h:37-41 | Chunk `t` has `total/n + (t < total%n ? 1 : 0)` indices. Two chunk sizes differ by at most one. Sizes never grow with `t`. Exactly the first `total % n` chunks are the larger ones. |
| ThreadRange.ChunksDisjoint | 31/simple-multithreader.h:40-44 | An earlier chunk ends no later than a later chunk begins, so the two share no index. |
| ThreadRange.ChunkOf | 31/simple-multithreader.h:30-45 | Every index of `[low, high)` lies in the chunk of some thread in `[0, n)`. |
| ThreadRange.ChunksPartitionRange | 31/simple-multithreader.h:30-45 | An index is in some chunk if and only if it lies in `[low, high)`. No two threads' chunks both contain it. |
| CallTrace.IntervalSplit | 31/simple-multithreader.h:57-59 | Running `[lo, mid)` and then `[mid, hi)` calls `func` on `[lo, hi)` in order. |
| CallTrace.IntervalCount | 31/simple-multithreader.h:57-59 | The loop over `[lo, hi)` passes each index of the range to `func` exactly once, and no other index. |
| CallTrace.IntervalsCount | 31/simple-multithreader.h:139-153 | In a trace of two intervals, each index occurs once per interval that contains it. |
| CallTrace.RowCount | 31/simple-multithreader.h:76-78 | One pass of the inner `j` loop passes each `(i, j)` with `j` in range exactly once. |
| CallTrace.GridSplit | 31/simple-multithreader.h:75-79 | Two adjacent bands of rows, run in turn, give the joined band in row-major order. |
| CallTrace.GridCount | 31/simple-multithreader.h:75-79 | The nested loops pass each pair of the box to `func` exactly once, and no other pair. |
| CallTrace.GridsCount | 31/simple-multithreader.h:212-230 | In a trace of two grids, each pair occurs once per grid that contains it. |
| ParallelFor1D.WorkerCount | 31/simple-multithreader.h:110-116 | With `T >= 1` threads, `T - 1` pthreads are created. |
| ParallelFor1D.ChunkTable | 31/simple-multithreader.h:119-131 | The table has `T` entries. Entry `t` is `calculateThreadRange(low, high, t, T)`. |
| ParallelFor1D.ChunkTableContiguous | 31/simple-multithreader.h:125-131 | The filled table is contiguous. It starts at `low` and ends at `high`. |
| ParallelFor1D.RunChunksAppend | 31/simple-multithreader.h:139-143 | Running chunks `lo..mid-1` and then `mid..hi-1` is running `lo..hi-1`. |
| ParallelFor1D.RunChunksSpan | 31/simple-multithreader.h:139-143 | Running contiguous chunks `lo..hi-1` calls `func` on one interval, from chunk `lo`'s start to chunk `hi-1`'s end. |
| ParallelFor1D.ScheduleAllCreated | 31/simple-multithreader.h:133-153 | When every worker is created, the trace is `[low, high)` in order, each index once. |
| ParallelFor1D.ScheduleCreationFailed | 31/simple-multithreader.h:133-153 | When creating a worker fails, the trace is all of `[low, high)` followed by the caller's chunk a second time. |
| ParallelFor1D.ScheduleFixedExact | 31/simple-multithreader.h:133-153 | With the fallback stopped before chunk `T-1`, the trace is `[low, high)` in order, whether or not creation fails. |
| ParallelFor1D.DuplicateWitness | 31/simple-multithreader.h:139-153 | Take `[0, 2)` over two threads, with the only worker failing to start. The trace is `[0, 1, 1]`, so `func(1)` runs twice. |
| ParallelFor1D.ThreadEntry | 31/simple-multithreader.h:55-61 | `thread_entry_1d` calls `func(i)` for `i` from the chunk's start up to its end, in order. |
| ParallelFor1D.FillChunks | 31/simple-multithreader.h:124-131 | After the loop, the array equals `ChunkTable`. For a non-empty range it is contiguous from `low` to `high`. |
| ParallelFor1D.RunChunksInline | 31/simple-multithreader.h:139-143 | The inline fallback's calls are the chunks `lo..hi-1` run in order. |
| ParallelFor1D.CreateWorkers | 31/simple-multithreader.h:133-147 | Every worker below the returned `created` had `pthread_create` succeed. If `created < workerCount`, creating worker `created` failed. The calls are the created workers' chunks, then (after a failure) the fallback's chunks. |
| ParallelFor1D.ParallelFor | 31/simple-multithreader.h:90-164 | Guards: `numThreads <= 0` or `high <= low` calls `func` never and joins nothing. Otherwise `workerCount` is the number of workers actually created, and the trace is `Schedule` of the chunk table. With every worker created the trace is `[low, high)`. After a failure it is `[low, high)` plus the caller's chunk `T-1` again. |
| ParallelFor1D.ParallelForFixed | 31/simple-multithreader.h:90-164 | Corrected fallback. The trace is `[low, high)` in order, and each index reaches `func` exactly once, whatever `pthread_create` does. |
| ParallelFor2D.WorkTable | 31/simple-multithreader.h:192-204 | Entry `t` has rows `calculateThreadRange(low1, high1, t, T)` and carries `low2`/`high2` unchanged. |
| ParallelFor2D.WorkTableBanded | 31/simple-multithreader.h:196-204 | The bands are adjacent and run from `low1` to `high1`. Every band has columns `[low2, high2)`. |
| ParallelFor2D.RunWorkAppend | 31/simple-multithreader.h:212-218 | Running items `lo..mid-1` and then `mid..hi-1` is running `lo..hi-1`. |
| ParallelFor2D.RunWorkSpan | 31/simple-multithreader.h:212-218 | Running adjacent bands `lo..hi-1` calls `func` on one grid of rows over `[low2, high2)`. |
| ParallelFor2D.ScheduleAllCreated | 31/simple-multithreader.h:206-230 | When every worker is created, the trace is the box in row-major order, each pair once. |
| ParallelFor2D.ScheduleCreationFailed | 31/simple-multithreader.h:206-230 | When creating a worker fails, the trace is the whole box followed by the caller's band a second time. |
| ParallelFor2D.ScheduleFixedExact | 31/simple-multithreader.h:206-230 | With the fallback stopped before band `T-1`, the trace is the box in row-major order, whatever creation does. |
| ParallelFor2D.DuplicateWitness | 31/simple-multithreader.h:212-230 | Take rows `[0, 2)` by one column over two threads, with the worker failing to start. The trace is `[(0,0), (1,0), (1,0)]`, so `func(1, 0)` runs twice. |
| ParallelFor2D.ThreadEntry | 31/simple-multithreader.h:73-81 | `thread_entry_2d` calls `func(i, j)` row by row over the band and the column range. |
| ParallelFor2D.FillWork | 31/simple-multithreader.h:195-204 | After the loop, the array equals `WorkTable`. For a non-empty outer range it is banded from `low1` to `high1` over `[low2, high2)`. |
| ParallelFor2D.RunWorkInline | 31/simple-multithreader.h:212-218 | The inline fallback's calls are the items `lo..hi-1` run in order. |
| ParallelFor2D.CreateWorkers | 31/simple-multithreader.h:206-222 | Like the 1D loop: the returned `created` is the number of workers started. After a failure, the fallback's items follow the created workers' items. |
| ParallelFor2D.ParallelFor | 31/simple-multithreader.h:167-239 | Guards: `numThreads <= 0`, `high1 <= low1` or `high2 <= low2` calls `func` never. Otherwise the trace is `Schedule` of the work table. With every worker created it is the box. After a failure it is the box plus the caller's band again. |
| ParallelFor2D.ParallelForFixed | 31/simple-multithreader.h:167-239 | Corrected fallback. The trace is the box in row-major order, and each pair reaches `func` exactly once, whatever `pthread_create` does. |

## Left out

- Real concurrency. `pthread_create`, `pthread_join` and the interleaving of
  `func` calls across threads are not modelled. The trace is one sequential
  order. The only nondeterminism kept is whether `pthread_create` succeeds
  for each worker, as the input `spawnOk`.
- Joining the workers (lines 155-158 and 232-235) changes nothing in the
  sequential model. Only the value of `workerCount` it would use is
  modelled.
- `now_in_sec` and the elapsed-time report are left out. They use
  `clock_gettime` and floating-point `double` (lines 18-26, 160-163 and
  237-238).
- Console output through `std::cerr`, `std::cout` and `perror` is left out.
- `std::function` is left out. The callback is opaque, and each call only
  appends its argument to the trace. The copy of `func` stored in every
  chunk record is dropped.
- The `demonstration`, `main` and `user_main` boilerplate and the
  `#define main user_main` wrapper are left out. They hold no logic.
- The ELF demand-paging loader is not part of this model.
- ThreadRange.CalculateThreadRange: 32-bit overflow is not modelled. The
  model requires that the arguments and `high - low` fit in a 32-bit `int`.
  In C that subtraction can overflow (undefined behaviour) for ranges wider
  than `INT_MAX`. `ChunkBounds` shows that no later intermediate leaves the
  32-bit range for a thread index in `[0, n)`.
- ThreadRange.CalculateThreadRange: nothing is stated for a thread index
  outside `[0, n)`. The result is computed as in C, but no caller passes
  such an index.
- ParallelFor1D.ParallelFor: the per-index call counts are not in the
  method's own contract. Its contract gives the trace exactly, as one or two
  intervals. `CallTrace.IntervalsCount` turns that into counts, and
  `DuplicateWitness` shows the count of 2.
- ParallelFor2D.ParallelFor: likewise, the per-pair call counts follow from
  its exact trace through `CallTrace.GridsCount`.
- ParallelFor1D.CreateWorkers: it takes the end of the fallback as a
  parameter, `fallbackEnd`. This lets the as-written loop (`T`) and the
  corrected one (`T - 1`) share one body.

## Findings

| source | as written | input that shows it | evidently intended | confidence | as-written member | corrected member |
|---|---|---|---|---|---|---|
| 31/simple-multithreader.h:139-153 | The fallback runs chunks `t .. T-1` inline. Then the caller runs chunk `T-1` again at lines 150-153, so those indices reach `func` twice. | `low = 0`, `high = 2`, `numThreads = 2`, and the single `pthread_create` fails. The trace is `func(0), func(1), func(1)`. | The fallback stops at `T-2` (the caller's chunk is run once, by the code after the loop). Every index of `[low, high)` then reaches `func` exactly once. | high (not executed) | ParallelFor1D.DuplicateWitness | ParallelFor1D.ParallelForFixed |
| 31/simple-multithreader.h:212-230 | The 2D fallback runs bands `t .. T-1`. Then the caller runs band `T-1` again at lines 225-230. | `low1 = 0`, `high1 = 2`, `low2 = 0`, `high2 = 1`, `numThreads = 2`, and the `pthread_create` fails. The trace is `(0,0), (1,0), (1,0)`. | The fallback stops at band `T-2`, so every pair reaches `func` exactly once. | high (not executed) | ParallelFor2D.DuplicateWitness | ParallelFor2D.ParallelForFixed |
