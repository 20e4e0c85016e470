/**
  How parallel_for splits the loop range [low, high) among numThreads
  logical threads (calculateThreadRange in simple-multithreader.h).

  Every quantity in the C code is an `int`; the model uses mathematical
  integers and asks, as a precondition, that the inputs and `high - low`
  fit in 32 bits. The lemmas below then show that no intermediate value of
  the computation leaves that range for a thread index in [0, numThreads).
  With total > 0 and numThreads > 0 the C operators `/` and `%` (which
  truncate) agree with Dafny's (which are Euclidean).
*/
module ThreadRange {

  const INT_MIN: int := -0x8000_0000
  const INT_MAX: int := 0x7fff_ffff

  /** The value fits in a 32-bit C `int`. */
  predicate InInt32(x: int) {
    INT_MIN <= x <= INT_MAX
  }

  /** A half-open range [start, end) of loop indices. */
  datatype Span = Span(start: int, end: int) {
    function Size(): int { end - start }
    predicate Contains(i: int) { start <= i < end }
  }

  /** The size the balanced split gives chunk t of `total` indices over n threads. */
  function ChunkSize(total: int, n: int, t: int): int
    requires n > 0
  {
    total / n + (if t < total % n then 1 else 0)
  }

  /**
    Reference definition of where chunk k begins, relative to `low`: the
    chunks 0 .. k-1 laid end to end. Boundary(total, n, n) is where the last
    chunk ends.
  */
  function Boundary(total: int, n: int, k: int): int
    requires n > 0 && 0 <= k <= n
    decreases k
  {
    if k == 0 then 0 else Boundary(total, n, k - 1) + ChunkSize(total, n, k - 1)
  }

  lemma {:induction false} BoundaryClosedForm(total: int, n: int, k: int)
    requires n > 0 && 0 <= k <= n
    ensures Boundary(total, n, k) == k * (total / n) + (if k < total % n then k else total % n)
    decreases k
  {
    if k > 0 {
      BoundaryClosedForm(total, n, k - 1);
      assert k * (total / n) == (k - 1) * (total / n) + total / n;
    }
  }

  /**
    calculateThreadRange: the chunk [outStart, outEnd) of thread
    `threadIndex`. An empty or inverted range, or a non-positive thread
    count, gives the empty chunk at `low`; otherwise chunk t is exactly the
    t-th piece of the reference layout `Boundary`.
  */
  function CalculateThreadRange(low: int, high: int, threadIndex: int, numThreads: int): (r: Span)
    requires InInt32(low) && InInt32(high) && InInt32(threadIndex) && InInt32(numThreads)
    requires InInt32(high - low)
    ensures high - low <= 0 || numThreads <= 0 ==> r == Span(low, low)
    ensures high - low > 0 && 0 <= threadIndex < numThreads ==>
      r == Span(low + Boundary(high - low, numThreads, threadIndex),
                low + Boundary(high - low, numThreads, threadIndex + 1))
  {
    var total := high - low;
    if total <= 0 || numThreads <= 0 then
      Span(low, low)
    else
      var base := total / numThreads;
      var rem := total % numThreads;
      var offset := threadIndex * base + (if threadIndex < rem then threadIndex else rem);
      var count := base + (if threadIndex < rem then 1 else 0);
      if 0 <= threadIndex < numThreads then
        BoundaryClosedForm(total, numThreads, threadIndex);
        BoundaryClosedForm(total, numThreads, threadIndex + 1);
        Span(low + offset, low + offset + count)
      else
        Span(low + offset, low + offset + count)
  }

  /** The arguments of calculateThreadRange as parallel_for passes them. */
  predicate WellFormedCall(low: int, high: int, n: int) {
    InInt32(low) && InInt32(high) && InInt32(n) && InInt32(high - low) && high > low && n > 0
  }

  lemma {:induction false} BoundaryTotal(total: int, n: int)
    requires n > 0
    ensures Boundary(total, n, n) == total
  {
    BoundaryClosedForm(total, n, n);
    assert total == n * (total / n) + total % n;
  }

  lemma {:induction false} BoundaryMonotone(total: int, n: int, k: int, m: int)
    requires n > 0 && total >= 0 && 0 <= k <= m <= n
    ensures Boundary(total, n, k) <= Boundary(total, n, m)
    decreases m - k
  {
    if k < m {
      BoundaryMonotone(total, n, k, m - 1);
      assert total / n >= 0;
    }
  }

  /** The first chunk starts at low, the last ends at high, and each chunk ends where the next begins. */
  lemma ChunksContiguous(low: int, high: int, n: int, t: int)
    requires WellFormedCall(low, high, n) && 0 <= t < n
    ensures CalculateThreadRange(low, high, 0, n).start == low
    ensures CalculateThreadRange(low, high, n - 1, n).end == high
    ensures t + 1 < n ==> CalculateThreadRange(low, high, t, n).end == CalculateThreadRange(low, high, t + 1, n).start
  {
    BoundaryTotal(high - low, n);
  }

  /**
    Each chunk lies inside [low, high), and none of the C intermediates
    (threadIndex * base, offset, outStart, outEnd) leaves the 32-bit range.
  */
  lemma ChunkBounds(low: int, high: int, n: int, t: int)
    requires WellFormedCall(low, high, n) && 0 <= t < n
    ensures var r := CalculateThreadRange(low, high, t, n);
      low <= r.start <= r.end <= high && InInt32(r.start) && InInt32(r.end)
    ensures 0 <= t * ((high - low) / n) <= high - low
    ensures 0 <= t * ((high - low) / n) + (if t < (high - low) % n then t else (high - low) % n) <= high - low
  {
    var total := high - low;
    BoundaryMonotone(total, n, 0, t);
    BoundaryMonotone(total, n, t, t + 1);
    BoundaryMonotone(total, n, t + 1, n);
    BoundaryTotal(total, n);
    BoundaryClosedForm(total, n, t);
    var base := total / n;
    assert base >= 0;
    MulNonNegative(t, base);
  }

  lemma MulNonNegative(a: int, b: int)
    requires a >= 0 && b >= 0
    ensures a * b >= 0
  {
  }

  /**
    Chunk t has total/n + 1 indices if t < total % n and total/n otherwise,
    so any two chunks differ in size by at most one, the larger ones come
    first, and exactly the first total % n chunks are the larger ones.
  */
  lemma ChunkSizesBalanced(low: int, high: int, n: int, t: int, u: int)
    requires WellFormedCall(low, high, n) && 0 <= t < n && 0 <= u < n
    ensures CalculateThreadRange(low, high, t, n).Size() == (high - low) / n + (if t < (high - low) % n then 1 else 0)
    ensures -1 <= CalculateThreadRange(low, high, t, n).Size() - CalculateThreadRange(low, high, u, n).Size() <= 1
    ensures t <= u ==> CalculateThreadRange(low, high, u, n).Size() <= CalculateThreadRange(low, high, t, n).Size()
    ensures CalculateThreadRange(low, high, t, n).Size() > (high - low) / n <==> t < (high - low) % n
  {
  }

  /** A chunk ends no later than any later chunk begins: the chunks are pairwise disjoint. */
  lemma ChunksDisjoint(low: int, high: int, n: int, t: int, u: int)
    requires WellFormedCall(low, high, n) && 0 <= t < u < n
    ensures CalculateThreadRange(low, high, t, n).end <= CalculateThreadRange(low, high, u, n).start
    ensures forall i :: !(CalculateThreadRange(low, high, t, n).Contains(i) && CalculateThreadRange(low, high, u, n).Contains(i))
  {
    BoundaryMonotone(high - low, n, t + 1, u);
  }

  /** The chunk holding offset o, found by searching down from chunk k. */
  function FindChunk(total: int, n: int, o: int, k: int): (t: int)
    requires n > 0 && total >= 0 && 0 <= k < n
    requires 0 <= o < Boundary(total, n, k + 1)
    ensures 0 <= t <= k
    ensures Boundary(total, n, t) <= o < Boundary(total, n, t + 1)
    decreases k
  {
    if Boundary(total, n, k) <= o then k else FindChunk(total, n, o, k - 1)
  }

  /** The thread whose chunk holds index i. */
  function ChunkOf(low: int, high: int, n: int, i: int): (t: int)
    requires WellFormedCall(low, high, n) && low <= i < high
    ensures 0 <= t < n && CalculateThreadRange(low, high, t, n).Contains(i)
  {
    BoundaryTotal(high - low, n);
    FindChunk(high - low, n, i - low, n - 1)
  }

  /**
    The chunks partition [low, high): an index is in some chunk exactly
    when it lies in [low, high), and then in only one.
  */
  lemma ChunksPartitionRange(low: int, high: int, n: int, i: int)
    requires WellFormedCall(low, high, n)
    ensures (low <= i < high) <==> (exists t :: 0 <= t < n && CalculateThreadRange(low, high, t, n).Contains(i))
    ensures forall t, u ::
      (0 <= t < n && 0 <= u < n && CalculateThreadRange(low, high, t, n).Contains(i)
       && CalculateThreadRange(low, high, u, n).Contains(i)) ==> t == u
  {
    if low <= i < high {
      var t := ChunkOf(low, high, n, i);
      assert CalculateThreadRange(low, high, t, n).Contains(i);
    }
    forall t | 0 <= t < n && CalculateThreadRange(low, high, t, n).Contains(i)
      ensures low <= i < high
    {
      ChunkBounds(low, high, n, t);
    }
    forall t, u | 0 <= t < n && 0 <= u < n
      && CalculateThreadRange(low, high, t, n).Contains(i) && CalculateThreadRange(low, high, u, n).Contains(i)
      ensures t == u
    {
      if t < u {
        ChunksDisjoint(low, high, n, t, u);
      } else if u < t {
        ChunksDisjoint(low, high, n, u, t);
      }
    }
  }
}
