// The index spaces of unrolled loops (compiler/codegen_stmts.py:2276-2311) and of parallel loops
// (compiler/compiler.py:3651-3675, runtime/nathra_rt.h:659-690). Integers are unbounded here.
module IndexSpaces {

  /** start, start + 1, ..., stop - 1 */
  function Range(start: int, stop: int): (r: seq<int>)
    ensures |r| == if start < stop then stop - start else 0
    decreases stop - start
  {
    if start >= stop then [] else Range(start, stop - 1) + [stop - 1]
  }

  lemma {:induction false} RangeConcat(a: int, b: int, c: int)
    requires a <= b <= c
    ensures Range(a, b) + Range(b, c) == Range(a, c)
    decreases c - b
  {
    if b < c {
      RangeConcat(a, b, c - 1);
    } else {
      assert Range(a, b) + [] == Range(a, b);
    }
  }

  /** Division in C: towards zero (section 6.5.5 of ISO/IEC 9899:2011). */
  function CDiv(x: int, d: int): int
    requires d > 0
  {
    if x >= 0 then x / d else -(-x / d)
  }

  lemma QuotientIs(x: int, d: int, q: int)
    requires d > 0 && q * d <= x < q * d + d
    ensures x / d == q
  {
    var k := x / d;
    assert x - d < k * d <= x;
    if k != q { Gap(k, q, d); }
  }

  lemma Gap(k: int, q: int, d: int)
    requires d > 0 && k != q
    ensures k * d >= q * d + d || k * d + d <= q * d
  {
    if k > q { Step(q, k - q - 1, d); } else { Step(k, q - k - 1, d); }
  }

  lemma Step(q: int, more: nat, d: int)
    requires d > 0
    ensures (q + 1 + more) * d == q * d + d + more * d >= q * d + d
  {
    Distribute(q, 1 + more, d);
    Distribute(1, more, d);
    Product(more, d);
  }

  lemma Distribute(a: int, b: int, d: int)
    ensures (a + b) * d == a * d + b * d
  {
  }

  lemma Product(m: nat, d: nat)
    ensures m * d >= 0
  {
  }

  /** Where the remainder loop starts: at start plus the whole blocks, or not before stop when the range is empty. */
  lemma RemainderStart(start: int, stop: int, factor: int, blocks: nat)
    requires factor > 0
    requires if start < stop then blocks * factor <= stop - start < blocks * factor + factor else blocks == 0
    ensures var r := CDiv(stop - start, factor) * factor + start;
            if start < stop then r == start + blocks * factor else r >= stop
  {
    var d := stop - start;
    if d > 0 {
      QuotientIs(d, factor, blocks);
    } else {
      var q := -d / factor;
      assert CDiv(d, factor) * factor == -(q * factor) by { Negate(q, factor); }
      assert q * factor <= -d;
    }
  }

  lemma Negate(q: int, d: int)
    ensures (-q) * d == -(q * d)
  {
  }

  /** The trace of loop-variable values that the two emitted loops run their body with. */
  method UnrolledFor(start: int, stop: int, factor: nat) returns (trace: seq<int>)
    requires factor > 0
    ensures trace == Range(start, stop)
  {
    trace := [];
    var i := start;
    ghost var blocks: nat := 0;
    while i + (factor - 1) < stop
      invariant trace == Range(start, i) && i == start + blocks * factor
      invariant i <= stop || (blocks == 0 && i == start)
      decreases stop - i
    {
      var offset := 0;
      while offset < factor
        invariant 0 <= offset <= factor && trace == Range(start, i + offset)
      {
        assert i == start + blocks * factor && blocks * factor >= 0;
        trace := trace + [i + offset];
        offset := offset + 1;
      }
      assert (blocks + 1) * factor == blocks * factor + factor;
      i := i + factor;
      blocks := blocks + 1;
    }
    ghost var reached := i;
    RemainderStart(start, stop, factor, blocks);
    i := CDiv(stop - start, factor) * factor + start;
    while i < stop
      invariant start < stop ==> reached <= i <= stop && trace == Range(start, i)
      invariant start >= stop ==> i >= stop && trace == []
    {
      trace := trace + [i];
      i := i + 1;
    }
  }

  // ---- Parallel loops -----------------------------------------------------------------------

  datatype Chunk = Chunk(start: int, end: int)

  /** All indices the chunks run over, in order. */
  function Indices(cs: seq<Chunk>): seq<int> {
    if cs == [] then [] else Indices(cs[..|cs| - 1]) + Range(cs[|cs| - 1].start, cs[|cs| - 1].end)
  }

  ghost predicate NonEmpty(cs: seq<Chunk>) { forall k :: 0 <= k < |cs| ==> cs[k].start < cs[k].end }

  /** Chunks that start where the one before ends. */
  ghost predicate Abutting(cs: seq<Chunk>) {
    forall j, k :: 0 <= j < k < |cs| && k == j + 1 ==> cs[k].start == cs[j].end
  }

  lemma CeilingCovers(total: int, n: int)
    requires total > 0 && n > 0
    ensures var size := (total + n - 1) / n;
            size > 0 && n * size >= total > n * (size - 1)
  {
    var size := (total + n - 1) / n;
    assert n * size > total + n - 1 - n;
    assert n * size <= total + n - 1;
    assert n * (size - 1) == n * size - n;
  }

  /** The chunks made so far cover [start, at) and abut. */
  ghost predicate CoverTo(cs: seq<Chunk>, start: int, at: int) {
    && NonEmpty(cs) && Abutting(cs) && Indices(cs) == Range(start, at)
    && (if cs == [] then at == start else cs[0].start == start && cs[|cs| - 1].end == at)
  }

  /** n shares of total indices: every chunk but the last has the least number of which n suffice, the last at most
      that. */
  ghost predicate Shares(cs: seq<Chunk>, total: int, n: int) {
    forall k :: 0 <= k < |cs| ==> IsShare(cs[k].end - cs[k].start, total, n, k == |cs| - 1)
  }

  predicate IsShare(len: int, total: int, n: int, last: bool) {
    n * (len - 1) < total && (!last ==> n * len >= total)
  }

  lemma ShareOf(len: int, size: int, total: int, n: int, last: bool)
    requires n > 0 && n * size >= total > n * (size - 1)
    requires len <= size && (!last ==> len == size)
    ensures IsShare(len, total, n, last)
  {
    assert n * (size - len) >= 0;
    assert n * (size - 1) == n * (len - 1) + n * (size - len);
  }

  ghost predicate AllButLast(cs: seq<Chunk>, size: int) {
    forall k :: 0 <= k < |cs| ==>
      cs[k].end - cs[k].start <= size && (k < |cs| - 1 ==> cs[k].end - cs[k].start == size)
  }

  lemma SharesOf(cs: seq<Chunk>, size: int, total: int, n: int)
    requires n > 0 && n * size >= total > n * (size - 1) && AllButLast(cs, size)
    ensures Shares(cs, total, n)
  {
    forall k | 0 <= k < |cs| ensures IsShare(cs[k].end - cs[k].start, total, n, k == |cs| - 1) {
      ShareOf(cs[k].end - cs[k].start, size, total, n, k == |cs| - 1);
    }
  }

  /** The chunk loop shared by the runtime's parallel-for and the compiled one. */
  method Split(start: int, end: int, n: int) returns (cs: seq<Chunk>)
    requires start < end && n > 0
    ensures 0 < |cs| <= n && CoverTo(cs, start, end)
    ensures Shares(cs, end - start, n)
  {
    var size := (end - start + n - 1) / n;
    CeilingCovers(end - start, n);
    cs := Chunks(start, end, n, size);
    SharesOf(cs, size, end - start, n);
  }

  method Chunks(start: int, end: int, n: int, size: int) returns (cs: seq<Chunk>)
    requires start < end && size > 0 && n > 0 && start + n * size >= end
    ensures 0 < |cs| <= n && CoverTo(cs, start, end) && AllButLast(cs, size)
  {
    cs := [];
    var t := 0;
    ghost var next := start;
    NoneMade(start, end, size);
    while t < n
      invariant 0 <= t <= n && |cs| == t && start <= next == start + t * size
      invariant Made(cs, start, next, end, size)
    {
      var s := start + t * size;
      var e := s + size;
      if s >= end { break; }
      if e > end { e := end; }
      OneMoreMade(cs, start, next, end, size, e);
      NextProduct(t, size);
      cs, next := cs + [Chunk(s, e)], next + size;
      t := t + 1;
    }
    AllMade(cs, start, next, end, size);
  }

  lemma NoneMade(start: int, end: int, size: int)
    requires start < end
    ensures Made([], start, start, end, size)
  {
  }

  lemma AllMade(cs: seq<Chunk>, start: int, s: int, end: int, size: int)
    requires start < end <= s && Made(cs, start, s, end, size)
    ensures CoverTo(cs, start, end) && AllButLast(cs, size) && cs != []
  {
    assert Least(s, end) == end;
  }

  lemma NextProduct(t: int, size: int)
    ensures (t + 1) * size == t * size + size
  {
  }

  function Least(a: int, b: int): int { if a <= b then a else b }

  /** The chunks made when the next one is to start at s, if there is to be one. */
  ghost predicate Made(cs: seq<Chunk>, start: int, s: int, end: int, size: int) {
    && CoverTo(cs, start, Least(s, end)) && AllButLast(cs, size)
    && (s <= end && cs != [] ==> cs[|cs| - 1].end - cs[|cs| - 1].start == size)
  }

  lemma OneMoreMade(cs: seq<Chunk>, start: int, s: int, end: int, size: int, e: int)
    requires Made(cs, start, s, end, size) && start <= s < end && size > 0 && e == Least(s + size, end)
    ensures Made(cs + [Chunk(s, e)], start, s + size, end, size)
  {
    OneMoreChunk(cs, start, s, e);
  }

  lemma OneMoreChunk(cs: seq<Chunk>, start: int, s: int, e: int)
    requires CoverTo(cs, start, s) && start <= s < e
    ensures CoverTo(cs + [Chunk(s, e)], start, e)
  {
    assert (cs + [Chunk(s, e)])[..|cs|] == cs;
    RangeConcat(start, s, e);
  }

  /** nr_parallel_for: the ranges its function is called with. A single call may get an empty range. */
  method ParallelFor(start: int, end: int, numThreads: int) returns (cs: seq<Chunk>)
    ensures Indices(cs) == Range(start, end) && |cs| >= 1 && Abutting(cs)
    ensures |cs| <= (if numThreads <= 1 then 1 else numThreads)
    ensures start < end ==> NonEmpty(cs)
    ensures if numThreads <= 1 || end - start <= numThreads then cs == [Chunk(start, end)]
            else Shares(cs, end - start, numThreads)
  {
    if numThreads <= 1 || end - start <= numThreads {
      cs := [Chunk(start, end)];
      assert cs[..0] == [] && [] + Range(start, end) == Range(start, end);
      return;
    }
    cs := Split(start, end, numThreads);
  }

  /**
   * The compiled @parallel function: nothing runs for an empty range, and no thread is left without work.
   * The early return for an empty range also skips the statements written after the loop.
   */
  method CompiledParallel(start: int, end: int, numThreads: int) returns (cs: seq<Chunk>, afterLoopRan: bool)
    requires numThreads > 0
    ensures Indices(cs) == Range(start, end) && NonEmpty(cs) && Abutting(cs)
    ensures |cs| <= numThreads && |cs| <= |Range(start, end)|
    ensures Shares(cs, end - start, if numThreads <= end - start then numThreads else end - start)
    ensures afterLoopRan <==> Range(start, end) != []
  {
    var total := end - start;
    var n := numThreads;
    if total <= 0 { return [], false; }
    if n > total { n := total; }
    cs := Split(start, end, n);
    afterLoopRan := true;
  }
}
