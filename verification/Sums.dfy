/** Finite sums of reals, and the order in which a thread block of a GPU kernel adds them up. */
module Sums {

  function SumRange(f: int -> real, lo: int, hi: int): real
    decreases hi - lo
  {
    if hi <= lo then 0.0 else SumRange(f, lo, hi - 1) + f(hi - 1)
  }

  lemma {:induction false} SumRangeConcat(f: int -> real, lo: int, mid: int, hi: int)
    requires lo <= mid <= hi
    ensures SumRange(f, lo, hi) == SumRange(f, lo, mid) + SumRange(f, mid, hi)
    decreases hi - mid
  {
    if mid < hi {
      SumRangeConcat(f, lo, mid, hi - 1);
    }
  }

  lemma {:induction false} SumRangeExt(f: int -> real, g: int -> real, lo: int, hi: int)
    requires forall i :: lo <= i < hi ==> f(i) == g(i)
    ensures SumRange(f, lo, hi) == SumRange(g, lo, hi)
    decreases hi - lo
  {
    if lo < hi {
      SumRangeExt(f, g, lo, hi - 1);
    }
  }

  lemma {:induction false} SumRangeZero(f: int -> real, lo: int, hi: int)
    requires forall i :: lo <= i < hi ==> f(i) == 0.0
    ensures SumRange(f, lo, hi) == 0.0
    decreases hi - lo
  {
    if lo < hi {
      SumRangeZero(f, lo, hi - 1);
    }
  }

  // ----- Sums over a grid of cells

  function RowSum(f: (int, int) -> real, i: int, n: nat): real {
    if n == 0 then 0.0 else RowSum(f, i, n - 1) + f(i, n - 1)
  }

  function ColumnSum(f: (int, int) -> real, m: nat, j: int): real {
    if m == 0 then 0.0 else ColumnSum(f, m - 1, j) + f(m - 1, j)
  }

  /** Row after row. */
  function RowsSum(f: (int, int) -> real, m: nat, n: nat): real {
    if m == 0 then 0.0 else RowsSum(f, m - 1, n) + RowSum(f, m - 1, n)
  }

  /** Column after column. */
  function ColumnsSum(f: (int, int) -> real, m: nat, n: nat): real {
    if n == 0 then 0.0 else ColumnsSum(f, m, n - 1) + ColumnSum(f, m, n - 1)
  }

  lemma {:induction false} SumExchange(f: (int, int) -> real, m: nat, n: nat)
    ensures RowsSum(f, m, n) == ColumnsSum(f, m, n)
  {
    if m == 0 {
      NoRows(f, n);
    } else {
      SumExchange(f, m - 1, n);
      LastRow(f, m, n);
    }
  }

  lemma {:induction false} NoRows(f: (int, int) -> real, n: nat)
    ensures ColumnsSum(f, 0, n) == 0.0
  {
    if n > 0 { NoRows(f, n - 1); }
  }

  lemma {:induction false} LastRow(f: (int, int) -> real, m: nat, n: nat)
    requires m > 0
    ensures ColumnsSum(f, m, n) == ColumnsSum(f, m - 1, n) + RowSum(f, m - 1, n)
  {
    if n > 0 { LastRow(f, m, n - 1); }
  }

  /** A sum over i * n + j, read as a grid. */
  lemma {:induction false} SumFlat(g: int -> real, f: (int, int) -> real, m: nat, n: nat)
    requires forall i, j :: 0 <= i < m && 0 <= j < n ==> g(i * n + j) == f(i, j)
    ensures SumRange(g, 0, m * n) == RowsSum(f, m, n)
  {
    if m > 0 {
      SumFlat(g, f, m - 1, n);
      FlatRow(g, f, m - 1, n, n);
      assert (m - 1) * n + n == m * n;
      SumRangeConcat(g, 0, (m - 1) * n, m * n);
    }
  }

  lemma {:induction false} FlatRow(g: int -> real, f: (int, int) -> real, i: nat, n: nat, k: nat)
    requires k <= n && forall j :: 0 <= j < n ==> g(i * n + j) == f(i, j)
    ensures SumRange(g, i * n, i * n + k) == RowSum(f, i, k)
  {
    if k > 0 { FlatRow(g, f, i, n, k - 1); }
  }

  // ----- The order of a thread block: per thread over its strided elements, over the 32 lanes of a
  // ----- warp, then over the warps

  const WARP := 32

  function ThreadSum(f: int -> real, base: int, threads: nat, tid: nat, iters: nat): real {
    if iters == 0 then 0.0
    else ThreadSum(f, base, threads, tid, iters - 1) + f(base + (iters - 1) * threads + tid)
  }

  /** The sum of what the first n threads hold. */
  function ThreadsSum(f: int -> real, base: int, threads: nat, n: nat, iters: nat): real {
    if n == 0 then 0.0 else ThreadsSum(f, base, threads, n - 1, iters) + ThreadSum(f, base, threads, n - 1, iters)
  }

  /** The sum over the first n lanes of warp w. */
  function LanesSum(f: int -> real, base: int, threads: nat, w: nat, n: nat, iters: nat): real {
    if n == 0 then 0.0
    else LanesSum(f, base, threads, w, n - 1, iters) + ThreadSum(f, base, threads, w * WARP + (n - 1), iters)
  }

  function WarpsSum(f: int -> real, base: int, threads: nat, warps: nat, iters: nat): real {
    if warps == 0 then 0.0
    else WarpsSum(f, base, threads, warps - 1, iters) + LanesSum(f, base, threads, warps - 1, WARP, iters)
  }

  /** The block adds up exactly the slice of iters * threads elements from base on, each once. */
  lemma BlockSumIsSlice(f: int -> real, base: int, threads: nat, warps: nat, iters: nat)
    requires threads == warps * WARP
    ensures WarpsSum(f, base, threads, warps, iters) == SumRange(f, base, base + iters * threads)
  {
    WarpsCoverThreads(f, base, threads, warps, iters);
    ThreadsCoverSlice(f, base, threads, iters);
  }

  lemma {:induction false} WarpsCoverThreads(f: int -> real, base: int, threads: nat, warps: nat, iters: nat)
    ensures WarpsSum(f, base, threads, warps, iters) == ThreadsSum(f, base, threads, warps * WARP, iters)
  {
    if warps > 0 {
      WarpsCoverThreads(f, base, threads, warps - 1, iters);
      LanesCoverThreads(f, base, threads, warps - 1, WARP, iters);
    }
  }

  lemma {:induction false} LanesCoverThreads(f: int -> real, base: int, threads: nat, w: nat, n: nat, iters: nat)
    ensures ThreadsSum(f, base, threads, w * WARP + n, iters) ==
            ThreadsSum(f, base, threads, w * WARP, iters) + LanesSum(f, base, threads, w, n, iters)
  {
    if n > 0 {
      LanesCoverThreads(f, base, threads, w, n - 1, iters);
    }
  }

  lemma {:induction false} ThreadsCoverSlice(f: int -> real, base: int, threads: nat, iters: nat)
    ensures ThreadsSum(f, base, threads, threads, iters) == SumRange(f, base, base + iters * threads)
  {
    if iters == 0 {
      IdleThreads(f, base, threads, threads);
    } else {
      ThreadsCoverSlice(f, base, threads, iters - 1);
      LastIteration(f, base, threads, threads, iters);
      var done := base + (iters - 1) * threads;
      assert done + threads == base + iters * threads;
      SumRangeConcat(f, base, done, done + threads);
    }
  }

  lemma {:induction false} IdleThreads(f: int -> real, base: int, threads: nat, n: nat)
    ensures ThreadsSum(f, base, threads, n, 0) == 0.0
  {
    if n > 0 { IdleThreads(f, base, threads, n - 1); }
  }

  lemma {:induction false} LastIteration(f: int -> real, base: int, threads: nat, n: nat, iters: nat)
    requires iters > 0
    ensures ThreadsSum(f, base, threads, n, iters) ==
            ThreadsSum(f, base, threads, n, iters - 1) +
            SumRange(f, base + (iters - 1) * threads, base + (iters - 1) * threads + n)
  {
    if n > 0 { LastIteration(f, base, threads, n - 1, iters); }
  }

  // ----- Splitting the reduction

  /** The sum of the partial sums of `splits` slices, slice s covering `covered` of its `stride` elements. */
  function SplitsSum(f: int -> real, stride: nat, covered: nat, splits: nat): real {
    if splits == 0 then 0.0
    else SplitsSum(f, stride, covered, splits - 1) +
         SumRange(f, (splits - 1) * stride, (splits - 1) * stride + covered)
  }

  lemma {:induction false} SplitsCoverAll(f: int -> real, stride: nat, splits: nat)
    ensures SplitsSum(f, stride, stride, splits) == SumRange(f, 0, splits * stride)
  {
    if splits > 0 {
      SplitsCoverAll(f, stride, splits - 1);
      assert (splits - 1) * stride + stride == splits * stride;
      SumRangeConcat(f, 0, (splits - 1) * stride, splits * stride);
    }
  }
}
