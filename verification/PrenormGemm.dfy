/** The split-K, tiled, warp-reduced pre-norm GEMM of mHC (vllm/_tilelang_ops.py,
    hc_prenorm_gemm_tilelang and hc_prenorm_gemm_block_m_tilelang), over exact reals.

    A kernel is a grid of thread blocks; the blocks and the threads of a block are run one after the
    other here, which is one of the orders the hardware may take. */
module PrenormGemm {
  import opened Sums
  import opened Arith

  type Vector = seq<real>
  type Matrix = seq<seq<real>>

  /** (split, token, output) of a cell of `out`, or (split, token) of a cell of `sqrsum`. */
  type Cell = (int, int, int)

  ghost predicate Shape(m: Matrix, rows: int, columns: int) {
    |m| == rows && forall i :: 0 <= i < |m| ==> |m[i]| == columns
  }

  /** The products whose sum is the dot product of x and w. */
  function Product(x: Vector, w: Vector): int -> real {
    (k: int) => if 0 <= k < |x| && k < |w| then x[k] * w[k] else 0.0
  }

  function Dot(x: Vector, w: Vector): real {
    SumRange(Product(x, w), 0, |x|)
  }

  function CeilDiv(a: nat, b: nat): nat
    requires b > 0
  {
    (a + b - 1) / b
  }

  /** Launch parameters: reduction length, outputs, threads per block, tile width, splits. */
  datatype Launch = Launch(k: nat, nOut: nat, threads: nat, tileN: nat, splits: nat) {
    predicate Valid() {
      threads > 0 && threads % WARP == 0 && tileN > 0 && splits > 0
    }

    function Stride(): nat
      requires Valid()
    {
      k / splits
    }

    function Iterations(): nat
      requires Valid()
    {
      Stride() / threads
    }

    /** How many elements of its slice a split reads. */
    function Covered(): nat
      requires Valid()
    {
      Iterations() * threads
    }

    /** Lanes of one warp write the outputs of a tile, so only its first 32 are ever written. */
    predicate Written(o: int)
      requires Valid()
    {
      0 <= o < nOut && o % tileN < WARP
    }

    lemma CoveredFits(s: nat)
      requires Valid() && s < splits
      ensures Covered() <= Stride()
      ensures s * Stride() + Covered() <= k
    {
      FloorMul(k, splits);
      FloorMul(Stride(), threads);
      SliceFits(k, splits, Stride(), s);
    }
  }

  lemma SliceFits(k: nat, splits: nat, stride: nat, s: nat)
    requires stride * splits <= k && s < splits
    ensures s * stride + stride <= k
  {
    MulLe(s + 1, splits, stride);
  }

  /** What split s adds up: its slice of the products. */
  function PartialDot(l: Launch, x: Vector, w: Vector, s: int): real
    requires l.Valid()
  {
    SumRange(Product(x, w), s * l.Stride(), s * l.Stride() + l.Covered())
  }

  function TileRow(fn: Matrix, o: int): Vector {
    if 0 <= o < |fn| then fn[o] else []
  }

  // ----- One thread, one block

  method ThreadAccumulate(l: Launch, x: Vector, fn: Matrix, iT: nat, base: nat, tid: nat)
    returns (acc: Vector, sqr: real)
    requires l.Valid() && |x| == l.k && Shape(fn, l.nOut, l.k)
    requires base + l.Covered() <= l.k && tid < l.threads
    ensures |acc| == l.tileN
    ensures forall o :: 0 <= o < l.tileN ==>
      acc[o] == ThreadSum(Product(x, TileRow(fn, iT * l.tileN + o)), base, l.threads, tid, l.Iterations())
    ensures iT == 0 ==> sqr == ThreadSum(Product(x, x), base, l.threads, tid, l.Iterations())
  {
    acc := seq(l.tileN, _ => 0.0);
    sqr := 0.0;
    for it := 0 to l.Iterations()
      invariant |acc| == l.tileN
      invariant forall o :: 0 <= o < l.tileN ==>
        acc[o] == ThreadSum(Product(x, TileRow(fn, iT * l.tileN + o)), base, l.threads, tid, it)
      invariant iT == 0 ==> sqr == ThreadSum(Product(x, x), base, l.threads, tid, it)
    {
      ThreadIndex(l, it, tid);
      var iK := base + it * l.threads + tid;
      var xVal := x[iK];
      acc := AccumulateTile(l, x, fn, iT, iK, acc);
      if iT == 0 {
        sqr := sqr + xVal * xVal;
      }
    }
  }

  lemma ThreadIndex(l: Launch, it: nat, tid: nat)
    requires l.Valid() && it < l.Iterations() && tid < l.threads
    ensures it * l.threads + tid < l.Covered()
  {
    assert (it + 1) * l.threads <= l.Iterations() * l.threads;
    assert it * l.threads + l.threads == (it + 1) * l.threads;
  }

  method AccumulateTile(l: Launch, x: Vector, fn: Matrix, iT: nat, iK: nat, acc0: Vector) returns (acc: Vector)
    requires l.Valid() && |x| == l.k && Shape(fn, l.nOut, l.k) && iK < l.k && |acc0| == l.tileN
    ensures |acc| == l.tileN
    ensures forall o :: 0 <= o < l.tileN ==> acc[o] == acc0[o] + Product(x, TileRow(fn, iT * l.tileN + o))(iK)
  {
    acc := acc0;
    for iO := 0 to l.tileN
      invariant |acc| == l.tileN
      invariant forall o :: 0 <= o < iO ==> acc[o] == acc0[o] + Product(x, TileRow(fn, iT * l.tileN + o))(iK)
      invariant forall o :: iO <= o < l.tileN ==> acc[o] == acc0[o]
    {
      var outIdx := iT * l.tileN + iO;
      if outIdx < l.nOut {
        acc := acc[iO := acc[iO] + x[iK] * fn[outIdx][iK]];
      }
    }
  }

  /** T.warp_reduce_sum over the lanes of warp w, of what each thread holds. */
  method WarpReduce(held: Vector, w: nat, ghost f: int -> real, ghost base: int, ghost threads: nat, ghost iters: nat)
    returns (v: real)
    requires |held| == threads && (w + 1) * WARP <= threads
    requires forall t :: 0 <= t < threads ==> held[t] == ThreadSum(f, base, threads, t, iters)
    ensures v == LanesSum(f, base, threads, w, WARP, iters)
  {
    v := 0.0;
    for lane := 0 to WARP
      invariant v == LanesSum(f, base, threads, w, lane, iters)
    {
      v := v + held[w * WARP + lane];
    }
  }

  /** Warp reduction, then the cross-warp sum through shared memory that warp 0 does. */
  method BlockReduce(held: Vector, ghost f: int -> real, ghost base: int, threads: nat, ghost iters: nat) returns (v: real)
    requires |held| == threads && threads % WARP == 0
    requires forall t :: 0 <= t < threads ==> held[t] == ThreadSum(f, base, threads, t, iters)
    ensures v == SumRange(f, base, base + iters * threads)
  {
    var numWarps := threads / WARP;
    var shared := [];
    for w := 0 to numWarps
      invariant |shared| == w
      invariant forall u :: 0 <= u < w ==> shared[u] == LanesSum(f, base, threads, u, WARP, iters)
    {
      var sum := WarpReduce(held, w, f, base, threads, iters);
      shared := shared + [sum];
    }
    v := 0.0;
    for w := 0 to numWarps
      invariant v == WarpsSum(f, base, threads, w, iters)
    {
      v := v + shared[w];
    }
    BlockSumIsSlice(f, base, threads, numWarps, iters);
  }

  /** One thread block: tile iT of the outputs, split iS of the reduction, of one token. */
  method Block(l: Launch, x: Vector, fn: Matrix, iT: nat, iS: nat) returns (tile: Vector, sq: real)
    requires l.Valid() && |x| == l.k && Shape(fn, l.nOut, l.k) && iS < l.splits
    ensures |tile| == l.tileN
    ensures forall o :: 0 <= o < l.tileN ==> tile[o] == PartialDot(l, x, TileRow(fn, iT * l.tileN + o), iS)
    ensures iT == 0 ==> sq == PartialDot(l, x, x, iS)
  {
    l.CoveredFits(iS);
    var base := iS * l.Stride();
    var accs, sqrs := BlockAccumulate(l, x, fn, iT, base);
    tile := [];
    for o := 0 to l.tileN
      invariant |tile| == o
      invariant forall u :: 0 <= u < o ==> tile[u] == PartialDot(l, x, TileRow(fn, iT * l.tileN + u), iS)
    {
      var held := seq(l.threads, t requires 0 <= t < l.threads => accs[t][o]);
      var v := BlockReduce(held, Product(x, TileRow(fn, iT * l.tileN + o)), base, l.threads, l.Iterations());
      tile := tile + [v];
    }
    sq := 0.0;
    if iT == 0 {
      sq := BlockReduce(sqrs, Product(x, x), base, l.threads, l.Iterations());
    }
  }

  method BlockAccumulate(l: Launch, x: Vector, fn: Matrix, iT: nat, base: nat) returns (accs: Matrix, sqrs: Vector)
    requires l.Valid() && |x| == l.k && Shape(fn, l.nOut, l.k) && base + l.Covered() <= l.k
    ensures Shape(accs, l.threads, l.tileN) && |sqrs| == l.threads
    ensures forall t, o :: 0 <= t < l.threads && 0 <= o < l.tileN ==>
      accs[t][o] == ThreadSum(Product(x, TileRow(fn, iT * l.tileN + o)), base, l.threads, t, l.Iterations())
    ensures iT == 0 ==>
      forall t :: 0 <= t < l.threads ==> sqrs[t] == ThreadSum(Product(x, x), base, l.threads, t, l.Iterations())
  {
    accs, sqrs := [], [];
    for tid := 0 to l.threads
      invariant Shape(accs, tid, l.tileN) && |sqrs| == tid
      invariant forall t, o :: 0 <= t < tid && 0 <= o < l.tileN ==>
        accs[t][o] == ThreadSum(Product(x, TileRow(fn, iT * l.tileN + o)), base, l.threads, t, l.Iterations())
      invariant iT == 0 ==>
        forall t :: 0 <= t < tid ==> sqrs[t] == ThreadSum(Product(x, x), base, l.threads, t, l.Iterations())
    {
      var acc, sqr := ThreadAccumulate(l, x, fn, iT, base, tid);
      accs, sqrs := accs + [acc], sqrs + [sqr];
    }
  }

  // ----- The grid

  /** Output o is one of the first `lanes` of the tile that starts at `first`. */
  predicate InTile(first: int, width: int, lanes: int, o: int) {
    first <= o < first + lanes && o < first + width
  }

  /** Warp 0 writes the tile that starts at output `first`: lane i writes element i. */
  method WriteTile(out: array3<real>, tile: Vector, first: nat, iN: nat, iS: nat) returns (ghost writes: multiset<Cell>)
    requires iS < out.Length0 && iN < out.Length1
    modifies out
    ensures forall s, n, o :: 0 <= s < out.Length0 && 0 <= n < out.Length1 && 0 <= o < out.Length2 ==>
      out[s, n, o] == if s == iS && n == iN && InTile(first, |tile|, WARP, o) then tile[o - first] else old(out[s, n, o])
    ensures forall s, n, o ::
      writes[(s, n, o)] == if s == iS && n == iN && InTile(first, |tile|, WARP, o) && o < out.Length2 then 1 else 0
  {
    writes := multiset{};
    for lane := 0 to WARP
      invariant forall s, n, o :: 0 <= s < out.Length0 && 0 <= n < out.Length1 && 0 <= o < out.Length2 ==>
        out[s, n, o] == if s == iS && n == iN && InTile(first, |tile|, lane, o) then tile[o - first] else old(out[s, n, o])
      invariant forall s, n, o ::
        writes[(s, n, o)] == if s == iS && n == iN && InTile(first, |tile|, lane, o) && o < out.Length2 then 1 else 0
    {
      if lane < |tile| {
        var outIdx := first + lane;
        if outIdx < out.Length2 {
          out[iS, iN, outIdx] := tile[lane];
          writes := writes + multiset{(iS, iN, outIdx)};
        }
      }
    }
  }

  /** All splits of tile iT of token iN. */
  method TileBlocks(l: Launch, x: Vector, fn: Matrix, out: array3<real>, sqrsum: array2<real>, iN: nat, iT: nat)
    returns (ghost writes: multiset<Cell>)
    requires l.Valid() && |x| == l.k && Shape(fn, l.nOut, l.k)
    requires out.Length0 == l.splits && out.Length2 == l.nOut && iN < out.Length1
    requires sqrsum.Length0 == l.splits && iN < sqrsum.Length1
    modifies out, sqrsum
    ensures forall s, n, o :: 0 <= s < l.splits && 0 <= n < out.Length1 && 0 <= o < l.nOut ==>
      out[s, n, o] == if n == iN && InTile(iT * l.tileN, l.tileN, WARP, o) then PartialDot(l, x, fn[o], s) else old(out[s, n, o])
    ensures forall s, n :: 0 <= s < l.splits && 0 <= n < sqrsum.Length1 ==>
      sqrsum[s, n] == if n == iN && iT == 0 then PartialDot(l, x, x, s) else old(sqrsum[s, n])
    ensures forall s, n, o ::
      writes[(s, n, o)] == if 0 <= s < l.splits && n == iN && InTile(iT * l.tileN, l.tileN, WARP, o) && o < l.nOut then 1 else 0
  {
    writes := multiset{};
    var first := iT * l.tileN;
    for iS := 0 to l.splits
      invariant forall s, n, o :: 0 <= s < l.splits && 0 <= n < out.Length1 && 0 <= o < l.nOut ==>
        out[s, n, o] == if n == iN && s < iS && InTile(first, l.tileN, WARP, o) then PartialDot(l, x, fn[o], s) else old(out[s, n, o])
      invariant forall s, n :: 0 <= s < l.splits && 0 <= n < sqrsum.Length1 ==>
        sqrsum[s, n] == if n == iN && iT == 0 && s < iS then PartialDot(l, x, x, s) else old(sqrsum[s, n])
      invariant forall s, n, o ::
        writes[(s, n, o)] == if 0 <= s < iS && n == iN && InTile(first, l.tileN, WARP, o) && o < l.nOut then 1 else 0
    {
      var tile, sq := Block(l, x, fn, iT, iS);
      ghost var more := WriteTile(out, tile, first, iN, iS);
      writes := writes + more;
      if iT == 0 {
        sqrsum[iS, iN] := sq;
      }
    }
  }

  /** Tile iT holds the outputs with quotient iT, and its first lanes those with a small remainder. */
  lemma TileOfOutput(tileN: nat, iT: nat, o: int)
    requires tileN > 0
    ensures InTile(iT * tileN, tileN, WARP, o) <==> iT * tileN <= o < (iT + 1) * tileN && o % tileN < WARP
  {
    if iT * tileN <= o < (iT + 1) * tileN {
      DivUnique(o, tileN, iT, o - iT * tileN);
    }
  }

  /** All tiles of token iN. */
  method TokenBlocks(l: Launch, x: Vector, fn: Matrix, out: array3<real>, sqrsum: array2<real>, iN: nat)
    returns (ghost writes: multiset<Cell>)
    requires l.Valid() && |x| == l.k && Shape(fn, l.nOut, l.k)
    requires out.Length0 == l.splits && out.Length2 == l.nOut && iN < out.Length1
    requires sqrsum.Length0 == l.splits && iN < sqrsum.Length1
    modifies out, sqrsum
    ensures forall s, n, o :: 0 <= s < l.splits && 0 <= n < out.Length1 && 0 <= o < l.nOut ==>
      out[s, n, o] == if n == iN && l.Written(o) then PartialDot(l, x, fn[o], s) else old(out[s, n, o])
    ensures forall s, n :: 0 <= s < l.splits && 0 <= n < sqrsum.Length1 ==>
      sqrsum[s, n] == if n == iN && l.nOut > 0 then PartialDot(l, x, x, s) else old(sqrsum[s, n])
    ensures forall s, n, o ::
      writes[(s, n, o)] == if 0 <= s < l.splits && n == iN && l.Written(o) then 1 else 0
  {
    writes := multiset{};
    var nTiles := CeilDiv(l.nOut, l.tileN);
    TilesCoverOutputs(l);
    for iT := 0 to nTiles
      invariant forall s, n, o :: 0 <= s < l.splits && 0 <= n < out.Length1 && 0 <= o < l.nOut ==>
        out[s, n, o] == if n == iN && l.Written(o) && o < iT * l.tileN then PartialDot(l, x, fn[o], s) else old(out[s, n, o])
      invariant forall s, n :: 0 <= s < l.splits && 0 <= n < sqrsum.Length1 ==>
        sqrsum[s, n] == if n == iN && iT > 0 then PartialDot(l, x, x, s) else old(sqrsum[s, n])
      invariant forall s, n, o ::
        writes[(s, n, o)] == if 0 <= s < l.splits && n == iN && l.Written(o) && o < iT * l.tileN then 1 else 0
    {
      ghost var more := TileBlocks(l, x, fn, out, sqrsum, iN, iT);
      writes := writes + more;
      forall o { TileOfOutput(l.tileN, iT, o); }
    }
  }

  lemma TilesCoverOutputs(l: Launch)
    requires l.Valid()
    ensures l.nOut <= CeilDiv(l.nOut, l.tileN) * l.tileN
    ensures l.nOut > 0 <==> CeilDiv(l.nOut, l.tileN) > 0
  {
    FloorMul(l.nOut + l.tileN - 1, l.tileN);
  }

  /** The kernel: every token, every tile, every split.  No divisibility is assumed here. */
  method HcPrenormGemm(l: Launch, xs: Matrix, fn: Matrix, out: array3<real>, sqrsum: array2<real>)
    returns (ghost writes: multiset<Cell>)
    requires l.Valid() && Shape(xs, |xs|, l.k) && Shape(fn, l.nOut, l.k)
    requires out.Length0 == l.splits && out.Length1 == |xs| && out.Length2 == l.nOut
    requires sqrsum.Length0 == l.splits && sqrsum.Length1 == |xs|
    modifies out, sqrsum
    ensures forall s, n, o :: 0 <= s < l.splits && 0 <= n < |xs| && 0 <= o < l.nOut ==>
      out[s, n, o] == if l.Written(o) then PartialDot(l, xs[n], fn[o], s) else old(out[s, n, o])
    ensures l.nOut > 0 ==>
      forall s, n :: 0 <= s < l.splits && 0 <= n < |xs| ==> sqrsum[s, n] == PartialDot(l, xs[n], xs[n], s)
    ensures forall s, n, o ::
      writes[(s, n, o)] == if 0 <= s < l.splits && 0 <= n < |xs| && l.Written(o) then 1 else 0
  {
    writes := multiset{};
    for iN := 0 to |xs|
      invariant forall s, n, o :: 0 <= s < l.splits && 0 <= n < |xs| && 0 <= o < l.nOut ==>
        out[s, n, o] == if n < iN && l.Written(o) then PartialDot(l, xs[n], fn[o], s) else old(out[s, n, o])
      invariant l.nOut > 0 ==>
        forall s, n :: 0 <= s < l.splits && 0 <= n < iN ==> sqrsum[s, n] == PartialDot(l, xs[n], xs[n], s)
      invariant forall s, n, o ::
        writes[(s, n, o)] == if 0 <= s < l.splits && 0 <= n < iN && l.Written(o) then 1 else 0
    {
      ghost var more := TokenBlocks(l, xs[iN], fn, out, sqrsum, iN);
      writes := writes + more;
    }
  }

  // ----- What the splits add up to

  /** The partial results of the first n splits, added up as the next kernel adds them. */
  function SummedOverSplits(l: Launch, x: Vector, w: Vector, n: nat): real
    requires l.Valid()
  {
    if n == 0 then 0.0 else SummedOverSplits(l, x, w, n - 1) + PartialDot(l, x, w, n - 1)
  }

  lemma {:induction false} SummedIsSplitsSum(l: Launch, x: Vector, w: Vector, n: nat)
    requires l.Valid()
    ensures SummedOverSplits(l, x, w, n) == SplitsSum(Product(x, w), l.Stride(), l.Covered(), n)
  {
    if n > 0 { SummedIsSplitsSum(l, x, w, n - 1); }
  }

  /** The launch reads every element: splits times threads divides the reduction length. */
  predicate Exact(l: Launch)
    requires l.Valid()
  {
    l.k % (l.splits * l.threads) == 0
  }

  lemma ExactCovers(l: Launch)
    requires l.Valid()
    ensures Exact(l) <==> l.splits * l.Stride() == l.k && l.Covered() == l.Stride()
  {
    var unit := l.splits * l.threads;
    assert unit > 0;
    FloorMul(l.k, l.splits);
    FloorMul(l.Stride(), l.threads);
    if Exact(l) {
      var q := l.k / unit;
      assert l.k == q * unit == (q * l.threads) * l.splits by { FloorMul(l.k, unit); }
      DivUnique(l.k, l.splits, q * l.threads, 0);
      DivUnique(l.Stride(), l.threads, q, 0);
    }
    if l.splits * l.Stride() == l.k && l.Covered() == l.Stride() {
      assert l.k == l.Iterations() * unit;
      DivUnique(l.k, unit, l.Iterations(), 0);
    }
  }

  /** Summed over the splits the kernel gives the plain dot product, for every x and w, exactly when
      splits times threads divides the reduction length. */
  lemma SplitsGiveDot(l: Launch, x: Vector, w: Vector)
    requires l.Valid() && |x| == l.k == |w| && Exact(l)
    ensures SummedOverSplits(l, x, w, l.splits) == Dot(x, w)
  {
    ExactCovers(l);
    SummedIsSplitsSum(l, x, w, l.splits);
    SplitsCoverAll(Product(x, w), l.Stride(), l.splits);
  }

  /** Otherwise some element is read by no thread, and a vector that is zero elsewhere shows it. */
  lemma InexactLosesElement(l: Launch) returns (x: Vector)
    requires l.Valid() && !Exact(l)
    ensures |x| == l.k && SummedOverSplits(l, x, x, l.splits) != Dot(x, x)
  {
    var missed := MissedElement(l);
    x := seq(l.k, i => if i == missed then 1.0 else 0.0);
    forall s | 0 <= s < l.splits
      ensures PartialDot(l, x, x, s) == 0.0
    {
      var lo := s * l.Stride();
      SumRangeZero(Product(x, x), lo, lo + l.Covered());
    }
    ZeroSplits(l, x, l.splits);
    var f := Product(x, x);
    SumRangeConcat(f, 0, missed, l.k);
    SumRangeZero(f, 0, missed);
    SumRangeConcat(f, missed, missed + 1, l.k);
    SumRangeZero(f, missed + 1, l.k);
    assert SumRange(f, missed, missed + 1) == SumRange(f, missed, missed) + f(missed);
  }

  lemma MissedElement(l: Launch) returns (m: nat)
    requires l.Valid() && !Exact(l)
    ensures m < l.k
    ensures forall s :: 0 <= s < l.splits ==> !(s * l.Stride() <= m < s * l.Stride() + l.Covered())
  {
    ExactCovers(l);
    FloorMul(l.k, l.splits);
    FloorMul(l.Stride(), l.threads);
    m := if l.splits * l.Stride() < l.k then l.splits * l.Stride() else l.Covered();
    forall s | 0 <= s < l.splits
      ensures !(s * l.Stride() <= m < s * l.Stride() + l.Covered())
    {
      if m == l.splits * l.Stride() {
        MulLe(s + 1, l.splits, l.Stride());
      } else if s > 0 {
        MulLe(1, s, l.Stride());
      }
    }
    MulLe(1, l.splits, l.Stride());
  }

  lemma {:induction false} ZeroSplits(l: Launch, x: Vector, n: nat)
    requires l.Valid() && n <= l.splits
    requires forall s :: 0 <= s < l.splits ==> PartialDot(l, x, x, s) == 0.0
    ensures SummedOverSplits(l, x, x, n) == 0.0
  {
    if n > 0 { ZeroSplits(l, x, n - 1); }
  }

  /** Every cell of `out` is written exactly when no tile is wider than a warp. */
  lemma AllCellsWritten(l: Launch)
    requires l.Valid()
    ensures (forall o :: 0 <= o < l.nOut ==> l.Written(o)) <==> l.tileN <= WARP || l.nOut <= WARP
  {
    if l.tileN > WARP && l.nOut > WARP {
      DivUnique(WARP, l.tileN, 0, WARP);
      assert !l.Written(WARP);
    }
    forall o | 0 <= o < l.nOut && (l.tileN <= WARP || l.nOut <= WARP)
      ensures l.Written(o)
    {
      if l.tileN > WARP {
        DivUnique(o, l.tileN, 0, o);
      }
    }
  }
}
