/** The variant of the pre-norm GEMM whose blocks serve several tokens at once
    (vllm/_tilelang_ops.py, hc_prenorm_gemm_block_m_tilelang): one split, `blockM` tokens per block. */
module PrenormBlockM {
  import opened Sums
  import opened Arith
  import opened PrenormGemm

  method LoadWeights(l: Launch, fn: Matrix, iT: nat, iK: nat) returns (fnVal: Vector)
    requires l.Valid() && Shape(fn, l.nOut, l.k) && iK < l.k
    ensures |fnVal| == l.tileN
    ensures forall o :: 0 <= o < l.tileN ==> fnVal[o] == if iT * l.tileN + o < l.nOut then fn[iT * l.tileN + o][iK] else 0.0
  {
    fnVal := [];
    for iO := 0 to l.tileN
      invariant |fnVal| == iO
      invariant forall o :: 0 <= o < iO ==> fnVal[o] == if iT * l.tileN + o < l.nOut then fn[iT * l.tileN + o][iK] else 0.0
    {
      var outIdx := iT * l.tileN + iO;
      fnVal := fnVal + [if outIdx < l.nOut then fn[outIdx][iK] else 0.0];
    }
  }

  /** What one thread holds for one of the tokens of its block. */
  ghost predicate Holds(l: Launch, x: Vector, fn: Matrix, iT: nat, tid: nat, iters: nat, acc: Vector, sqr: real) {
    && |acc| == l.tileN
    && (forall o :: 0 <= o < l.tileN ==>
          acc[o] == ThreadSum(Product(x, TileRow(fn, iT * l.tileN + o)), 0, l.threads, tid, iters))
    && (iT == 0 ==> sqr == ThreadSum(Product(x, x), 0, l.threads, tid, iters))
  }

  method AddElement(l: Launch, x: Vector, fn: Matrix, fnVal: Vector, iT: nat, it: nat, tid: nat, acc0: Vector, sqr0: real)
    returns (acc: Vector, sqr: real)
    requires l.Valid() && |x| == l.k && Shape(fn, l.nOut, l.k) && it * l.threads + tid < l.k
    requires Holds(l, x, fn, iT, tid, it, acc0, sqr0) && |fnVal| == l.tileN
    requires forall o :: 0 <= o < l.tileN ==>
      fnVal[o] == if iT * l.tileN + o < l.nOut then fn[iT * l.tileN + o][it * l.threads + tid] else 0.0
    ensures Holds(l, x, fn, iT, tid, it + 1, acc, sqr)
  {
    var iK := it * l.threads + tid;
    var xVal := x[iK];
    acc, sqr := acc0, sqr0;
    for iO := 0 to l.tileN
      invariant |acc| == l.tileN
      invariant forall o :: 0 <= o < l.tileN ==>
        acc[o] == ThreadSum(Product(x, TileRow(fn, iT * l.tileN + o)), 0, l.threads, tid, if o < iO then it + 1 else it)
    {
      acc := acc[iO := acc[iO] + xVal * fnVal[iO]];
    }
    if iT == 0 {
      sqr := sqr + xVal * xVal;
    }
  }

  method ThreadAccumulate(l: Launch, xs: Matrix, fn: Matrix, token: nat, blockM: nat, iT: nat, tid: nat)
    returns (accs: Matrix, sqrs: Vector)
    requires l.Valid() && l.splits == 1 && Shape(xs, |xs|, l.k) && Shape(fn, l.nOut, l.k) && tid < l.threads
    ensures |accs| == blockM == |sqrs|
    ensures forall m :: 0 <= m < blockM && token + m < |xs| ==>
      Holds(l, xs[token + m], fn, iT, tid, l.Iterations(), accs[m], sqrs[m])
  {
    l.CoveredFits(0);
    accs := seq(blockM, _ => seq(l.tileN, _ => 0.0));
    sqrs := seq(blockM, _ => 0.0);
    for it := 0 to l.Iterations()
      invariant |accs| == blockM == |sqrs|
      invariant forall m :: 0 <= m < blockM && token + m < |xs| ==>
        Holds(l, xs[token + m], fn, iT, tid, it, accs[m], sqrs[m])
    {
      ThreadIndex(l, it, tid);
      var fnVal := LoadWeights(l, fn, iT, it * l.threads + tid);
      for iM := 0 to blockM
        invariant |accs| == blockM == |sqrs|
        invariant forall m :: 0 <= m < blockM && token + m < |xs| ==>
          Holds(l, xs[token + m], fn, iT, tid, if m < iM then it + 1 else it, accs[m], sqrs[m])
      {
        var tokenIdx := token + iM;
        if tokenIdx < |xs| {
          var acc, sqr := AddElement(l, xs[tokenIdx], fn, fnVal, iT, it, tid, accs[iM], sqrs[iM]);
          accs, sqrs := accs[iM := acc], sqrs[iM := sqr];
        }
      }
    }
  }

  /** The held values of all threads, by thread and then by token of the block. */
  method BlockAccumulate(l: Launch, xs: Matrix, fn: Matrix, token: nat, blockM: nat, iT: nat)
    returns (accs: seq<Matrix>, sqrs: Matrix)
    requires l.Valid() && l.splits == 1 && Shape(xs, |xs|, l.k) && Shape(fn, l.nOut, l.k)
    ensures |accs| == l.threads == |sqrs|
    ensures forall t :: 0 <= t < l.threads ==> |accs[t]| == blockM == |sqrs[t]|
    ensures forall t, m :: 0 <= t < l.threads && 0 <= m < blockM && token + m < |xs| ==>
      Holds(l, xs[token + m], fn, iT, t, l.Iterations(), accs[t][m], sqrs[t][m])
  {
    accs, sqrs := [], [];
    for tid := 0 to l.threads
      invariant |accs| == tid == |sqrs|
      invariant forall t :: 0 <= t < tid ==> |accs[t]| == blockM == |sqrs[t]|
      invariant forall t, m :: 0 <= t < tid && 0 <= m < blockM && token + m < |xs| ==>
        Holds(l, xs[token + m], fn, iT, t, l.Iterations(), accs[t][m], sqrs[t][m])
    {
      var acc, sqr := ThreadAccumulate(l, xs, fn, token, blockM, iT, tid);
      accs, sqrs := accs + [acc], sqrs + [sqr];
    }
  }

  /** The cross-thread reduction for one token of the block. */
  method ReduceToken(l: Launch, x: Vector, fn: Matrix, iT: nat, accs: Matrix, sqrs: Vector) returns (tile: Vector, sq: real)
    requires l.Valid() && l.splits == 1 && |x| == l.k && Shape(fn, l.nOut, l.k)
    requires |accs| == l.threads == |sqrs|
    requires forall t :: 0 <= t < l.threads ==> Holds(l, x, fn, iT, t, l.Iterations(), accs[t], sqrs[t])
    ensures |tile| == l.tileN
    ensures forall o :: 0 <= o < l.tileN ==> tile[o] == PartialDot(l, x, TileRow(fn, iT * l.tileN + o), 0)
    ensures iT == 0 ==> sq == PartialDot(l, x, x, 0)
  {
    tile := [];
    for o := 0 to l.tileN
      invariant |tile| == o
      invariant forall u :: 0 <= u < o ==> tile[u] == PartialDot(l, x, TileRow(fn, iT * l.tileN + u), 0)
    {
      var held := seq(l.threads, t requires 0 <= t < l.threads && |accs| == l.threads && |accs[t]| == l.tileN => accs[t][o]);
      var v := BlockReduce(held, Product(x, TileRow(fn, iT * l.tileN + o)), 0, l.threads, l.Iterations());
      tile := tile + [v];
    }
    sq := 0.0;
    if iT == 0 {
      sq := BlockReduce(sqrs, Product(x, x), 0, l.threads, l.Iterations());
    }
  }

  /** Warp 0 reduces and writes one token of the block. */
  method BlockToken(l: Launch, x: Vector, fn: Matrix, out: array3<real>, sqrsum: array2<real>, token: nat, iT: nat,
                    accs: Matrix, sqrs: Vector) returns (ghost writes: multiset<Cell>)
    requires l.Valid() && l.splits == 1 && |x| == l.k && Shape(fn, l.nOut, l.k)
    requires |accs| == l.threads == |sqrs|
    requires forall t :: 0 <= t < l.threads ==> Holds(l, x, fn, iT, t, l.Iterations(), accs[t], sqrs[t])
    requires out.Length0 == 1 && token < out.Length1 && out.Length2 == l.nOut
    requires sqrsum.Length0 == 1 && token < sqrsum.Length1
    modifies out, sqrsum
    ensures forall n, o :: 0 <= n < out.Length1 && 0 <= o < l.nOut ==>
      out[0, n, o] == if n == token && InTile(iT * l.tileN, l.tileN, WARP, o) then PartialDot(l, x, fn[o], 0) else old(out[0, n, o])
    ensures forall n :: 0 <= n < sqrsum.Length1 ==>
      sqrsum[0, n] == if n == token && iT == 0 then PartialDot(l, x, x, 0) else old(sqrsum[0, n])
    ensures forall s, n, o ::
      writes[(s, n, o)] == if s == 0 && n == token && o < l.nOut && InTile(iT * l.tileN, l.tileN, WARP, o) then 1 else 0
  {
    hide PartialDot, Holds;
    var tile, sq := ReduceToken(l, x, fn, iT, accs, sqrs);
    writes := WriteTile(out, tile, iT * l.tileN, token, 0);
    if iT == 0 {
      sqrsum[0, token] := sq;
    }
  }

  /** One block: tile iT of the outputs, for the tokens from `token` on. */
  method Block(l: Launch, xs: Matrix, fn: Matrix, out: array3<real>, sqrsum: array2<real>, token: nat, blockM: nat, iT: nat)
    returns (ghost writes: multiset<Cell>)
    requires l.Valid() && l.splits == 1 && Shape(xs, |xs|, l.k) && Shape(fn, l.nOut, l.k) && blockM > 0
    requires out.Length0 == 1 && out.Length1 == |xs| && out.Length2 == l.nOut
    requires sqrsum.Length0 == 1 && sqrsum.Length1 == |xs|
    modifies out, sqrsum
    ensures forall n, o :: 0 <= n < |xs| && 0 <= o < l.nOut ==>
      out[0, n, o] == if InTile(token, blockM, blockM, n) && InTile(iT * l.tileN, l.tileN, WARP, o)
                      then PartialDot(l, xs[n], fn[o], 0) else old(out[0, n, o])
    ensures forall n :: 0 <= n < |xs| ==>
      sqrsum[0, n] == if InTile(token, blockM, blockM, n) && iT == 0 then PartialDot(l, xs[n], xs[n], 0) else old(sqrsum[0, n])
    ensures forall s, n, o ::
      writes[(s, n, o)] == if s == 0 && n < |xs| && o < l.nOut && InTile(token, blockM, blockM, n) &&
                              InTile(iT * l.tileN, l.tileN, WARP, o) then 1 else 0
  {
    hide PartialDot, Holds, Product;
    writes := multiset{};
    var accs, sqrs := BlockAccumulate(l, xs, fn, token, blockM, iT);
    var first := iT * l.tileN;
    for iM := 0 to blockM
      invariant forall n, o :: 0 <= n < |xs| && 0 <= o < l.nOut ==>
        out[0, n, o] == if InTile(token, blockM, iM, n) && InTile(first, l.tileN, WARP, o)
                        then PartialDot(l, xs[n], fn[o], 0) else old(out[0, n, o])
      invariant forall n :: 0 <= n < |xs| ==>
        sqrsum[0, n] == if InTile(token, blockM, iM, n) && iT == 0 then PartialDot(l, xs[n], xs[n], 0) else old(sqrsum[0, n])
      invariant forall s, n, o ::
        writes[(s, n, o)] == if s == 0 && n < |xs| && o < l.nOut && InTile(token, blockM, iM, n) &&
                                InTile(first, l.tileN, WARP, o) then 1 else 0
    {
      var n := token + iM;
      if n < |xs| {
        ghost var more := BlockToken(l, xs[n], fn, out, sqrsum, n, iT, Column(accs, iM), Column(sqrs, iM));
        writes := writes + more;
      }
    }
  }

  function Column<T>(m: seq<seq<T>>, j: nat): (r: seq<T>)
    requires forall i :: 0 <= i < |m| ==> j < |m[i]|
    ensures |r| == |m| && forall i :: 0 <= i < |m| ==> r[i] == m[i][j]
  {
    seq(|m|, i requires 0 <= i < |m| && j < |m[i]| => m[i][j])
  }

  method TokenTile(l: Launch, xs: Matrix, fn: Matrix, out: array3<real>, sqrsum: array2<real>, iMt: nat, blockM: nat)
    returns (ghost writes: multiset<Cell>)
    requires l.Valid() && l.splits == 1 && Shape(xs, |xs|, l.k) && Shape(fn, l.nOut, l.k) && blockM > 0
    requires out.Length0 == 1 && out.Length1 == |xs| && out.Length2 == l.nOut
    requires sqrsum.Length0 == 1 && sqrsum.Length1 == |xs|
    modifies out, sqrsum
    ensures forall n, o :: 0 <= n < |xs| && 0 <= o < l.nOut ==>
      out[0, n, o] == if InTile(iMt * blockM, blockM, blockM, n) && l.Written(o) then PartialDot(l, xs[n], fn[o], 0) else old(out[0, n, o])
    ensures forall n :: 0 <= n < |xs| ==>
      sqrsum[0, n] == if InTile(iMt * blockM, blockM, blockM, n) && l.nOut > 0 then PartialDot(l, xs[n], xs[n], 0) else old(sqrsum[0, n])
    ensures forall s, n, o ::
      writes[(s, n, o)] == if s == 0 && n < |xs| && InTile(iMt * blockM, blockM, blockM, n) && l.Written(o) then 1 else 0
  {
    writes := multiset{};
    TilesCoverOutputs(l);
    var token := iMt * blockM;
    for iT := 0 to CeilDiv(l.nOut, l.tileN)
      invariant forall n, o :: 0 <= n < |xs| && 0 <= o < l.nOut ==>
        out[0, n, o] == if InTile(token, blockM, blockM, n) && l.Written(o) && o < iT * l.tileN
                        then PartialDot(l, xs[n], fn[o], 0) else old(out[0, n, o])
      invariant forall n :: 0 <= n < |xs| ==>
        sqrsum[0, n] == if InTile(token, blockM, blockM, n) && iT > 0 then PartialDot(l, xs[n], xs[n], 0) else old(sqrsum[0, n])
      invariant forall s, n, o ::
        writes[(s, n, o)] == if s == 0 && n < |xs| && InTile(token, blockM, blockM, n) && l.Written(o) && o < iT * l.tileN then 1 else 0
    {
      ghost var more := Block(l, xs, fn, out, sqrsum, token, blockM, iT);
      writes := writes + more;
      forall o { TileOfOutput(l.tileN, iT, o); }
    }
  }

  /** The kernel gives what the one-token kernel gives with a single split, for any number of tokens,
      and writes each cell once even when the last block has fewer tokens than `blockM`. */
  method HcPrenormGemmBlockM(l: Launch, xs: Matrix, fn: Matrix, out: array3<real>, sqrsum: array2<real>, blockM: nat)
    returns (ghost writes: multiset<Cell>)
    requires l.Valid() && l.splits == 1 && Shape(xs, |xs|, l.k) && Shape(fn, l.nOut, l.k) && blockM > 0
    requires out.Length0 == 1 && out.Length1 == |xs| && out.Length2 == l.nOut
    requires sqrsum.Length0 == 1 && sqrsum.Length1 == |xs|
    modifies out, sqrsum
    ensures forall n, o :: 0 <= n < |xs| && 0 <= o < l.nOut ==>
      out[0, n, o] == if l.Written(o) then PartialDot(l, xs[n], fn[o], 0) else old(out[0, n, o])
    ensures l.nOut > 0 ==> forall n :: 0 <= n < |xs| ==> sqrsum[0, n] == PartialDot(l, xs[n], xs[n], 0)
    ensures forall s, n, o ::
      writes[(s, n, o)] == if s == 0 && 0 <= n < |xs| && l.Written(o) then 1 else 0
  {
    writes := multiset{};
    var mTiles := CeilDiv(|xs|, blockM);
    FloorMul(|xs| + blockM - 1, blockM);
    for iMt := 0 to mTiles
      invariant forall n, o :: 0 <= n < |xs| && 0 <= o < l.nOut ==>
        out[0, n, o] == if n < iMt * blockM && l.Written(o) then PartialDot(l, xs[n], fn[o], 0) else old(out[0, n, o])
      invariant l.nOut > 0 ==>
        forall n :: 0 <= n < |xs| && n < iMt * blockM ==> sqrsum[0, n] == PartialDot(l, xs[n], xs[n], 0)
      invariant forall s, n, o ::
        writes[(s, n, o)] == if s == 0 && 0 <= n < |xs| && n < iMt * blockM && l.Written(o) then 1 else 0
    {
      ghost var more := TokenTile(l, xs, fn, out, sqrsum, iMt, blockM);
      writes := writes + more;
      assert iMt * blockM + blockM == (iMt + 1) * blockM;
    }
  }
}
