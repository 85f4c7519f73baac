/** mHC post-mapping and the kernel that fuses it with the pre-norm GEMM
    (vllm/_tilelang_ops.py, mhc_post_tilelang and mhc_fused_tilelang), over exact reals. */
module MhcFused {
  import opened Sums
  import opened Arith
  import opened PrenormGemm

  /** One token's inputs: post mix (hc), comb mix (hc x hc), layer output (h), residual (hc x h). */
  datatype Token = Token(post: Vector, comb: Matrix, x: Vector, residual: Matrix) {
    ghost predicate Valid(hc: nat, h: nat) {
      |post| == hc && Shape(comb, hc, hc) && |x| == h && Shape(residual, hc, h)
    }

    /** post[j] * x[i] plus the first k terms of comb[., j] . residual[., i]. */
    function MixUpTo(j: nat, i: nat, k: nat): real
      requires j < |post| && i < |x| && k <= |residual| <= |comb|
      requires forall c :: 0 <= c < k ==> j < |comb[c]| && i < |residual[c]|
    {
      if k == 0 then post[j] * x[i] else MixUpTo(j, i, k - 1) + comb[k - 1][j] * residual[k - 1][i]
    }

    /** The new residual: channel j is post[j] * x + sum over k of comb[k, j] * residual[k]. */
    ghost function Mixed(hc: nat, h: nat): (r: Matrix)
      requires Valid(hc, h)
      ensures Shape(r, hc, h)
    {
      seq(hc, j requires 0 <= j < hc => seq(h, i requires 0 <= i < h => MixUpTo(j, i, hc)))
    }
  }

  // ----- What the new residual is, by the einsum of vllm/model_executor/kernels/mhc/torch.py

  function Column(m: Matrix, j: nat): (r: Vector)
    requires forall c :: 0 <= c < |m| ==> j < |m[c]|
    ensures |r| == |m|
  {
    seq(|m|, c requires 0 <= c < |m| && j < |m[c]| => m[c][j])
  }

  /** einsum("ij,ih->jh", comb, residual) + post * x. */
  lemma MixedIsEinsum(t: Token, hc: nat, h: nat, j: nat, i: nat)
    requires t.Valid(hc, h) && j < hc && i < h
    ensures t.Mixed(hc, h)[j][i] == Dot(Column(t.comb, j), Column(t.residual, i)) + t.post[j] * t.x[i]
  {
    EinsumUpTo(t, hc, h, j, i, hc);
  }

  lemma {:induction false} EinsumUpTo(t: Token, hc: nat, h: nat, j: nat, i: nat, k: nat)
    requires t.Valid(hc, h) && j < hc && i < h && k <= hc
    ensures t.MixUpTo(j, i, k) == SumRange(Product(Column(t.comb, j), Column(t.residual, i)), 0, k) + t.post[j] * t.x[i]
  {
    if k > 0 { EinsumUpTo(t, hc, h, j, i, k - 1); }
  }

  function Sum(v: Vector, n: nat): real
    requires n <= |v|
  {
    if n == 0 then 0.0 else Sum(v, n - 1) + v[n - 1]
  }

  /** The sum of column i of the new residual over its first n channels. */
  ghost function ChannelTotal(t: Token, hc: nat, h: nat, i: nat, n: nat): real
    requires t.Valid(hc, h) && i < h && n <= hc
  {
    if n == 0 then 0.0 else ChannelTotal(t, hc, h, i, n - 1) + t.Mixed(hc, h)[n - 1][i]
  }

  /** The first k old channels of column i, each weighted by the sum of the first n entries of its row of comb. */
  ghost function ByRowSums(t: Token, hc: nat, h: nat, i: nat, n: nat, k: nat): real
    requires t.Valid(hc, h) && i < h && n <= hc && k <= hc
  {
    if k == 0 then 0.0 else ByRowSums(t, hc, h, i, n, k - 1) + Sum(t.comb[k - 1], n) * t.residual[k - 1][i]
  }

  lemma {:induction false} ByRowSumsNext(t: Token, hc: nat, h: nat, i: nat, n: nat, k: nat)
    requires t.Valid(hc, h) && i < h && n < hc && k <= hc
    ensures ByRowSums(t, hc, h, i, n + 1, k) == ByRowSums(t, hc, h, i, n, k) + t.MixUpTo(n, i, k) - t.post[n] * t.x[i]
  {
    if k > 0 {
      ByRowSumsNext(t, hc, h, i, n, k - 1);
      Distributes(Sum(t.comb[k - 1], n), t.comb[k - 1][n], t.residual[k - 1][i]);
    }
  }

  lemma Distributes(a: real, b: real, r: real)
    ensures (a + b) * r == a * r + b * r
  {
  }

  lemma {:induction false} ChannelsAddUp(t: Token, hc: nat, h: nat, i: nat, n: nat)
    requires t.Valid(hc, h) && i < h && n <= hc
    ensures ChannelTotal(t, hc, h, i, n) == Sum(t.post, n) * t.x[i] + ByRowSums(t, hc, h, i, n, hc)
  {
    if n == 0 {
      NoRowSums(t, hc, h, i, hc);
    } else {
      ChannelsAddUp(t, hc, h, i, n - 1);
      ByRowSumsNext(t, hc, h, i, n - 1, hc);
      Distributes(Sum(t.post, n - 1), t.post[n - 1], t.x[i]);
    }
  }

  lemma {:induction false} NoRowSums(t: Token, hc: nat, h: nat, i: nat, k: nat)
    requires t.Valid(hc, h) && i < h && k <= hc
    ensures ByRowSums(t, hc, h, i, 0, k) == 0.0
  {
    if k > 0 { NoRowSums(t, hc, h, i, k - 1); }
  }

  lemma {:induction false} UnitRowSums(t: Token, hc: nat, h: nat, i: nat, k: nat)
    requires t.Valid(hc, h) && i < h && k <= hc && forall c :: 0 <= c < hc ==> Sum(t.comb[c], hc) == 1.0
    ensures ByRowSums(t, hc, h, i, hc, k) == Sum(Column(t.residual, i), k)
  {
    if k > 0 { UnitRowSums(t, hc, h, i, k - 1); }
  }

  /** If the rows of the mixing matrix add up to 1, mixing keeps the sum over the channels and adds the layer
      output as often as the post gates say. */
  lemma MixingConserves(t: Token, hc: nat, h: nat, i: nat)
    requires t.Valid(hc, h) && i < h && forall c :: 0 <= c < hc ==> Sum(t.comb[c], hc) == 1.0
    ensures ChannelTotal(t, hc, h, i, hc) == Sum(t.post, hc) * t.x[i] + Sum(Column(t.residual, i), hc)
  {
    ChannelsAddUp(t, hc, h, i, hc);
    UnitRowSums(t, hc, h, i, hc);
  }

  // ----- mhc_post_tilelang

  method MixOne(t: Token, hc: nat, h: nat, j: nat, i: nat) returns (v: real)
    requires t.Valid(hc, h) && j < hc && i < h
    ensures v == t.Mixed(hc, h)[j][i]
  {
    v := t.post[j] * t.x[i];
    for k := 0 to hc
      invariant v == t.MixUpTo(j, i, k)
    {
      v := v + t.comb[k][j] * t.residual[k][i];
    }
  }

  /** One block of hBlk columns of token iN. */
  method PostBlock(t: Token, hc: nat, h: nat, out: array3<real>, iN: nat, first: nat, hBlk: nat)
    requires t.Valid(hc, h) && first + hBlk <= h
    requires iN < out.Length0 && out.Length1 == hc && out.Length2 == h
    modifies out
    ensures forall n, j, i :: 0 <= n < out.Length0 && 0 <= j < hc && 0 <= i < h ==>
      out[n, j, i] == if n == iN && first <= i < first + hBlk then t.Mixed(hc, h)[j][i] else old(out[n, j, i])
  {
    for iHco := 0 to hc
      invariant forall n, j, i :: 0 <= n < out.Length0 && 0 <= j < hc && 0 <= i < h ==>
        out[n, j, i] == if n == iN && first <= i < first + hBlk && j < iHco then t.Mixed(hc, h)[j][i] else old(out[n, j, i])
    {
      for i1 := 0 to hBlk
        invariant forall n, j, i :: 0 <= n < out.Length0 && 0 <= j < hc && 0 <= i < h ==>
          out[n, j, i] == if n == iN && first <= i < first + hBlk && (j < iHco || (j == iHco && i < first + i1))
                          then t.Mixed(hc, h)[j][i] else old(out[n, j, i])
      {
        var v := MixOne(t, hc, h, iHco, first + i1);
        out[iN, iHco, first + i1] := v;
      }
    }
  }

  /** The kernel writes the whole new residual, whatever block size the gcd picks. */
  method MhcPost(tokens: seq<Token>, hc: nat, h: nat, out: array3<real>, hBlk: nat)
    requires forall n :: 0 <= n < |tokens| ==> tokens[n].Valid(hc, h)
    requires out.Length0 == |tokens| && out.Length1 == hc && out.Length2 == h && hBlk > 0
    modifies out
    ensures forall n, j, i :: 0 <= n < |tokens| && 0 <= j < hc && 0 <= i < h ==>
      out[n, j, i] == tokens[n].Mixed(hc, h)[j][i]
  {
    var blk := Gcd(h, hBlk);
    GcdDivides(h, hBlk);
    FloorMul(h, blk);
    for iN := 0 to |tokens|
      invariant forall n, j, i :: 0 <= n < iN && 0 <= j < hc && 0 <= i < h ==>
        out[n, j, i] == tokens[n].Mixed(hc, h)[j][i]
    {
      var blocks := CeilDiv(h, blk);
      DivUnique(h + blk - 1, blk, h / blk, blk - 1);
      for i0 := 0 to blocks
        invariant i0 * blk <= h
        invariant forall n, j, i :: 0 <= n < iN && 0 <= j < hc && 0 <= i < h ==>
          out[n, j, i] == tokens[n].Mixed(hc, h)[j][i]
        invariant forall j, i :: 0 <= j < hc && 0 <= i < i0 * blk ==> out[iN, j, i] == tokens[iN].Mixed(hc, h)[j][i]
      {
        MulLe(i0 + 1, blocks, blk);
        assert (i0 + 1) * blk == i0 * blk + blk;
        PostBlock(tokens[iN], hc, h, out, iN, i0 * blk, blk);
      }
    }
  }

  // ----- mhc_fused_tilelang

  /** The first n channels' share of the dot product at column i. */
  function ChannelDot(w: Matrix, r: Matrix, i: int, n: nat): real {
    if n == 0 then 0.0
    else ChannelDot(w, r, i, n - 1) +
         if n <= |w| && n <= |r| && 0 <= i < |w[n - 1]| && i < |r[n - 1]| then w[n - 1][i] * r[n - 1][i] else 0.0
  }

  function ChannelProduct(w: Matrix, r: Matrix, hc: nat): int -> real {
    (i: int) => ChannelDot(w, r, i, hc)
  }

  /** Column i is among the first `iters` columns of thread `tid` in the slice from base on. */
  predicate Owned(base: int, threads: nat, tid: int, iters: int, i: int)
    requires threads > 0
  {
    base <= i < base + iters * threads && (i - base) % threads == tid
  }

  lemma OwnedStep(base: int, threads: nat, tid: nat, it: nat, i: int)
    requires tid < threads
    ensures Owned(base, threads, tid, it + 1, i) <==>
            Owned(base, threads, tid, it, i) || i == base + it * threads + tid
  {
    if base + it * threads <= i < base + (it + 1) * threads {
      DivUnique(i - base, threads, it, i - base - it * threads);
    }
    DivUnique(it * threads + tid, threads, it, tid);
  }

  /** One column in one thread: the new residual of all channels, and its share of each output. */
  method ColumnStep(l: Launch, hc: nat, t: Token, weights: seq<Matrix>, iNt: nat, i: nat, acc0: Vector)
    returns (newR: Vector, sq: real, acc: Vector)
    requires l.Valid() && t.Valid(hc, l.k) && i < l.k && |acc0| == l.tileN
    requires |weights| == l.nOut && (forall o :: 0 <= o < l.nOut ==> Shape(weights[o], hc, l.k))
    requires iNt * l.tileN + l.tileN <= l.nOut
    ensures |newR| == hc && forall j :: 0 <= j < hc ==> newR[j] == t.Mixed(hc, l.k)[j][i]
    ensures sq == ChannelDot(t.Mixed(hc, l.k), t.Mixed(hc, l.k), i, hc)
    ensures |acc| == l.tileN
    ensures forall o :: 0 <= o < l.tileN ==>
      acc[o] == acc0[o] + ChannelDot(weights[iNt * l.tileN + o], t.Mixed(hc, l.k), i, hc)
  {
    ghost var r := t.Mixed(hc, l.k);
    newR, sq := [], 0.0;
    for j := 0 to hc
      invariant |newR| == j && forall c :: 0 <= c < j ==> newR[c] == r[c][i]
      invariant sq == ChannelDot(r, r, i, j)
    {
      var v := MixOne(t, hc, l.k, j, i);
      newR := newR + [v];
      sq := sq + v * v;
    }
    acc := acc0;
    for n := 0 to l.tileN
      invariant |acc| == l.tileN
      invariant forall o :: 0 <= o < l.tileN ==>
        acc[o] == acc0[o] + if o < n then ChannelDot(weights[iNt * l.tileN + o], r, i, hc) else 0.0
    {
      var sum := AddOutput(weights[iNt * l.tileN + n], newR, r, i, hc, acc[n]);
      acc := acc[n := sum];
    }
  }

  /** The share of a column in one output. */
  method AddOutput(w: Matrix, newR: Vector, ghost r: Matrix, i: nat, hc: nat, start: real) returns (sum: real)
    requires |w| == |r| == |newR| == hc && forall j :: 0 <= j < hc ==> i < |w[j]| && i < |r[j]| && newR[j] == r[j][i]
    ensures sum == start + ChannelDot(w, r, i, hc)
  {
    sum := start;
    for j := 0 to hc
      invariant sum == start + ChannelDot(w, r, i, j)
    {
      sum := sum + w[j][i] * newR[j];
    }
  }

  method StoreColumn(out: array3<real>, newR: Vector, iN: nat, i: nat)
    requires iN < out.Length0 && out.Length1 == |newR| && i < out.Length2
    modifies out
    ensures forall n, j, c :: 0 <= n < out.Length0 && 0 <= j < out.Length1 && 0 <= c < out.Length2 ==>
      out[n, j, c] == if n == iN && c == i then newR[j] else old(out[n, j, c])
  {
    for j0 := 0 to |newR|
      invariant forall n, j, c :: 0 <= n < out.Length0 && 0 <= j < out.Length1 && 0 <= c < out.Length2 ==>
        out[n, j, c] == if n == iN && c == i && j < j0 then newR[j] else old(out[n, j, c])
    {
      out[iN, j0, i] := newR[j0];
    }
  }

  method FusedThread(l: Launch, hc: nat, t: Token, weights: seq<Matrix>, residualOut: array3<real>, iN: nat, iNt: nat, base: nat, tid: nat)
    returns (acc: Vector, sqr: real)
    requires l.Valid() && t.Valid(hc, l.k) && base + l.Covered() <= l.k && tid < l.threads
    requires |weights| == l.nOut && (forall o :: 0 <= o < l.nOut ==> Shape(weights[o], hc, l.k))
    requires iNt * l.tileN + l.tileN <= l.nOut
    requires iN < residualOut.Length0 && residualOut.Length1 == hc && residualOut.Length2 == l.k
    modifies residualOut
    ensures forall n, j, c :: 0 <= n < residualOut.Length0 && 0 <= j < hc && 0 <= c < l.k ==>
      residualOut[n, j, c] == if iNt == 0 && n == iN && Owned(base, l.threads, tid, l.Iterations(), c)
                              then t.Mixed(hc, l.k)[j][c] else old(residualOut[n, j, c])
    ensures |acc| == l.tileN
    ensures forall o :: 0 <= o < l.tileN ==>
      acc[o] == ThreadSum(ChannelProduct(weights[iNt * l.tileN + o], t.Mixed(hc, l.k), hc), base, l.threads, tid, l.Iterations())
    ensures iNt == 0 ==>
      sqr == ThreadSum(ChannelProduct(t.Mixed(hc, l.k), t.Mixed(hc, l.k), hc), base, l.threads, tid, l.Iterations())
  {
    ghost var r := t.Mixed(hc, l.k);
    acc := seq(l.tileN, _ => 0.0);
    sqr := 0.0;
    for it := 0 to l.Iterations()
      invariant forall n, j, c :: 0 <= n < residualOut.Length0 && 0 <= j < hc && 0 <= c < l.k ==>
        residualOut[n, j, c] == if iNt == 0 && n == iN && Owned(base, l.threads, tid, it, c) then r[j][c] else old(residualOut[n, j, c])
      invariant |acc| == l.tileN
      invariant forall o :: 0 <= o < l.tileN ==>
        acc[o] == ThreadSum(ChannelProduct(weights[iNt * l.tileN + o], r, hc), base, l.threads, tid, it)
      invariant iNt == 0 ==> sqr == ThreadSum(ChannelProduct(r, r, hc), base, l.threads, tid, it)
    {
      ThreadIndex(l, it, tid);
      var i := base + it * l.threads + tid;
      var newR, sq, acc' := ColumnStep(l, hc, t, weights, iNt, i, acc);
      if iNt == 0 {
        StoreColumn(residualOut, newR, iN, i);
        sqr := sqr + sq;
      }
      acc := acc';
      forall c { OwnedStep(base, l.threads, tid, it, c); }
    }
  }

  /** Column c lies in what split s reads. */
  predicate InSplit(l: Launch, s: int, c: int)
    requires l.Valid()
  {
    s * l.Stride() <= c < s * l.Stride() + l.Covered()
  }

  method FusedBlock(l: Launch, hc: nat, t: Token, weights: seq<Matrix>, residualOut: array3<real>, iN: nat, iNt: nat, iS: nat)
    returns (tile: Vector, sq: real)
    requires l.Valid() && t.Valid(hc, l.k) && iS < l.splits
    requires |weights| == l.nOut && (forall o :: 0 <= o < l.nOut ==> Shape(weights[o], hc, l.k))
    requires iNt * l.tileN + l.tileN <= l.nOut
    requires iN < residualOut.Length0 && residualOut.Length1 == hc && residualOut.Length2 == l.k
    modifies residualOut
    ensures forall n, j, c :: 0 <= n < residualOut.Length0 && 0 <= j < hc && 0 <= c < l.k ==>
      residualOut[n, j, c] == if iNt == 0 && n == iN && InSplit(l, iS, c) then t.Mixed(hc, l.k)[j][c] else old(residualOut[n, j, c])
    ensures |tile| == l.tileN
    ensures forall o :: 0 <= o < l.tileN ==>
      tile[o] == PartialMix(l, weights[iNt * l.tileN + o], t.Mixed(hc, l.k), hc, iS)
    ensures iNt == 0 ==> sq == PartialMix(l, t.Mixed(hc, l.k), t.Mixed(hc, l.k), hc, iS)
  {
    ghost var r := t.Mixed(hc, l.k);
    l.CoveredFits(iS);
    var base := iS * l.Stride();
    var accs, sqrs := FusedThreads(l, hc, t, weights, residualOut, iN, iNt, base);
    tile, sq := FusedReduce(l, hc, r, weights, iNt, iS, accs, sqrs);
  }

  method FusedReduce(l: Launch, hc: nat, ghost r: Matrix, weights: seq<Matrix>, iNt: nat, iS: nat, accs: Matrix, sqrs: Vector)
    returns (tile: Vector, sq: real)
    requires l.Valid() && iNt * l.tileN + l.tileN <= l.nOut == |weights|
    requires Shape(accs, l.threads, l.tileN) && |sqrs| == l.threads
    requires forall u, o :: 0 <= u < l.threads && 0 <= o < l.tileN ==>
      accs[u][o] == ThreadSum(ChannelProduct(weights[iNt * l.tileN + o], r, hc), iS * l.Stride(), l.threads, u, l.Iterations())
    requires iNt == 0 ==> forall u :: 0 <= u < l.threads ==>
      sqrs[u] == ThreadSum(ChannelProduct(r, r, hc), iS * l.Stride(), l.threads, u, l.Iterations())
    ensures |tile| == l.tileN
    ensures forall o :: 0 <= o < l.tileN ==> tile[o] == PartialMix(l, weights[iNt * l.tileN + o], r, hc, iS)
    ensures iNt == 0 ==> sq == PartialMix(l, r, r, hc, iS)
  {
    ghost var base := iS * l.Stride();
    tile := [];
    for o := 0 to l.tileN
      invariant |tile| == o
      invariant forall u :: 0 <= u < o ==> tile[u] == PartialMix(l, weights[iNt * l.tileN + u], r, hc, iS)
    {
      var held := seq(l.threads, u requires 0 <= u < l.threads && |accs| == l.threads && |accs[u]| == l.tileN => accs[u][o]);
      var v := BlockReduce(held, ChannelProduct(weights[iNt * l.tileN + o], r, hc), base, l.threads, l.Iterations());
      tile := tile + [v];
    }
    sq := 0.0;
    if iNt == 0 {
      sq := BlockReduce(sqrs, ChannelProduct(r, r, hc), base, l.threads, l.Iterations());
    }
  }

  /** What split s adds up for weights w: its columns, all channels. */
  function PartialMix(l: Launch, w: Matrix, r: Matrix, hc: nat, s: int): real
    requires l.Valid()
  {
    SumRange(ChannelProduct(w, r, hc), s * l.Stride(), s * l.Stride() + l.Covered())
  }

  method FusedThreads(l: Launch, hc: nat, t: Token, weights: seq<Matrix>, residualOut: array3<real>, iN: nat, iNt: nat, base: nat)
    returns (accs: Matrix, sqrs: Vector)
    requires l.Valid() && t.Valid(hc, l.k) && base + l.Covered() <= l.k
    requires |weights| == l.nOut && (forall o :: 0 <= o < l.nOut ==> Shape(weights[o], hc, l.k))
    requires iNt * l.tileN + l.tileN <= l.nOut
    requires iN < residualOut.Length0 && residualOut.Length1 == hc && residualOut.Length2 == l.k
    modifies residualOut
    ensures forall n, j, c :: 0 <= n < residualOut.Length0 && 0 <= j < hc && 0 <= c < l.k ==>
      residualOut[n, j, c] == if iNt == 0 && n == iN && base <= c < base + l.Covered()
                              then t.Mixed(hc, l.k)[j][c] else old(residualOut[n, j, c])
    ensures Shape(accs, l.threads, l.tileN) && |sqrs| == l.threads
    ensures forall u, o :: 0 <= u < l.threads && 0 <= o < l.tileN ==>
      accs[u][o] == ThreadSum(ChannelProduct(weights[iNt * l.tileN + o], t.Mixed(hc, l.k), hc), base, l.threads, u, l.Iterations())
    ensures iNt == 0 ==> forall u :: 0 <= u < l.threads ==>
      sqrs[u] == ThreadSum(ChannelProduct(t.Mixed(hc, l.k), t.Mixed(hc, l.k), hc), base, l.threads, u, l.Iterations())
  {
    ghost var r := t.Mixed(hc, l.k);
    accs, sqrs := [], [];
    for tid := 0 to l.threads
      invariant forall n, j, c :: 0 <= n < residualOut.Length0 && 0 <= j < hc && 0 <= c < l.k ==>
        residualOut[n, j, c] == if iNt == 0 && n == iN && base <= c < base + l.Covered() && (c - base) % l.threads < tid
                                then r[j][c] else old(residualOut[n, j, c])
      invariant Shape(accs, tid, l.tileN) && |sqrs| == tid
      invariant forall u, o :: 0 <= u < tid && 0 <= o < l.tileN ==>
        accs[u][o] == ThreadSum(ChannelProduct(weights[iNt * l.tileN + o], r, hc), base, l.threads, u, l.Iterations())
      invariant iNt == 0 ==> forall u :: 0 <= u < tid ==>
        sqrs[u] == ThreadSum(ChannelProduct(r, r, hc), base, l.threads, u, l.Iterations())
    {
      var acc, sqr := FusedThread(l, hc, t, weights, residualOut, iN, iNt, base, tid);
      accs, sqrs := accs + [acc], sqrs + [sqr];
    }
  }

  /** Output tiles of the fused kernel: a last tile narrower than tileN is not launched. */
  function FusedTiles(l: Launch): nat
    requires l.Valid()
  {
    l.nOut / l.tileN
  }

  predicate FusedWrites(l: Launch, o: int)
    requires l.Valid()
  {
    0 <= o < FusedTiles(l) * l.tileN && o % l.tileN < WARP
  }

  predicate Covers(l: Launch, splits: nat, c: int)
    requires l.Valid()
  {
    exists s :: 0 <= s < splits && InSplit(l, s, c)
  }

  method FusedTile(l: Launch, hc: nat, t: Token, weights: seq<Matrix>,
                   yp: array3<real>, rp: array2<real>, residualOut: array3<real>, iN: nat, iNt: nat)
    requires l.Valid() && t.Valid(hc, l.k) && yp != residualOut
    requires |weights| == l.nOut && (forall o :: 0 <= o < l.nOut ==> Shape(weights[o], hc, l.k))
    requires iNt * l.tileN + l.tileN <= l.nOut
    requires yp.Length0 == l.splits && iN < yp.Length1 && yp.Length2 == l.nOut
    requires rp.Length0 == l.splits && iN < rp.Length1
    requires iN < residualOut.Length0 && residualOut.Length1 == hc && residualOut.Length2 == l.k
    modifies yp, rp, residualOut
    ensures forall s, n, o :: 0 <= s < l.splits && 0 <= n < yp.Length1 && 0 <= o < l.nOut ==>
      yp[s, n, o] == if n == iN && InTile(iNt * l.tileN, l.tileN, WARP, o)
                     then PartialMix(l, weights[o], t.Mixed(hc, l.k), hc, s) else old(yp[s, n, o])
    ensures forall s, n :: 0 <= s < l.splits && 0 <= n < rp.Length1 ==>
      rp[s, n] == if n == iN && iNt == 0 then PartialMix(l, t.Mixed(hc, l.k), t.Mixed(hc, l.k), hc, s) else old(rp[s, n])
    ensures forall n, j, c :: 0 <= n < residualOut.Length0 && 0 <= j < hc && 0 <= c < l.k ==>
      residualOut[n, j, c] == if iNt == 0 && n == iN && Covers(l, l.splits, c) then t.Mixed(hc, l.k)[j][c] else old(residualOut[n, j, c])
  {
    ghost var r := t.Mixed(hc, l.k);
    var first := iNt * l.tileN;
    for iS := 0 to l.splits
      invariant forall s, n, o :: 0 <= s < l.splits && 0 <= n < yp.Length1 && 0 <= o < l.nOut ==>
        yp[s, n, o] == if n == iN && s < iS && InTile(first, l.tileN, WARP, o) then PartialMix(l, weights[o], r, hc, s) else old(yp[s, n, o])
      invariant forall s, n :: 0 <= s < l.splits && 0 <= n < rp.Length1 ==>
        rp[s, n] == if n == iN && iNt == 0 && s < iS then PartialMix(l, r, r, hc, s) else old(rp[s, n])
      invariant forall n, j, c :: 0 <= n < residualOut.Length0 && 0 <= j < hc && 0 <= c < l.k ==>
        residualOut[n, j, c] == if iNt == 0 && n == iN && Covers(l, iS, c) then r[j][c] else old(residualOut[n, j, c])
    {
      var tile, sq := FusedBlock(l, hc, t, weights, residualOut, iN, iNt, iS);
      ghost var _ := WriteTile(yp, tile, first, iN, iS);
      if iNt == 0 {
        rp[iS, iN] := sq;
      }
      forall c { CoversStep(l, iS, c); }
    }
  }

  lemma CoversStep(l: Launch, iS: nat, c: int)
    requires l.Valid()
    ensures Covers(l, iS + 1, c) <==> Covers(l, iS, c) || InSplit(l, iS, c)
  {
    if Covers(l, iS, c) {
      var s :| 0 <= s < iS && InSplit(l, s, c);
      assert 0 <= s < iS + 1 && InSplit(l, s, c);
    }
  }

  /** The fused kernel, with no divisibility assumed. */
  method MhcFused(l: Launch, hc: nat, tokens: seq<Token>, weights: seq<Matrix>,
                  yp: array3<real>, rp: array2<real>, residualOut: array3<real>)
    requires l.Valid() && (forall n :: 0 <= n < |tokens| ==> tokens[n].Valid(hc, l.k)) && yp != residualOut
    requires |weights| == l.nOut && (forall o :: 0 <= o < l.nOut ==> Shape(weights[o], hc, l.k))
    requires yp.Length0 == l.splits && yp.Length1 == |tokens| && yp.Length2 == l.nOut
    requires rp.Length0 == l.splits && rp.Length1 == |tokens|
    requires residualOut.Length0 == |tokens| && residualOut.Length1 == hc && residualOut.Length2 == l.k
    modifies yp, rp, residualOut
    ensures forall s, n, o :: 0 <= s < l.splits && 0 <= n < |tokens| && 0 <= o < l.nOut ==>
      yp[s, n, o] == if FusedWrites(l, o) then PartialMix(l, weights[o], tokens[n].Mixed(hc, l.k), hc, s) else old(yp[s, n, o])
    ensures FusedTiles(l) > 0 ==> forall s, n :: 0 <= s < l.splits && 0 <= n < |tokens| ==>
      rp[s, n] == PartialMix(l, tokens[n].Mixed(hc, l.k), tokens[n].Mixed(hc, l.k), hc, s)
    ensures forall n, j, c :: 0 <= n < |tokens| && 0 <= j < hc && 0 <= c < l.k ==>
      residualOut[n, j, c] == if FusedTiles(l) > 0 && Covers(l, l.splits, c) then tokens[n].Mixed(hc, l.k)[j][c]
                              else old(residualOut[n, j, c])
  {
    for iN := 0 to |tokens|
      invariant forall s, n, o :: 0 <= s < l.splits && 0 <= n < |tokens| && 0 <= o < l.nOut ==>
        yp[s, n, o] == if n < iN && FusedWrites(l, o) then PartialMix(l, weights[o], tokens[n].Mixed(hc, l.k), hc, s) else old(yp[s, n, o])
      invariant FusedTiles(l) > 0 ==> forall s, n :: 0 <= s < l.splits && 0 <= n < iN ==>
        rp[s, n] == PartialMix(l, tokens[n].Mixed(hc, l.k), tokens[n].Mixed(hc, l.k), hc, s)
      invariant forall n, j, c :: 0 <= n < |tokens| && 0 <= j < hc && 0 <= c < l.k ==>
        residualOut[n, j, c] == if n < iN && FusedTiles(l) > 0 && Covers(l, l.splits, c) then tokens[n].Mixed(hc, l.k)[j][c]
                                else old(residualOut[n, j, c])
    {
      FusedToken(l, hc, tokens[iN], weights, yp, rp, residualOut, iN);
    }
  }

  method FusedToken(l: Launch, hc: nat, t: Token, weights: seq<Matrix>,
                    yp: array3<real>, rp: array2<real>, residualOut: array3<real>, iN: nat)
    requires l.Valid() && t.Valid(hc, l.k) && yp != residualOut
    requires |weights| == l.nOut && (forall o :: 0 <= o < l.nOut ==> Shape(weights[o], hc, l.k))
    requires yp.Length0 == l.splits && iN < yp.Length1 && yp.Length2 == l.nOut
    requires rp.Length0 == l.splits && iN < rp.Length1
    requires iN < residualOut.Length0 && residualOut.Length1 == hc && residualOut.Length2 == l.k
    modifies yp, rp, residualOut
    ensures forall s, n, o :: 0 <= s < l.splits && 0 <= n < yp.Length1 && 0 <= o < l.nOut ==>
      yp[s, n, o] == if n == iN && FusedWrites(l, o) then PartialMix(l, weights[o], t.Mixed(hc, l.k), hc, s) else old(yp[s, n, o])
    ensures forall s, n :: 0 <= s < l.splits && 0 <= n < rp.Length1 ==>
      rp[s, n] == if n == iN && FusedTiles(l) > 0 then PartialMix(l, t.Mixed(hc, l.k), t.Mixed(hc, l.k), hc, s) else old(rp[s, n])
    ensures forall n, j, c :: 0 <= n < residualOut.Length0 && 0 <= j < hc && 0 <= c < l.k ==>
      residualOut[n, j, c] == if n == iN && FusedTiles(l) > 0 && Covers(l, l.splits, c) then t.Mixed(hc, l.k)[j][c]
                              else old(residualOut[n, j, c])
  {
    ghost var r := t.Mixed(hc, l.k);
    var nTiles := l.nOut / l.tileN;
    FloorMul(l.nOut, l.tileN);
    for iNt := 0 to nTiles
      invariant forall s, n, o :: 0 <= s < l.splits && 0 <= n < yp.Length1 && 0 <= o < l.nOut ==>
        yp[s, n, o] == if n == iN && o < iNt * l.tileN && o % l.tileN < WARP then PartialMix(l, weights[o], r, hc, s) else old(yp[s, n, o])
      invariant forall s, n :: 0 <= s < l.splits && 0 <= n < rp.Length1 ==>
        rp[s, n] == if n == iN && iNt > 0 then PartialMix(l, r, r, hc, s) else old(rp[s, n])
      invariant forall n, j, c :: 0 <= n < residualOut.Length0 && 0 <= j < hc && 0 <= c < l.k ==>
        residualOut[n, j, c] == if n == iN && iNt > 0 && Covers(l, l.splits, c) then r[j][c] else old(residualOut[n, j, c])
    {
      MulLe(iNt + 1, nTiles, l.tileN);
      assert (iNt + 1) * l.tileN == iNt * l.tileN + l.tileN;
      FusedTile(l, hc, t, weights, yp, rp, residualOut, iN, iNt);
      forall o { TileOfOutput(l.tileN, iNt, o); }
    }
  }

  // ----- What the fusion preserves

  /** The partial results of the fused kernel added up over its splits. */
  function FusedSum(l: Launch, w: Matrix, r: Matrix, hc: nat, n: nat): real
    requires l.Valid()
  {
    if n == 0 then 0.0 else FusedSum(l, w, r, hc, n - 1) + PartialMix(l, w, r, hc, n - 1)
  }

  lemma {:induction false} FusedSumIsSplitsSum(l: Launch, w: Matrix, r: Matrix, hc: nat, n: nat)
    requires l.Valid()
    ensures FusedSum(l, w, r, hc, n) == SplitsSum(ChannelProduct(w, r, hc), l.Stride(), l.Covered(), n)
  {
    if n > 0 { FusedSumIsSplitsSum(l, w, r, hc, n - 1); }
  }

  /** A tensor (hc, h) seen as one row of hc * h elements, as the GEMM reads it. */
  function Flat(m: Matrix, hc: nat, h: nat): (r: Vector)
    requires |m| == hc && forall i :: 0 <= i < hc ==> |m[i]| == h
    ensures |r| == hc * h
  {
    if hc == 0 then [] else FlatStep(m, hc, h); Flat(m[..hc - 1], hc - 1, h) + m[hc - 1]
  }

  lemma FlatStep(m: Matrix, hc: nat, h: nat)
    requires hc > 0
    ensures (hc - 1) * h + h == hc * h
  {
  }

  lemma {:induction false} FlatAt(m: Matrix, hc: nat, h: nat, j: nat, i: nat)
    requires Shape(m, hc, h) && j < hc && i < h
    ensures j * h + i < |Flat(m, hc, h)| && Flat(m, hc, h)[j * h + i] == m[j][i]
  {
    MulLe(j + 1, hc, h);
    FlatStep(m, hc, h);
    if j < hc - 1 {
      FlatAt(m[..hc - 1], hc - 1, h, j, i);
    }
  }

  /** The dot product of two flattened tensors, column by column. */
  lemma FlatDot(w: Matrix, r: Matrix, hc: nat, h: nat)
    requires Shape(w, hc, h) && Shape(r, hc, h)
    ensures Dot(Flat(r, hc, h), Flat(w, hc, h)) == SumRange(ChannelProduct(w, r, hc), 0, h)
  {
    FlatRows(w, r, hc, h);
    SumExchange(GridProduct(w, r), hc, h);
    ColumnsAreChannels(GridProduct(w, r), w, r, hc, h, h);
  }

  lemma FlatRows(w: Matrix, r: Matrix, hc: nat, h: nat)
    requires Shape(w, hc, h) && Shape(r, hc, h)
    ensures Dot(Flat(r, hc, h), Flat(w, hc, h)) == RowsSum(GridProduct(w, r), hc, h)
  {
    FlatProducts(w, r, hc, h);
    SumFlat(Product(Flat(r, hc, h), Flat(w, hc, h)), GridProduct(w, r), hc, h);
  }

  lemma FlatProducts(w: Matrix, r: Matrix, hc: nat, h: nat)
    requires Shape(w, hc, h) && Shape(r, hc, h)
    ensures forall j, i :: 0 <= j < hc && 0 <= i < h ==>
      Product(Flat(r, hc, h), Flat(w, hc, h))(j * h + i) == GridProduct(w, r)(j, i)
  {
    forall j, i | 0 <= j < hc && 0 <= i < h
      ensures Product(Flat(r, hc, h), Flat(w, hc, h))(j * h + i) == GridProduct(w, r)(j, i)
    {
      FlatProductAt(w, r, hc, h, j, i);
    }
  }

  function GridProduct(w: Matrix, r: Matrix): (int, int) -> real {
    (j: int, i: int) =>
      if 0 <= j < |w| && j < |r| && 0 <= i < |w[j]| && i < |r[j]| then w[j][i] * r[j][i] else 0.0
  }

  lemma FlatProductAt(w: Matrix, r: Matrix, hc: nat, h: nat, j: nat, i: nat)
    requires Shape(w, hc, h) && Shape(r, hc, h) && j < hc && i < h
    ensures Product(Flat(r, hc, h), Flat(w, hc, h))(j * h + i) == GridProduct(w, r)(j, i)
  {
    FlatAt(w, hc, h, j, i);
    FlatAt(r, hc, h, j, i);
  }

  lemma {:induction false} ColumnsAreChannels(f: (int, int) -> real, w: Matrix, r: Matrix, hc: nat, h: nat, n: nat)
    requires Shape(w, hc, h) && Shape(r, hc, h) && n <= h
    requires forall j, i :: 0 <= j < hc && 0 <= i < h ==> f(j, i) == w[j][i] * r[j][i]
    ensures ColumnsSum(f, hc, n) == SumRange(ChannelProduct(w, r, hc), 0, n)
  {
    if n > 0 {
      ColumnsAreChannels(f, w, r, hc, h, n - 1);
      ColumnIsChannel(f, w, r, hc, h, hc, n - 1);
    }
  }

  lemma {:induction false} ColumnIsChannel(f: (int, int) -> real, w: Matrix, r: Matrix, hc: nat, h: nat, m: nat, i: nat)
    requires Shape(w, hc, h) && Shape(r, hc, h) && m <= hc && i < h
    requires forall j, i :: 0 <= j < hc && 0 <= i < h ==> f(j, i) == w[j][i] * r[j][i]
    ensures ColumnSum(f, m, i) == ChannelDot(w, r, i, m)
  {
    if m > 0 { ColumnIsChannel(f, w, r, hc, h, m - 1, i); }
  }

  /** The fused kernel's partial results add up to what the separate GEMM's partial results add up to
      on the flattened new residual, for every launch of either kernel that divides evenly. */
  lemma FusionPreservesGemm(fused: Launch, gemm: Launch, w: Matrix, r: Matrix, hc: nat)
    requires fused.Valid() && gemm.Valid() && Exact(fused) && Exact(gemm)
    requires gemm.k == hc * fused.k && Shape(w, hc, fused.k) && Shape(r, hc, fused.k)
    ensures FusedSum(fused, w, r, hc, fused.splits) ==
            SummedOverSplits(gemm, Flat(r, hc, fused.k), Flat(w, hc, fused.k), gemm.splits)
    ensures FusedSum(fused, w, r, hc, fused.splits) == Dot(Flat(r, hc, fused.k), Flat(w, hc, fused.k))
  {
    ExactCovers(fused);
    FusedSumIsSplitsSum(fused, w, r, hc, fused.splits);
    SplitsCoverAll(ChannelProduct(w, r, hc), fused.Stride(), fused.splits);
    FlatDot(w, r, hc, fused.k);
    SplitsGiveDot(gemm, Flat(r, hc, fused.k), Flat(w, hc, fused.k));
  }

  /** The fused kernel writes the whole new residual, as mhc_post does, exactly when splits times
      threads divides the hidden size and some output tile is launched. */
  lemma FusedResidualComplete(l: Launch)
    requires l.Valid()
    ensures FusedTiles(l) > 0 <==> l.tileN <= l.nOut
    ensures (forall c :: 0 <= c < l.k ==> Covers(l, l.splits, c)) <==> Exact(l)
  {
    FloorMul(l.nOut, l.tileN);
    if FusedTiles(l) > 0 {
      MulLe(1, FusedTiles(l), l.tileN);
    }
    if Exact(l) {
      forall c | 0 <= c < l.k
        ensures Covers(l, l.splits, c)
      {
        ExactCoversColumn(l, c);
      }
    } else {
      var m := MissedElement(l);
      assert !Covers(l, l.splits, m);
    }
  }

  lemma ExactCoversColumn(l: Launch, c: nat)
    requires l.Valid() && Exact(l) && c < l.k
    ensures Covers(l, l.splits, c)
  {
    ExactCovers(l);
    FloorMul(c, l.Stride());
    var s := c / l.Stride();
    if s >= l.splits {
      MulLe(l.splits, s, l.Stride());
    }
    assert InSplit(l, s, c);
  }

  /** Every output is written exactly when the tile width divides the number of outputs and no tile
      is wider than a warp. */
  lemma FusedOutputsComplete(l: Launch)
    requires l.Valid() && l.nOut > 0
    ensures (forall o :: 0 <= o < l.nOut ==> FusedWrites(l, o)) <==> l.nOut % l.tileN == 0 && l.tileN <= WARP
  {
    FloorMul(l.nOut, l.tileN);
    if l.nOut % l.tileN != 0 {
      assert !FusedWrites(l, FusedTiles(l) * l.tileN);
    } else if l.tileN > WARP {
      MulLe(1, FusedTiles(l), l.tileN);
      DivUnique(WARP, l.tileN, 0, WARP);
      assert !FusedWrites(l, WARP);
    }
  }
}
