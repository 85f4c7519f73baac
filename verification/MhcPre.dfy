/** The kernels around the pre-norm GEMM (vllm/_tilelang_ops.py): mhc_pre_big_fuse_tilelang,
    mhc_pre_big_fuse_with_norm_tilelang and hc_head_fuse_tilelang, over exact reals with `exp`,
    `sigmoid` and `rsqrt` left open. */
module MhcPre {
  import opened Sums
  import opened Arith
  import opened PrenormGemm
  import opened MhcFused
  import opened MhcTorch
  import Sinkhorn

  // ----- The mathematics

  /** rsqrt of the mean square. */
  function Rms(f: Functions, squares: real, n: nat, eps: real): real
    requires n > 0
  {
    f.rsqrt(squares / n as real + eps)
  }

  /** The gate of channel j: sigmoid of the scaled, normalised mix, plus eps. */
  function Gate(f: Functions, mix: real, scale: real, base: real, eps: real): real {
    f.sigmoid(mix * scale + base) + eps
  }

  /** Normalised mixes. */
  function Normalised(sums: Vector, rms: real): (r: Vector)
    ensures |r| == |sums|
  {
    seq(|sums|, j requires 0 <= j < |sums| => sums[j] * rms)
  }

  function Gates(f: Functions, mixes: Vector, scale: real, base: Vector, eps: real, hc: nat): (r: Vector)
    requires hc <= |mixes| && hc <= |base|
    ensures |r| == hc
  {
    seq(hc, j requires 0 <= j < hc => Gate(f, mixes[j], scale, base[j], eps))
  }

  /** The first n channels of column i, weighted. */
  function Weighted(pre: Vector, residual: Matrix, i: nat, n: nat): real
    requires n <= |pre| && n <= |residual| && forall c :: 0 <= c < n ==> i < |residual[c]|
  {
    if n == 0 then 0.0 else Weighted(pre, residual, i, n - 1) + pre[n - 1] * residual[n - 1][i]
  }

  function WeightedSum(pre: Vector, residual: Matrix, hc: nat, h: nat): (r: Vector)
    requires hc <= |pre| && |residual| == hc && forall c :: 0 <= c < hc ==> |residual[c]| == h
    ensures |r| == h
  {
    seq(h, i requires 0 <= i < h => Weighted(pre, residual, i, hc))
  }

  /** layer_input as a function of the summed GEMM results of one token. */
  function LayerInput(f: Functions, mixes: Vector, squares: real, residual: Matrix, scale: real, base: Vector,
                      rmsEps: real, preEps: real, hc: nat, h: nat): (r: Vector)
    requires hc > 0 && h > 0 && hc <= |mixes| && hc <= |base|
    requires |residual| == hc && forall c :: 0 <= c < hc ==> |residual[c]| == h
    ensures |r| == h
  {
    HiddenPositive(hc, h);
    WeightedSum(Gates(f, Normalised(mixes, Rms(f, squares, hc * h, rmsEps)), scale, base, preEps, hc), residual, hc, h)
  }

  lemma HiddenPositive(hc: nat, h: nat)
    requires hc > 0 && h > 0
    ensures hc * h > 0
  {
  }

  /** RMSNorm of a vector with weights w. */
  function RmsNorm(f: Functions, v: Vector, w: Vector, eps: real): (r: Vector)
    requires |v| == |w| && |v| > 0
    ensures |r| == |v|
  {
    seq(|v|, i requires 0 <= i < |v| => v[i] * Rms(f, Dot(v, v), |v|, eps) * w[i])
  }

  /** x * rsqrt(mean(x^2) + eps) * w. */
  lemma RmsNormAt(f: Functions, v: Vector, w: Vector, eps: real, i: nat)
    requires |v| == |w| && i < |v|
    ensures RmsNorm(f, v, w, eps)[i] == v[i] * f.rsqrt(Dot(v, v) / |v| as real + eps) * w[i]
  {
    assert Rms(f, Dot(v, v), |v|, eps) == f.rsqrt(Dot(v, v) / |v| as real + eps);
  }

  // ----- Shared pieces of the kernels

  function Total(v: Vector, n: nat): real
    requires n <= |v|
  {
    if n == 0 then 0.0 else Total(v, n - 1) + v[n - 1]
  }

  method SumSplits(v: Vector) returns (r: real)
    ensures r == Total(v, |v|)
  {
    r := 0.0;
    for s := 0 to |v|
      invariant r == Total(v, s)
    {
      r := r + v[s];
    }
  }

  /** Column j of the split results of one token. */
  function SplitColumn(mul: Matrix, j: nat): (r: Vector)
    requires forall s :: 0 <= s < |mul| ==> j < |mul[s]|
    ensures |r| == |mul|
  {
    seq(|mul|, s requires 0 <= s < |mul| && j < |mul[s]| => mul[s][j])
  }

  function SplitTotals(mul: Matrix, width: nat): (r: Vector)
    requires forall s :: 0 <= s < |mul| ==> width <= |mul[s]|
    ensures |r| == width
  {
    seq(width, j requires 0 <= j < width && (forall s :: 0 <= s < |mul| ==> width <= |mul[s]|) => Total(SplitColumn(mul, j), |mul|))
  }

  method SumMixes(mul: Matrix, width: nat) returns (mixes: Vector)
    requires forall s :: 0 <= s < |mul| ==> width <= |mul[s]|
    ensures mixes == SplitTotals(mul, width)
  {
    mixes := [];
    for j := 0 to width
      invariant |mixes| == j
      invariant forall u :: 0 <= u < j ==> mixes[u] == SplitTotals(mul, width)[u]
    {
      var m := SumSplits(SplitColumn(mul, j));
      mixes := mixes + [m];
    }
  }

  /** One block of columns of the weighted sum of the residual channels. */
  method WeightedBlock(pre: Vector, residual: Matrix, hc: nat, h: nat, first: nat, blk: nat) returns (ol: Vector)
    requires |pre| == hc && Shape(residual, hc, h) && first + blk <= h
    ensures |ol| == blk && forall i :: 0 <= i < blk ==> ol[i] == WeightedSum(pre, residual, hc, h)[first + i]
  {
    ol := seq(blk, _ => 0.0);
    for c := 0 to hc
      invariant |ol| == blk && forall i :: 0 <= i < blk ==> ol[i] == Weighted(pre, residual, first + i, c)
    {
      for i1 := 0 to blk
        invariant |ol| == blk
        invariant forall i :: 0 <= i < blk ==> ol[i] == Weighted(pre, residual, first + i, if i < i1 then c + 1 else c)
      {
        ol := ol[i1 := ol[i1] + pre[c] * residual[c][first + i1]];
      }
    }
  }

  /** The block count times the block size is the hidden size, whatever size the gcd picks. */
  lemma BlocksCover(h: nat, size: nat)
    requires h > 0
    ensures var blk := Gcd(size, h); blk > 0 && (h / blk) * blk == h
  {
    GcdDivides(size, h);
    FloorMul(h, Gcd(size, h));
  }

  method ApplyMix(pre: Vector, residual: Matrix, hc: nat, h: nat, size: nat, out: array2<real>, iN: nat)
    requires |pre| == hc && Shape(residual, hc, h) && h > 0
    requires iN < out.Length0 && out.Length1 == h
    modifies out
    ensures forall n, i :: 0 <= n < out.Length0 && 0 <= i < h ==>
      out[n, i] == if n == iN then WeightedSum(pre, residual, hc, h)[i] else old(out[n, i])
  {
    var blk := Gcd(size, h);
    BlocksCover(h, size);
    var blocks := h / blk;
    for i0 := 0 to blocks
      invariant i0 * blk <= h
      invariant forall n, i :: 0 <= n < out.Length0 && 0 <= i < h ==>
        out[n, i] == if n == iN && i < i0 * blk then WeightedSum(pre, residual, hc, h)[i] else old(out[n, i])
    {
      MulLe(i0 + 1, blocks, blk);
      var first := i0 * blk;
      assert (i0 + 1) * blk == first + blk;
      var ol := WeightedBlock(pre, residual, hc, h, first, blk);
      StoreBlock(out, ol, iN, first);
    }
  }

  method StoreBlock(out: array2<real>, ol: Vector, iN: nat, first: nat)
    requires iN < out.Length0 && first + |ol| <= out.Length1
    modifies out
    ensures forall n, i :: 0 <= n < out.Length0 && 0 <= i < out.Length1 ==>
      out[n, i] == if n == iN && first <= i < first + |ol| then ol[i - first] else old(out[n, i])
  {
    for i1 := 0 to |ol|
      invariant forall n, i :: 0 <= n < out.Length0 && 0 <= i < out.Length1 ==>
        out[n, i] == if n == iN && first <= i < first + i1 then ol[i - first] else old(out[n, i])
    {
      out[iN, first + i1] := ol[i1];
    }
  }

  // ----- mhc_pre_big_fuse_tilelang, one token's block

  ghost predicate TokenShapes(mul: Matrix, squares: Vector, residual: Matrix, opts: Settings, hc: nat, h: nat) {
    && hc > 0 && h > 0 && |mul| == |squares|
    && (forall s :: 0 <= s < |mul| ==> hc * (2 + hc) <= |mul[s]|)
    && |opts.scale| == 3 && |opts.base| == hc * (2 + hc)
    && Shape(residual, hc, h)
  }

  lemma MixWidth(hc: nat)
    ensures hc + hc + hc * hc == hc * (2 + hc)
    ensures 2 * hc <= hc * (2 + hc)
  {
  }

  method PreMixes(f: Functions, mul: Matrix, squares: Vector, ghost residual: Matrix, opts: Settings, hc: nat, h: nat)
    returns (mixes: Vector)
    requires TokenShapes(mul, squares, residual, opts, hc, h)
    ensures hc * h > 0
    ensures mixes == Normalised(SplitTotals(mul, hc * (2 + hc)), Rms(f, Total(squares, |squares|), hc * h, opts.rmsEps))
  {
    HiddenPositive(hc, h);
    var sq := SumSplits(squares);
    var rms := f.rsqrt(sq / (hc * h) as real + opts.rmsEps);
    var sums := SumMixes(mul, hc * (2 + hc));
    mixes := Normalised(sums, rms);
  }

  /** The mixing matrix stays within its bounds. */
  ghost predicate CombBounds(comb: Matrix, hc: nat) {
    && Sinkhorn.Square(comb, hc) && Sinkhorn.InUnit(comb)
    && forall k :: 0 <= k < hc ==> Sinkhorn.ColumnTotal(comb, k, hc) < 1.0
  }

  /** Where the kernel finds logit (j, k). */
  function CombIndex(hc: nat, j: nat, k: nat): (r: nat)
    requires j < hc && k < hc
    ensures r < hc * (2 + hc)
  {
    MulLe(j + 1, hc, hc);
    j * hc + k + hc * 2
  }

  /** The post gate of a channel. */
  function PostGate(f: Functions, mix: real, scale: real, base: real, mult: real): real {
    f.sigmoid(mix * scale + base) * mult
  }

  function PostGates(f: Functions, mixes: Vector, opts: Settings, hc: nat): (r: Vector)
    requires |mixes| == |opts.base| >= 2 * hc && |opts.scale| == 3
    ensures |r| == hc
  {
    seq(hc, j requires 0 <= j < hc => PostGate(f, mixes[j + hc], opts.scale[1], opts.base[j + hc], opts.postMult))
  }

  lemma PostGatesAreMiddle(f: Functions, mixes: Vector, opts: Settings, hc: nat)
    requires |mixes| == |opts.base| >= 2 * hc && |opts.scale| == 3
    ensures PostGates(f, mixes, opts, hc) == Gated(f, Scaled(mixes[hc..2 * hc], opts.scale[1], opts.base[hc..2 * hc]), opts.postMult)
  {
    var logits := Scaled(mixes[hc..2 * hc], opts.scale[1], opts.base[hc..2 * hc]);
    forall j | 0 <= j < hc
      ensures PostGates(f, mixes, opts, hc)[j] == Gated(f, logits, opts.postMult)[j]
    {
      SameLogit(mixes[hc..2 * hc], opts.scale[1], opts.base[hc..2 * hc], j, mixes[j + hc], opts.base[j + hc]);
      PostGateOfLogit(f, mixes[j + hc], opts.scale[1], opts.base[j + hc], opts.postMult, logits[j]);
      assert Gated(f, logits, opts.postMult)[j] == f.sigmoid(logits[j]) * opts.postMult;
    }
  }

  lemma PostGateOfLogit(f: Functions, mix: real, scale: real, base: real, mult: real, logit: real)
    requires logit == mix * scale + base
    ensures PostGate(f, mix, scale, base, mult) == f.sigmoid(logit) * mult
  {
  }

  method CombLogits(mixes: Vector, opts: Settings, hc: nat) returns (cm: Matrix)
    requires |mixes| == |opts.base| == hc * (2 + hc) && |opts.scale| == 3
    ensures |mixes| == 2 * hc + hc * hc
    ensures cm == View(Scaled(mixes[2 * hc..], opts.scale[2], opts.base[2 * hc..]), hc, hc)
  {
    hide View, Scaled;
    MixWidth(hc);
    cm := seq(hc, j requires 0 <= j < hc => seq(hc, k requires 0 <= k < hc && |mixes| == |opts.base| == hc * (2 + hc) && |opts.scale| == 3 =>
      mixes[CombIndex(hc, j, k)] * opts.scale[2] + opts.base[CombIndex(hc, j, k)]));
    forall j, k | 0 <= j < hc && 0 <= k < hc
      ensures cm[j][k] == View(Scaled(mixes[2 * hc..], opts.scale[2], opts.base[2 * hc..]), hc, hc)[j][k]
    {
      LogitAt(mixes, opts.scale[2], opts.base, hc, j, k);
    }
    SameMatrix(cm, View(Scaled(mixes[2 * hc..], opts.scale[2], opts.base[2 * hc..]), hc, hc), hc);
  }

  lemma LogitAt(mixes: Vector, scale: real, base: Vector, hc: nat, j: nat, k: nat)
    requires |mixes| == |base| == 2 * hc + hc * hc == hc * (2 + hc) && j < hc && k < hc
    ensures View(Scaled(mixes[2 * hc..], scale, base[2 * hc..]), hc, hc)[j][k] ==
            mixes[CombIndex(hc, j, k)] * scale + base[CombIndex(hc, j, k)]
  {
    hide View;
    ViewAt(Scaled(mixes[2 * hc..], scale, base[2 * hc..]), hc, hc, j, k);
  }

  lemma SameMatrix(a: Matrix, b: Matrix, hc: nat)
    requires Sinkhorn.Square(a, hc) && Sinkhorn.Square(b, hc)
    requires forall j, k :: 0 <= j < hc && 0 <= k < hc ==> a[j][k] == b[j][k]
    ensures a == b
  {
    forall j | 0 <= j < hc
      ensures a[j] == b[j]
    {
    }
  }

  method PostAndComb(f: Functions, mixes: Vector, opts: Settings, hc: nat) returns (post: Vector, comb: Matrix)
    requires |mixes| == |opts.base| == hc * (2 + hc) && |opts.scale| == 3 && hc > 0
    requires opts.sinkhornEps > 0.0 && forall x :: f.exp(x) > 0.0
    ensures MixOutputs(f, mixes, opts, hc, post, comb)
    ensures CombBounds(comb, hc)
  {
    MixWidth(hc);
    post := PostGates(f, mixes, opts, hc);
    PostGatesAreMiddle(f, mixes, opts, hc);
    var logits := CombLogits(mixes, opts, hc);
    ghost var softmax, rows, rounds;
    comb, softmax, rows, rounds := Sinkhorn.CombMix(f.exp, logits, hc, opts.sinkhornEps, opts.sinkhornRepeat);
  }

  /** The block of one token: its layer input, its post gates and its mixing matrix, which stays
      within its bounds. */
  method PreBigFuse(f: Functions, mul: Matrix, squares: Vector, residual: Matrix, opts: Settings, hc: nat, h: nat,
                    layerInput: array2<real>, iN: nat) returns (post: Vector, comb: Matrix)
    requires TokenShapes(mul, squares, residual, opts, hc, h)
    requires opts.sinkhornEps > 0.0 && forall x :: f.exp(x) > 0.0
    requires iN < layerInput.Length0 && layerInput.Length1 == h
    modifies layerInput
    ensures 2 * hc <= hc * (2 + hc) && hc * h > 0
    ensures forall n, i :: 0 <= n < layerInput.Length0 && 0 <= i < h ==>
      layerInput[n, i] ==
        if n == iN
        then LayerInput(f, SplitTotals(mul, hc * (2 + hc)), Total(squares, |squares|), residual,
                        opts.scale[0], opts.base, opts.rmsEps, opts.preEps, hc, h)[i]
        else old(layerInput[n, i])
    ensures MixOutputs(f, Normalised(SplitTotals(mul, hc * (2 + hc)), Rms(f, Total(squares, |squares|), hc * h, opts.rmsEps)),
                       opts, hc, post, comb)
    ensures CombBounds(comb, hc)
  {
    hide MixOutputs, CombBounds;
    MixWidth(hc);
    var mixes := PreMixes(f, mul, squares, residual, opts, hc, h);
    post, comb := PostAndComb(f, mixes, opts, hc);
    var pre := Gates(f, mixes, opts.scale[0], opts.base, opts.preEps, hc);
    ApplyMix(pre, residual, hc, h, 512, layerInput, iN);
  }

  // ----- mhc_pre_big_fuse_with_norm_tilelang, one token's block

  /** Pass 1: stash the weighted sum and accumulate its squares per position of a block. */
  method WeightedWithSquares(pre: Vector, residual: Matrix, hc: nat, h: nat, blk: nat, blocks: nat)
    returns (stash: Vector, sumsqPerPos: Vector)
    requires |pre| == hc && Shape(residual, hc, h) && blocks * blk == h
    ensures stash == WeightedSum(pre, residual, hc, h)
    ensures |sumsqPerPos| == blk
    ensures forall p :: 0 <= p < blk ==> sumsqPerPos[p] == ColumnSum(Squares(stash, blk), blocks, p)
  {
    ghost var l := WeightedSum(pre, residual, hc, h);
    stash := [];
    sumsqPerPos := seq(blk, _ => 0.0);
    for i0 := 0 to blocks
      invariant |stash| == i0 * blk <= h && stash == l[..i0 * blk]
      invariant |sumsqPerPos| == blk
      invariant forall p :: 0 <= p < blk ==> sumsqPerPos[p] == ColumnSum(Squares(l, blk), i0, p)
    {
      MulLe(i0 + 1, blocks, blk);
      var first := i0 * blk;
      assert (i0 + 1) * blk == first + blk;
      var ol := WeightedBlock(pre, residual, hc, h, first, blk);
      sumsqPerPos := AddSquares(sumsqPerPos, ol);
      stash := stash + ol;
      assert forall p :: 0 <= p < blk ==> ol[p] * ol[p] == Squares(l, blk)(i0, p);
    }
  }

  /** The squares of a vector, by block and position. */
  function Squares(v: Vector, blk: nat): (int, int) -> real {
    (i0: int, p: int) => if 0 <= i0 * blk + p < |v| then v[i0 * blk + p] * v[i0 * blk + p] else 0.0
  }

  method AddSquares(sums: Vector, ol: Vector) returns (r: Vector)
    requires |sums| == |ol|
    ensures |r| == |sums| && forall p :: 0 <= p < |sums| ==> r[p] == sums[p] + ol[p] * ol[p]
  {
    r := sums;
    for i1 := 0 to |ol|
      invariant |r| == |sums|
      invariant forall p :: 0 <= p < |sums| ==> r[p] == sums[p] + if p < i1 then ol[p] * ol[p] else 0.0
    {
      r := r[i1 := r[i1] + ol[i1] * ol[i1]];
    }
  }

  /** Adding the per-position sums up gives the sum of squares of the whole vector. */
  lemma SquaresByPosition(v: Vector, blk: nat, blocks: nat, perPos: Vector)
    requires blocks * blk == |v| && |perPos| == blk
    requires forall p :: 0 <= p < blk ==> perPos[p] == ColumnSum(Squares(v, blk), blocks, p)
    ensures Total(perPos, blk) == Dot(v, v)
  {
    TotalIsColumns(v, blk, blocks, perPos, blk);
    SumExchange(Squares(v, blk), blocks, blk);
    forall i, j | 0 <= i < blocks && 0 <= j < blk
      ensures Product(v, v)(i * blk + j) == Squares(v, blk)(i, j)
    {
      MulLe(i + 1, blocks, blk);
    }
    SumFlat(Product(v, v), Squares(v, blk), blocks, blk);
  }

  lemma {:induction false} TotalIsColumns(v: Vector, blk: nat, blocks: nat, perPos: Vector, n: nat)
    requires n <= |perPos|
    requires forall p :: 0 <= p < |perPos| ==> perPos[p] == ColumnSum(Squares(v, blk), blocks, p)
    ensures Total(perPos, n) == ColumnsSum(Squares(v, blk), blocks, n)
  {
    if n > 0 { TotalIsColumns(v, blk, blocks, perPos, n - 1); }
  }

  /** The block of one token of the kernel with norm: RMSNorm of the plain kernel's layer input, and
      its other two outputs. */
  method PreBigFuseWithNorm(f: Functions, mul: Matrix, squares: Vector, residual: Matrix, opts: Settings, hc: nat, h: nat,
                            normWeight: Vector, normEps: real, layerInput: array2<real>, iN: nat)
    returns (post: Vector, comb: Matrix)
    requires TokenShapes(mul, squares, residual, opts, hc, h) && |normWeight| == h
    requires opts.sinkhornEps > 0.0 && forall x :: f.exp(x) > 0.0
    requires iN < layerInput.Length0 && layerInput.Length1 == h
    modifies layerInput
    ensures 2 * hc <= hc * (2 + hc) && hc * h > 0
    ensures forall n, i :: 0 <= n < layerInput.Length0 && 0 <= i < h ==>
      layerInput[n, i] ==
        if n == iN
        then RmsNorm(f, LayerInput(f, SplitTotals(mul, hc * (2 + hc)), Total(squares, |squares|), residual,
                                   opts.scale[0], opts.base, opts.rmsEps, opts.preEps, hc, h), normWeight, normEps)[i]
        else old(layerInput[n, i])
    ensures MixOutputs(f, Normalised(SplitTotals(mul, hc * (2 + hc)), Rms(f, Total(squares, |squares|), hc * h, opts.rmsEps)),
                       opts, hc, post, comb)
    ensures CombBounds(comb, hc)
  {
    hide MixOutputs, CombBounds;
    MixWidth(hc);
    var mixes := PreMixes(f, mul, squares, residual, opts, hc, h);
    post, comb := PostAndComb(f, mixes, opts, hc);
    var pre := Gates(f, mixes, opts.scale[0], opts.base, opts.preEps, hc);
    var blk := Gcd(1024, h);
    BlocksCover(h, 1024);
    var blocks := h / blk;
    var stash, perPos := WeightedWithSquares(pre, residual, hc, h, blk, blocks);
    var sumsq := SumSplits(perPos);
    SquaresByPosition(stash, blk, blocks, perPos);
    var rsqrtNorm := f.rsqrt(sumsq / h as real + normEps);
    ScaleRow(f, stash, normWeight, normEps, rsqrtNorm, blk, blocks, layerInput, iN);
  }

  /** Pass 2: scale by rsqrt and weight, block by block. */
  method ScaleRow(f: Functions, stash: Vector, w: Vector, ghost eps: real, rsqrtNorm: real, blk: nat, blocks: nat,
                  out: array2<real>, iN: nat)
    requires blocks * blk == |stash| == |w| && |stash| > 0
    requires rsqrtNorm == Rms(f, Dot(stash, stash), |stash|, eps)
    requires iN < out.Length0 && out.Length1 == |stash|
    modifies out
    ensures forall n, i :: 0 <= n < out.Length0 && 0 <= i < |stash| ==>
      out[n, i] == if n == iN then RmsNorm(f, stash, w, eps)[i] else old(out[n, i])
  {
    for i0 := 0 to blocks
      invariant i0 * blk <= |stash|
      invariant forall n, i :: 0 <= n < out.Length0 && 0 <= i < |stash| ==>
        out[n, i] == if n == iN && i < i0 * blk then RmsNorm(f, stash, w, eps)[i] else old(out[n, i])
    {
      MulLe(i0 + 1, blocks, blk);
      var first := i0 * blk;
      assert (i0 + 1) * blk == first + blk;
      var ol := seq(blk, i1 requires 0 <= i1 < blk && first + blk <= |stash| == |w| => stash[first + i1] * rsqrtNorm * w[first + i1]);
      StoreBlock(out, ol, iN, first);
    }
  }

  // ----- hc_head_fuse_tilelang, one token's block

  /** Adding the products of columns first .. first + blk of channel c: the flat products in order. */
  method AddProducts(xl: Vector, wl: Vector, acc0: real, ghost x: Vector, ghost w: Vector, ghost first: nat) returns (acc: real)
    requires |xl| == |wl| && first + |xl| <= |x| == |w|
    requires xl == x[first..first + |xl|] && wl == w[first..first + |xl|]
    requires acc0 == SumRange(Product(x, w), 0, first)
    ensures acc == SumRange(Product(x, w), 0, first + |xl|)
  {
    acc := acc0;
    for k := 0 to |xl|
      invariant acc == SumRange(Product(x, w), 0, first + k)
    {
      acc := acc + xl[k] * wl[k];
    }
  }

  /** One block of one channel of pass 1: the squared sum and all projections. */
  method HeadBlock(ghost x: Vector, xl: Vector, fn: Matrix, hc: nat, first: nat, sq0: real, mixes0: Vector)
    returns (sq: real, mixes: Vector)
    requires Shape(fn, hc, |x|) && |mixes0| == hc && first + |xl| <= |x| && xl == x[first..first + |xl|]
    requires sq0 == SumRange(Product(x, x), 0, first)
    requires forall m :: 0 <= m < hc ==> mixes0[m] == SumRange(Product(x, fn[m]), 0, first)
    ensures sq == SumRange(Product(x, x), 0, first + |xl|) && |mixes| == hc
    ensures forall m :: 0 <= m < hc ==> mixes[m] == SumRange(Product(x, fn[m]), 0, first + |xl|)
  {
    sq := AddProducts(xl, xl, sq0, x, x, first);
    mixes := mixes0;
    for mM := 0 to hc
      invariant |mixes| == hc
      invariant forall m :: 0 <= m < hc ==>
        mixes[m] == SumRange(Product(x, fn[m]), 0, if m < mM then first + |xl| else first)
    {
      var v := AddProducts(xl, fn[mM][first..first + |xl|], mixes[mM], x, fn[mM], first);
      mixes := mixes[mM := v];
    }
  }

  /** Pass 1: per-token squared sum and projections, channel by channel and block by block. */
  method HeadProject(residual: Matrix, fn: Matrix, hc: nat, h: nat, blk: nat, blocks: nat) returns (sq: real, mixes: Vector)
    requires Shape(residual, hc, h) && Shape(fn, hc, hc * h) && blocks * blk == h
    ensures |mixes| == hc && sq == Dot(Flat(residual, hc, h), Flat(residual, hc, h))
    ensures forall m :: 0 <= m < hc ==> mixes[m] == Dot(Flat(residual, hc, h), fn[m])
  {
    ghost var x := Flat(residual, hc, h);
    sq, mixes := 0.0, seq(hc, _ => 0.0);
    for mC := 0 to hc
      invariant sq == SumRange(Product(x, x), 0, mC * h) && |mixes| == hc
      invariant forall m :: 0 <= m < hc ==> mixes[m] == SumRange(Product(x, fn[m]), 0, mC * h)
    {
      FlatRow(residual, hc, h, mC);
      sq, mixes := HeadChannel(residual[mC], x, fn, hc, mC * h, blk, blocks, sq, mixes);
      assert mC * h + h == (mC + 1) * h;
    }
  }

  method HeadChannel(row: Vector, ghost x: Vector, fn: Matrix, hc: nat, start: nat, blk: nat, blocks: nat, sq0: real, mixes0: Vector)
    returns (sq: real, mixes: Vector)
    requires start + |row| <= |x| && x[start..start + |row|] == row && blocks * blk == |row|
    requires Shape(fn, hc, |x|) && |mixes0| == hc && sq0 == SumRange(Product(x, x), 0, start)
    requires forall m :: 0 <= m < hc ==> mixes0[m] == SumRange(Product(x, fn[m]), 0, start)
    ensures sq == SumRange(Product(x, x), 0, start + |row|) && |mixes| == hc
    ensures forall m :: 0 <= m < hc ==> mixes[m] == SumRange(Product(x, fn[m]), 0, start + |row|)
  {
    sq, mixes := sq0, mixes0;
    for iH := 0 to blocks
      invariant iH * blk <= |row| && |mixes| == hc
      invariant sq == SumRange(Product(x, x), 0, start + iH * blk)
      invariant forall m :: 0 <= m < hc ==> mixes[m] == SumRange(Product(x, fn[m]), 0, start + iH * blk)
    {
      MulLe(iH + 1, blocks, blk);
      var first := iH * blk;
      assert (iH + 1) * blk == first + blk;
      var xl := row[first..first + blk];
      SliceOfSlice(x, row, start, first, blk);
      sq, mixes := HeadBlock(x, xl, fn, hc, start + first, sq, mixes);
    }
  }

  lemma SliceOfSlice(x: Vector, row: Vector, start: nat, first: nat, n: nat)
    requires start + |row| <= |x| && x[start..start + |row|] == row && first + n <= |row|
    ensures row[first..first + n] == x[start + first..start + first + n]
  {
    var a, b := row[first..first + n], x[start + first..start + first + n];
    forall i | 0 <= i < n
      ensures a[i] == b[i]
    {
      assert row[first + i] == x[start..start + |row|][first + i];
    }
  }

  lemma FlatRow(m: Matrix, hc: nat, h: nat, j: nat)
    requires Shape(m, hc, h) && j < hc
    ensures j * h + h <= |Flat(m, hc, h)| && Flat(m, hc, h)[j * h..j * h + h] == m[j]
  {
    MulLe(j + 1, hc, h);
    forall i | 0 <= i < h
      ensures Flat(m, hc, h)[j * h..j * h + h][i] == m[j][i]
    {
      FlatAt(m, hc, h, j, i);
    }
  }

  /** The block of one token of the head kernel. */
  method HeadFuse(f: Functions, residual: Matrix, fn: Matrix, scale: real, base: Vector, rmsEps: real, hcEps: real,
                  hc: nat, h: nat, hBlk: nat, out: array2<real>, iN: nat)
    requires hc > 0 && h > 0 && Shape(residual, hc, h) && Shape(fn, hc, hc * h) && |base| == hc
    requires iN < out.Length0 && out.Length1 == h
    modifies out
    ensures forall n, i :: 0 <= n < out.Length0 && 0 <= i < h ==>
      out[n, i] == if n == iN then HeadOutput(f, residual, fn, scale, base, rmsEps, hcEps, hc, h)[i] else old(out[n, i])
  {
    HiddenPositive(hc, h);
    var blk := Gcd(hBlk, h);
    BlocksCover(h, hBlk);
    var sq, mixes := HeadProject(residual, fn, hc, h, blk, h / blk);
    var rsqrtVal := f.rsqrt(sq / (hc * h) as real + rmsEps);
    var pre := Gates(f, Normalised(mixes, rsqrtVal), scale, base, hcEps, hc);
    ApplyMix(pre, residual, hc, h, hBlk, out, iN);
    assert mixes == Projections(residual, fn, hc, h);
  }

  ghost function Projections(residual: Matrix, fn: Matrix, hc: nat, h: nat): (r: Vector)
    requires Shape(residual, hc, h) && Shape(fn, hc, hc * h)
    ensures |r| == hc
  {
    seq(hc, m requires 0 <= m < hc => Dot(Flat(residual, hc, h), fn[m]))
  }

  ghost function HeadOutput(f: Functions, residual: Matrix, fn: Matrix, scale: real, base: Vector, rmsEps: real, hcEps: real,
                            hc: nat, h: nat): (r: Vector)
    requires hc > 0 && h > 0 && Shape(residual, hc, h) && Shape(fn, hc, hc * h) && |base| == hc
    ensures |r| == h
  {
    LayerInput(f, Projections(residual, fn, hc, h), Dot(Flat(residual, hc, h), Flat(residual, hc, h)), residual,
               scale, base, rmsEps, hcEps, hc, h)
  }

  // ----- The head kernel is the GEMM followed by the pre block

  lemma {:induction false} TotalOfPartials(l: Launch, x: Vector, w: Vector, v: Vector, n: nat)
    requires l.Valid() && n <= |v|
    requires forall s :: 0 <= s < |v| ==> v[s] == PartialDot(l, x, w, s)
    ensures Total(v, n) == SummedOverSplits(l, x, w, n)
  {
    if n > 0 { TotalOfPartials(l, x, w, v, n - 1); }
  }

  /** What the pre-norm GEMM hands over for one token: for each split, the partial dot products with
      the rows of fn, and the partial sum of squares. */
  ghost predicate GemmResults(l: Launch, x: Vector, fn: Matrix, mul: Matrix, squares: Vector) {
    && l.Valid() && |mul| == l.splits == |squares| && Shape(fn, l.nOut, l.k) && |x| == l.k
    && (forall s :: 0 <= s < l.splits ==> |mul[s]| == l.nOut)
    && (forall s, o :: 0 <= s < l.splits && 0 <= o < l.nOut ==> mul[s][o] == PartialDot(l, x, fn[o], s))
    && (forall s :: 0 <= s < l.splits ==> squares[s] == PartialDot(l, x, x, s))
  }

  /** For every launch of the GEMM that divides evenly, its results summed by the pre block are the
      dot products and the sum of squares. */
  lemma GemmTotals(l: Launch, x: Vector, fn: Matrix, mul: Matrix, squares: Vector)
    requires GemmResults(l, x, fn, mul, squares) && Exact(l)
    ensures Total(squares, |squares|) == Dot(x, x)
    ensures forall o :: 0 <= o < l.nOut ==> SplitTotals(mul, l.nOut)[o] == Dot(x, fn[o])
  {
    TotalOfPartials(l, x, x, squares, l.splits);
    SplitsGiveDot(l, x, x);
    forall o | 0 <= o < l.nOut
      ensures SplitTotals(mul, l.nOut)[o] == Dot(x, fn[o])
    {
      TotalOfPartials(l, x, fn[o], SplitColumn(mul, o), l.splits);
      SplitsGiveDot(l, x, fn[o]);
    }
  }

  /** The two-pass head kernel computes what the GEMM followed by the pre-mix part of the pre block
      computes when weights, scale, base and eps agree, for every even split of the GEMM. */
  lemma HeadIsGemmThenPre(f: Functions, l: Launch, residual: Matrix, fn: Matrix, headFn: Matrix, mul: Matrix, squares: Vector,
                          opts: Settings, headBase: Vector, hc: nat, h: nat)
    requires TokenShapes(mul, squares, residual, opts, hc, h)
    requires l.nOut == hc * (2 + hc) && l.k == hc * h && 2 * hc <= hc * (2 + hc)
    requires GemmResults(l, Flat(residual, hc, h), fn, mul, squares) && Exact(l)
    requires Shape(headFn, hc, hc * h) && |headBase| == hc
    requires forall m :: 0 <= m < hc ==> headFn[m] == fn[m] && headBase[m] == opts.base[m]
    ensures HeadOutput(f, residual, headFn, opts.scale[0], headBase, opts.rmsEps, opts.preEps, hc, h) ==
            LayerInput(f, SplitTotals(mul, hc * (2 + hc)), Total(squares, |squares|), residual,
                       opts.scale[0], opts.base, opts.rmsEps, opts.preEps, hc, h)
  {
    GemmTotals(l, Flat(residual, hc, h), fn, mul, squares);
    HiddenPositive(hc, h);
    GatesAgree(f, Projections(residual, headFn, hc, h), SplitTotals(mul, hc * (2 + hc)),
               Rms(f, Total(squares, |squares|), hc * h, opts.rmsEps), opts.scale[0], headBase, opts.base, opts.preEps, hc);
  }

  lemma GatesAgree(f: Functions, a: Vector, b: Vector, rms: real, scale: real, baseA: Vector, baseB: Vector, eps: real, hc: nat)
    requires hc <= |a| && hc <= |b| && hc <= |baseA| && hc <= |baseB|
    requires forall m :: 0 <= m < hc ==> a[m] == b[m] && baseA[m] == baseB[m]
    ensures Gates(f, Normalised(a, rms), scale, baseA, eps, hc) == Gates(f, Normalised(b, rms), scale, baseB, eps, hc)
  {
    forall m | 0 <= m < hc
      ensures Normalised(a, rms)[m] == Normalised(b, rms)[m]
    {
    }
  }

  // ----- mhc_pre_tilelang: the GEMM kernel, then a pre block per token

  /** One token's share of the results of the GEMM kernel. */
  method TokenResults(l: Launch, out: array3<real>, sqrsum: array2<real>, n: nat) returns (mul: Matrix, squares: Vector)
    requires out.Length0 == sqrsum.Length0 == l.splits && out.Length2 == l.nOut
    requires n < out.Length1 && n < sqrsum.Length1
    ensures |mul| == |squares| == l.splits
    ensures forall s :: 0 <= s < l.splits ==> |mul[s]| == l.nOut && squares[s] == sqrsum[s, n]
    ensures forall s, o :: 0 <= s < l.splits && 0 <= o < l.nOut ==> mul[s][o] == out[s, n, o]
  {
    mul, squares := [], [];
    for s := 0 to l.splits
      invariant |mul| == |squares| == s
      invariant forall u :: 0 <= u < s ==> |mul[u]| == l.nOut && squares[u] == sqrsum[u, n]
      invariant forall u, o :: 0 <= u < s && 0 <= o < l.nOut ==> mul[u][o] == out[u, n, o]
    {
      var row: Vector := [];
      for o := 0 to l.nOut
        invariant |row| == o && forall u :: 0 <= u < o ==> row[u] == out[s, n, u]
      {
        row := row + [out[s, n, o]];
      }
      mul, squares := mul + [row], squares + [sqrsum[s, n]];
    }
  }

  /** The shapes mhc_pre_tilelang and the caller of the GEMM kernel assert, for a tile width with which
      every output is written. */
  ghost predicate PreShapes(l: Launch, residuals: seq<Matrix>, fn: Matrix, opts: Settings, hc: nat, h: nat) {
    && hc > 0 && h > 0 && l.Valid() && Exact(l) && (l.tileN <= WARP || l.nOut <= WARP)
    && l.k == hc * h && l.nOut == hc * (2 + hc) && Shape(fn, l.nOut, l.k)
    && |opts.scale| == 3 && |opts.base| == hc * (2 + hc)
    && forall n :: 0 <= n < |residuals| ==> Shape(residuals[n], hc, h)
  }

  /** A token is done: its three outputs are those of the reference, and its matrix is within its bounds. */
  ghost predicate TokenDone(f: Functions, residual: Matrix, fn: Matrix, opts: Settings, hc: nat, h: nat,
                            row: Vector, post: Vector, comb: Matrix)
  {
    TorchPre(f, residual, fn, opts, hc, h, row, post, comb) && CombBounds(comb, hc)
  }

  /** The weighted sum over the channels, column by column. */
  lemma {:induction false} WeightedIsDot(pre: Vector, residual: Matrix, i: nat, n: nat)
    requires n <= |pre| == |residual| && forall c :: 0 <= c < |residual| ==> i < |residual[c]|
    ensures Weighted(pre, residual, i, n) == SumRange(Product(pre, Column(residual, i)), 0, n)
  {
    if n > 0 { WeightedIsDot(pre, residual, i, n - 1); }
  }

  /** The kernel's way to the layer input from the summed GEMM results is the reference's. */
  lemma LayerInputIsTorch(f: Functions, residual: Matrix, fn: Matrix, opts: Settings, hc: nat, h: nat)
    requires hc > 0 && h > 0 && Shape(residual, hc, h) && |fn| == hc * (2 + hc) == |opts.base| && |opts.scale| == 3
    ensures hc * h > 0 && hc <= hc * (2 + hc)
    ensures var x := Flat(residual, hc, h);
            && Normalised(Dots(x, fn), Rms(f, Dot(x, x), hc * h, opts.rmsEps)) == TorchMixes(f, x, fn, opts.rmsEps)
            && LayerInput(f, Dots(x, fn), Dot(x, x), residual, opts.scale[0], opts.base, opts.rmsEps, opts.preEps, hc, h) ==
               TorchLayerInput(TorchPreMix(f, TorchMixes(f, x, fn, opts.rmsEps), opts, hc), residual, h)
  {
    HiddenPositive(hc, h);
    MixWidth(hc);
    var x := Flat(residual, hc, h);
    var mixes := TorchMixes(f, x, fn, opts.rmsEps);
    var normalised := Normalised(Dots(x, fn), Rms(f, Dot(x, x), hc * h, opts.rmsEps));
    assert Rms(f, Dot(x, x), hc * h, opts.rmsEps) == f.rsqrt(Dot(x, x) / |x| as real + opts.rmsEps);
    forall o | 0 <= o < |fn|
      ensures normalised[o] == mixes[o]
    {
      assert Dots(x, fn)[o] == Dot(x, fn[o]);
    }
    assert normalised == mixes;
    var pre := TorchPreMix(f, mixes, opts, hc);
    PreGatesAreFirst(f, mixes, opts, hc);
    forall i | 0 <= i < h
      ensures WeightedSum(pre, residual, hc, h)[i] == TorchLayerInput(pre, residual, h)[i]
    {
      WeightedIsDot(pre, residual, i, hc);
    }
  }

  lemma PreGatesAreFirst(f: Functions, mixes: Vector, opts: Settings, hc: nat)
    requires |mixes| == |opts.base| >= hc && |opts.scale| == 3
    ensures Gates(f, mixes, opts.scale[0], opts.base, opts.preEps, hc) == TorchPreMix(f, mixes, opts, hc)
  {
    var logits := Scaled(mixes[..hc], opts.scale[0], opts.base[..hc]);
    forall j | 0 <= j < hc
      ensures Gates(f, mixes, opts.scale[0], opts.base, opts.preEps, hc)[j] == TorchPreMix(f, mixes, opts, hc)[j]
    {
      assert mixes[..hc][j] == mixes[j] && opts.base[..hc][j] == opts.base[j];
      SameLogit(mixes[..hc], opts.scale[0], opts.base[..hc], j, mixes[j], opts.base[j]);
      GateOfLogit(f, mixes[j], opts.scale[0], opts.base[j], opts.preEps, logits[j]);
      assert Gates(f, mixes, opts.scale[0], opts.base, opts.preEps, hc)[j] == Gate(f, mixes[j], opts.scale[0], opts.base[j], opts.preEps);
      assert TorchPreMix(f, mixes, opts, hc)[j] == f.sigmoid(logits[j]) + opts.preEps;
    }
  }

  lemma GateOfLogit(f: Functions, mix: real, scale: real, base: real, eps: real, logit: real)
    requires logit == mix * scale + base
    ensures Gate(f, mix, scale, base, eps) == f.sigmoid(logit) + eps
  {
  }

  lemma SameLogit(mixes: Vector, scale: real, base: Vector, j: nat, mix: real, b: real)
    requires |mixes| == |base| && j < |mixes| && mixes[j] == mix && base[j] == b
    ensures Scaled(mixes, scale, base)[j] == mix * scale + b
  {
  }

  ghost function Dots(x: Vector, fn: Matrix): (r: Vector)
    ensures |r| == |fn|
  {
    seq(|fn|, o requires 0 <= o < |fn| => Dot(x, fn[o]))
  }

  /** The layer input of the pipeline is what the head kernel computes when weights, scale, base and
      eps agree. */
  lemma HeadIsPipeline(f: Functions, residual: Matrix, fn: Matrix, opts: Settings, headFn: Matrix, headBase: Vector,
                       hc: nat, h: nat, row: Vector, post: Vector, comb: Matrix)
    requires TorchPre(f, residual, fn, opts, hc, h, row, post, comb)
    requires Shape(headFn, hc, hc * h) && |headBase| == hc
    requires forall m :: 0 <= m < hc ==> headFn[m] == fn[m] && headBase[m] == opts.base[m]
    ensures row == HeadOutput(f, residual, headFn, opts.scale[0], headBase, opts.rmsEps, opts.preEps, hc, h)
  {
    MixWidth(hc);
    LayerInputIsTorch(f, residual, fn, opts, hc, h);
    hide MixOutputs;
    var x := Flat(residual, hc, h);
    GatesAgree(f, Projections(residual, headFn, hc, h), Dots(x, fn),
               Rms(f, Dot(x, x), hc * h, opts.rmsEps), opts.scale[0], headBase, opts.base, opts.preEps, hc);
  }

  ghost function Row(a: array2<real>, n: nat): (r: Vector)
    requires n < a.Length0
    reads a
    ensures |r| == a.Length1
  {
    seq(a.Length1, i requires 0 <= i < a.Length1 && n < a.Length0 reads a => a[n, i])
  }

  /** The block of one token after the GEMM. */
  method TokenAfterGemm(f: Functions, l: Launch, residuals: seq<Matrix>, fn: Matrix, opts: Settings, hc: nat, h: nat,
                        out: array3<real>, sqrsum: array2<real>, layerInput: array2<real>, n: nat)
    returns (post: Vector, comb: Matrix)
    requires PreShapes(l, residuals, fn, opts, hc, h) && n < |residuals|
    requires opts.sinkhornEps > 0.0 && forall x :: f.exp(x) > 0.0
    requires out.Length0 == sqrsum.Length0 == l.splits && out.Length2 == l.nOut
    requires out.Length1 == sqrsum.Length1 == layerInput.Length0 == |residuals| && layerInput.Length1 == h
    requires sqrsum != layerInput
    requires forall s, o :: 0 <= s < l.splits && 0 <= o < l.nOut ==>
      out[s, n, o] == PartialDot(l, Flat(residuals[n], hc, h), fn[o], s)
    requires forall s :: 0 <= s < l.splits ==>
      sqrsum[s, n] == PartialDot(l, Flat(residuals[n], hc, h), Flat(residuals[n], hc, h), s)
    modifies layerInput
    ensures TokenDone(f, residuals[n], fn, opts, hc, h, Row(layerInput, n), post, comb)
    ensures forall m :: 0 <= m < |residuals| && m != n ==> Row(layerInput, m) == old(Row(layerInput, m))
  {
    hide MixOutputs, CombBounds;
    ghost var x := Flat(residuals[n], hc, h);
    var mul, squares := TokenResults(l, out, sqrsum, n);
    assert GemmResults(l, x, fn, mul, squares);
    GemmTotals(l, x, fn, mul, squares);
    assert SplitTotals(mul, hc * (2 + hc)) == Dots(x, fn);
    LayerInputIsTorch(f, residuals[n], fn, opts, hc, h);
    MixWidth(hc);
    post, comb := PreBigFuse(f, mul, squares, residuals[n], opts, hc, h, layerInput, n);
  }

  /** With kernels whose tile fits a warp and whose splits and threads divide the reduction, as the
      caller asserts, every token gets what the exact dot products give. */
  method MhcPreTilelang(f: Functions, l: Launch, residuals: seq<Matrix>, fn: Matrix, opts: Settings, hc: nat, h: nat,
                        layerInput: array2<real>)
    returns (posts: seq<Vector>, combs: seq<Matrix>)
    requires PreShapes(l, residuals, fn, opts, hc, h)
    requires opts.sinkhornEps > 0.0 && forall x :: f.exp(x) > 0.0
    requires layerInput.Length0 == |residuals| && layerInput.Length1 == h
    modifies layerInput
    ensures |posts| == |combs| == |residuals|
    ensures forall n :: 0 <= n < |residuals| ==>
      TokenDone(f, residuals[n], fn, opts, hc, h, Row(layerInput, n), posts[n], combs[n])
  {
    hide TokenDone;
    var xs := seq(|residuals|, n requires 0 <= n < |residuals| => Flat(residuals[n], hc, h));
    var out := new real[l.splits, |residuals|, l.nOut];
    var sqrsum := new real[l.splits, |residuals|];
    AllCellsWritten(l);
    MixWidth(hc);
    ghost var writes := HcPrenormGemm(l, xs, fn, out, sqrsum);
    posts, combs := [], [];
    for n := 0 to |residuals|
      invariant |posts| == |combs| == n
      invariant forall s, m, o :: 0 <= s < l.splits && 0 <= m < |residuals| && 0 <= o < l.nOut ==>
        out[s, m, o] == PartialDot(l, xs[m], fn[o], s)
      invariant forall s, m :: 0 <= s < l.splits && 0 <= m < |residuals| ==> sqrsum[s, m] == PartialDot(l, xs[m], xs[m], s)
      invariant forall m :: 0 <= m < n ==>
        TokenDone(f, residuals[m], fn, opts, hc, h, Row(layerInput, m), posts[m], combs[m])
    {
      var post, comb := TokenAfterGemm(f, l, residuals, fn, opts, hc, h, out, sqrsum, layerInput, n);
      posts, combs := posts + [post], combs + [comb];
    }
  }
}
