/** The reference for the pre block of mHC (vllm/model_executor/kernels/mhc/torch.py, mhc_pre_torch), for one
    token and over exact reals with `exp`, `sigmoid` and `rsqrt` left open. */
module MhcTorch {
  import opened Arith
  import opened PrenormGemm
  import opened MhcFused
  import Sinkhorn

  datatype Functions = Functions(exp: real -> real, sigmoid: real -> real, rsqrt: real -> real)

  /** hc_scale, hc_base and the scalar settings of the pre block. */
  datatype Settings = Settings(scale: Vector, base: Vector, rmsEps: real, preEps: real, sinkhornEps: real,
                               postMult: real, sinkhornRepeat: int)

  /** mixes * scale + base, element by element. */
  function Scaled(mixes: Vector, scale: real, base: Vector): (r: Vector)
    requires |mixes| == |base|
    ensures |r| == |mixes|
  {
    seq(|mixes|, i requires 0 <= i < |mixes| => mixes[i] * scale + base[i])
  }

  /** sigmoid(logits) * mult. */
  function Gated(f: Functions, logits: Vector, mult: real): (r: Vector)
    ensures |r| == |logits|
  {
    seq(|logits|, i requires 0 <= i < |logits| => f.sigmoid(logits[i]) * mult)
  }

  /** v.view(rows, width). */
  function View(v: Vector, rows: nat, width: nat): (r: Matrix)
    requires |v| == rows * width
    ensures |r| == rows && forall j :: 0 <= j < rows ==> |r[j]| == width
  {
    if rows == 0 then []
    else
      assert rows * width == width + (rows - 1) * width;
      MulLe(1, rows, width);
      [v[..width]] + View(v[width..], rows - 1, width)
  }

  lemma {:induction false} ViewAt(v: Vector, rows: nat, width: nat, j: nat, k: nat)
    requires |v| == rows * width && j < rows && k < width
    ensures j * width + k < |v| && View(v, rows, width)[j][k] == v[j * width + k]
  {
    MulLe(j + 1, rows, width);
    RowStarts(j, width);
    if j > 0 {
      RowStarts(rows - 1, width);
      RowStarts(j - 1, width);
      ViewAt(v[width..], rows - 1, width, j - 1, k);
    }
  }

  lemma RowStarts(j: nat, width: nat)
    ensures (j + 1) * width == j * width + width && j * width >= 0
  {
  }

  /** What the kernels compute from the normalised mixes of a token beside its layer input: the gates of the
      middle slice, and the mixing matrix whose logits are the rest, viewed as a matrix. */
  ghost predicate MixOutputs(f: Functions, mixes: Vector, opts: Settings, hc: nat, post: Vector, comb: Matrix) {
    && |mixes| == |opts.base| == 2 * hc + hc * hc && |opts.scale| == 3
    && post == Gated(f, Scaled(mixes[hc..2 * hc], opts.scale[1], opts.base[hc..2 * hc]), opts.postMult)
    && Sinkhorn.IsCombMix(f.exp, View(Scaled(mixes[2 * hc..], opts.scale[2], opts.base[2 * hc..]), hc, hc), hc,
                          opts.sinkhornEps, opts.sinkhornRepeat, comb)
  }

  /** matmul(x, fn.t()) * rsqrt(sum of squares / size + eps). */
  ghost function TorchMixes(f: Functions, x: Vector, fn: Matrix, rmsEps: real): (r: Vector)
    requires |x| > 0
    ensures |r| == |fn|
  {
    seq(|fn|, o requires 0 <= o < |fn| => Dot(x, fn[o]) * f.rsqrt(Dot(x, x) / |x| as real + rmsEps))
  }

  /** sigmoid of the first slice, plus eps. */
  ghost function TorchPreMix(f: Functions, mixes: Vector, opts: Settings, hc: nat): (r: Vector)
    requires |mixes| == |opts.base| >= hc && |opts.scale| == 3
    ensures |r| == hc
  {
    var logits := Scaled(mixes[..hc], opts.scale[0], opts.base[..hc]);
    seq(hc, j requires 0 <= j < hc => f.sigmoid(logits[j]) + opts.preEps)
  }

  /** sum(pre_mix * residual, over the channels). */
  ghost function TorchLayerInput(pre: Vector, residual: Matrix, h: nat): (r: Vector)
    requires Shape(residual, |pre|, h)
    ensures |r| == h
  {
    seq(h, i requires 0 <= i < h => Dot(pre, Column(residual, i)))
  }

  /** mhc_pre_torch of one token. */
  ghost predicate TorchPre(f: Functions, residual: Matrix, fn: Matrix, opts: Settings, hc: nat, h: nat,
                           row: Vector, post: Vector, comb: Matrix)
  {
    && hc > 0 && h > 0 && hc * h > 0 && Shape(residual, hc, h) && |fn| == |opts.base| == 2 * hc + hc * hc && |opts.scale| == 3
    && var mixes := TorchMixes(f, Flat(residual, hc, h), fn, opts.rmsEps);
    && row == TorchLayerInput(TorchPreMix(f, mixes, opts, hc), residual, h)
    && MixOutputs(f, mixes, opts, hc, post, comb)
  }
}
