/** The mixing matrix of mHC: softmax followed by Sinkhorn repetitions
    (vllm/_tilelang_ops.py:125-157), over exact reals with `exp` left open. */
module Sinkhorn {
  import opened PrenormGemm

  /** The sum of the first n entries of row j, as T.reduce_sum(dim=1) gives for n = hc. */
  function RowTotal(m: Matrix, j: nat, n: nat): real
    requires j < |m| && n <= |m[j]|
  {
    if n == 0 then 0.0 else RowTotal(m, j, n - 1) + m[j][n - 1]
  }

  function ColumnTotal(m: Matrix, k: nat, n: nat): real
    requires n <= |m| && forall j :: 0 <= j < n ==> k < |m[j]|
  {
    if n == 0 then 0.0 else ColumnTotal(m, k, n - 1) + m[n - 1][k]
  }

  function RowMax(row: Vector): (r: real)
    requires |row| > 0
    ensures r in row && forall k :: 0 <= k < |row| ==> row[k] <= r
  {
    if |row| == 1 then row[0]
    else
      var rest := RowMax(row[..|row| - 1]);
      if row[|row| - 1] > rest then row[|row| - 1] else rest
  }

  predicate Square(m: Matrix, hc: nat) {
    |m| == hc && forall j :: 0 <= j < hc ==> |m[j]| == hc
  }

  function Exponentials(exp: real -> real, m: Matrix, hc: nat): (r: Matrix)
    requires Square(m, hc) && hc > 0
    ensures Square(r, hc) && forall j, k :: 0 <= j < hc && 0 <= k < hc ==> r[j][k] == exp(m[j][k] - RowMax(m[j]))
  {
    seq(hc, j requires 0 <= j < hc => seq(hc, k requires 0 <= k < hc => exp(m[j][k] - RowMax(m[j]))))
  }

  predicate Positive(m: Matrix) {
    forall j, k :: 0 <= j < |m| && 0 <= k < |m[j]| ==> m[j][k] > 0.0
  }

  predicate InUnit(m: Matrix) {
    forall j, k :: 0 <= j < |m| && 0 <= k < |m[j]| ==> 0.0 < m[j][k] < 1.0
  }

  lemma {:induction false} RowTotalPositive(m: Matrix, j: nat, n: nat)
    requires j < |m| && n <= |m[j]| && Positive(m)
    ensures RowTotal(m, j, n) >= 0.0 && (n > 0 ==> RowTotal(m, j, n) > 0.0)
    ensures forall k :: 0 <= k < n ==> m[j][k] <= RowTotal(m, j, n)
  {
    if n > 0 { RowTotalPositive(m, j, n - 1); }
  }

  lemma {:induction false} ColumnTotalPositive(m: Matrix, k: nat, n: nat)
    requires n <= |m| && (forall j :: 0 <= j < n ==> k < |m[j]|) && Positive(m)
    ensures ColumnTotal(m, k, n) >= 0.0 && (n > 0 ==> ColumnTotal(m, k, n) > 0.0)
    ensures forall j :: 0 <= j < n ==> m[j][k] <= ColumnTotal(m, k, n)
  {
    if n > 0 { ColumnTotalPositive(m, k, n - 1); }
  }

  /** comb.softmax(-1) + eps, on the exponentials. */
  function SoftmaxPlusEps(m: Matrix, hc: nat, eps: real): (r: Matrix)
    requires Square(m, hc) && Positive(m)
    ensures Square(r, hc)
  {
    seq(hc, j requires 0 <= j < hc => seq(hc, k requires 0 <= k < hc =>
      RowTotalPositive(m, j, hc); m[j][k] / RowTotal(m, j, hc) + eps))
  }

  /** comb / (comb.sum(-1) + eps). */
  function RowStep(m: Matrix, hc: nat, eps: real): (r: Matrix)
    requires Square(m, hc) && Positive(m) && eps > 0.0
    ensures Square(r, hc)
  {
    seq(hc, j requires 0 <= j < hc => seq(hc, k requires 0 <= k < hc =>
      RowTotalPositive(m, j, hc); m[j][k] / (RowTotal(m, j, hc) + eps)))
  }

  /** comb / (comb.sum(-2) + eps). */
  function ColumnStep(m: Matrix, hc: nat, eps: real): (r: Matrix)
    requires Square(m, hc) && Positive(m) && eps > 0.0
    ensures Square(r, hc)
  {
    seq(hc, j requires 0 <= j < hc => seq(hc, k requires 0 <= k < hc =>
      ColumnTotalPositive(m, k, hc); m[j][k] / (ColumnTotal(m, k, hc) + eps)))
  }

  // ----- What one step gives

  lemma DivideBelowOne(a: real, b: real)
    requires 0.0 < a < b
    ensures 0.0 < a / b < 1.0
  {
    var q := a / b;
    assert q * b == a;
    if q >= 1.0 {
      ProductNonnegative(q - 1.0, b);
    }
  }

  lemma ProductNonnegative(x: real, y: real)
    requires x >= 0.0 && y >= 0.0
    ensures x * y >= 0.0
  {
  }

  lemma SumOfQuotients(a: real, b: real, d: real)
    requires d != 0.0
    ensures a / d + b / d == (a + b) / d
  {
  }

  lemma {:induction false} RowTotalDivided(m: Matrix, r: Matrix, j: nat, n: nat, d: real)
    requires j < |m| == |r| && n <= |m[j]| == |r[j]| && d != 0.0
    requires forall k :: 0 <= k < |m[j]| ==> r[j][k] == m[j][k] / d
    ensures RowTotal(r, j, n) == RowTotal(m, j, n) / d
  {
    if n > 0 {
      RowTotalDivided(m, r, j, n - 1, d);
      SumOfQuotients(RowTotal(m, j, n - 1), m[j][n - 1], d);
    }
  }

  lemma {:induction false} ColumnTotalDivided(m: Matrix, r: Matrix, k: nat, n: nat, d: real)
    requires n <= |m| == |r| && (forall j :: 0 <= j < n ==> k < |m[j]| == |r[j]|) && d != 0.0
    requires forall j :: 0 <= j < n ==> r[j][k] == m[j][k] / d
    ensures ColumnTotal(r, k, n) == ColumnTotal(m, k, n) / d
  {
    if n > 0 {
      ColumnTotalDivided(m, r, k, n - 1, d);
      SumOfQuotients(ColumnTotal(m, k, n - 1), m[n - 1][k], d);
    }
  }

  /** A row step brings every entry strictly between 0 and 1 and every row sum R to R / (R + eps) < 1. */
  lemma RowStepBounds(m: Matrix, hc: nat, eps: real)
    requires Square(m, hc) && Positive(m) && eps > 0.0
    ensures InUnit(RowStep(m, hc, eps))
    ensures forall j :: 0 <= j < hc ==>
      RowTotal(m, j, hc) > 0.0 &&
      RowTotal(RowStep(m, hc, eps), j, hc) == RowTotal(m, j, hc) / (RowTotal(m, j, hc) + eps) < 1.0
  {
    var r := RowStep(m, hc, eps);
    forall j | 0 <= j < hc
      ensures RowTotal(m, j, hc) > 0.0
      ensures RowTotal(r, j, hc) == RowTotal(m, j, hc) / (RowTotal(m, j, hc) + eps) < 1.0
      ensures forall k :: 0 <= k < hc ==> 0.0 < r[j][k] < 1.0
    {
      RowTotalPositive(m, j, hc);
      var d := RowTotal(m, j, hc) + eps;
      RowTotalDivided(m, r, j, hc, d);
      DivideBelowOne(RowTotal(m, j, hc), d);
      forall k | 0 <= k < hc
        ensures 0.0 < r[j][k] < 1.0
      {
        DivideBelowOne(m[j][k], d);
      }
    }
  }

  /** The same for a column step and the column sums. */
  lemma ColumnStepBounds(m: Matrix, hc: nat, eps: real)
    requires Square(m, hc) && Positive(m) && eps > 0.0
    ensures InUnit(ColumnStep(m, hc, eps))
    ensures forall k :: 0 <= k < hc ==>
      ColumnTotal(m, k, hc) > 0.0 &&
      ColumnTotal(ColumnStep(m, hc, eps), k, hc) == ColumnTotal(m, k, hc) / (ColumnTotal(m, k, hc) + eps) < 1.0
  {
    var r := ColumnStep(m, hc, eps);
    forall k | 0 <= k < hc
      ensures ColumnTotal(m, k, hc) > 0.0
      ensures ColumnTotal(r, k, hc) == ColumnTotal(m, k, hc) / (ColumnTotal(m, k, hc) + eps) < 1.0
      ensures forall j :: 0 <= j < hc ==> 0.0 < r[j][k] < 1.0
    {
      ColumnTotalPositive(m, k, hc);
      var d := ColumnTotal(m, k, hc) + eps;
      ColumnTotalDivided(m, r, k, hc, d);
      DivideBelowOne(ColumnTotal(m, k, hc), d);
      forall j | 0 <= j < hc
        ensures 0.0 < r[j][k] < 1.0
      {
        DivideBelowOne(m[j][k], d);
      }
    }
  }

  lemma SoftmaxPlusEpsPositive(m: Matrix, hc: nat, eps: real)
    requires Square(m, hc) && Positive(m) && eps > 0.0
    ensures Positive(SoftmaxPlusEps(m, hc, eps))
  {
    forall j, k | 0 <= j < hc && 0 <= k < hc
      ensures SoftmaxPlusEps(m, hc, eps)[j][k] > 0.0
    {
      RowTotalPositive(m, j, hc);
      DivideBelowOne(m[j][k], RowTotal(m, j, hc) + 1.0);
      PositiveQuotient(m[j][k], RowTotal(m, j, hc));
    }
  }

  lemma PositiveQuotient(a: real, b: real)
    requires a > 0.0 && b > 0.0
    ensures a / b > 0.0
  {
  }

  // ----- The whole computation

  /** q is a / d. */
  ghost predicate Quotient(a: real, d: real, q: real) {
    q * d == a
  }

  /** r is m with every entry divided by its row's total plus eps, and its rows then add up to less than 1. */
  ghost predicate RowsDivided(m: Matrix, r: Matrix, hc: nat, eps: real) {
    && Square(m, hc) && Square(r, hc) && InUnit(r)
    && (forall j, k :: 0 <= j < hc && 0 <= k < hc ==> Quotient(m[j][k], RowTotal(m, j, hc) + eps, r[j][k]))
    && (forall j :: 0 <= j < hc ==> RowTotal(r, j, hc) < 1.0)
  }

  ghost predicate ColumnsDivided(m: Matrix, r: Matrix, hc: nat, eps: real) {
    && Square(m, hc) && Square(r, hc) && InUnit(r)
    && (forall j, k :: 0 <= j < hc && 0 <= k < hc ==> Quotient(m[j][k], ColumnTotal(m, k, hc) + eps, r[j][k]))
    && (forall k :: 0 <= k < hc ==> ColumnTotal(r, k, hc) < 1.0)
  }

  /** m is the softmax of each row of logits, plus eps: less eps, an entry's share of its row is that of
      exp(logit - row maximum). */
  ghost predicate SoftmaxOf(exp: real -> real, logits: Matrix, m: Matrix, hc: nat, eps: real) {
    && Square(logits, hc) && Square(m, hc) && hc > 0
    && forall j, k :: 0 <= j < hc && 0 <= k < hc ==>
         Quotient(exp(logits[j][k] - RowMax(logits[j])), ShiftedSum(exp, logits[j], hc), m[j][k] - eps)
  }

  /** The sum of exp(x - max) over the first n entries of a row. */
  function ShiftedSum(exp: real -> real, row: Vector, n: nat): real
    requires n <= |row| && |row| > 0
  {
    if n == 0 then 0.0 else ShiftedSum(exp, row, n - 1) + exp(row[n - 1] - RowMax(row))
  }

  /** The matrices of the computation: the softmax and its columns divided, then for each round the rows of
      the matrix before it divided and the columns of that. */
  ghost predicate Chain(exp: real -> real, logits: Matrix, hc: nat, eps: real, sinkhornRepeat: int,
                        softmax: Matrix, rows: seq<Matrix>, rounds: seq<Matrix>)
  {
    && SoftmaxOf(exp, logits, softmax, hc, eps)
    && |rounds| == (if sinkhornRepeat > 1 then sinkhornRepeat else 1) && |rows| == |rounds| - 1
    && ColumnsDivided(softmax, rounds[0], hc, eps)
    && forall i :: 0 <= i < |rows| ==> RowsDivided(rounds[i], rows[i], hc, eps) && ColumnsDivided(rows[i], rounds[i + 1], hc, eps)
  }

  ghost predicate IsCombMix(exp: real -> real, logits: Matrix, hc: nat, eps: real, sinkhornRepeat: int, cm: Matrix) {
    exists softmax, rows, rounds ::
      Chain(exp, logits, hc, eps, sinkhornRepeat, softmax, rows, rounds) && cm == rounds[|rounds| - 1]
  }

  lemma IsQuotient(a: real, d: real)
    requires d != 0.0
    ensures Quotient(a, d, a / d)
  {
  }

  lemma RowStepDivides(m: Matrix, hc: nat, eps: real)
    requires Square(m, hc) && Positive(m) && eps > 0.0
    ensures RowsDivided(m, RowStep(m, hc, eps), hc, eps)
  {
    RowStepBounds(m, hc, eps);
    var r := RowStep(m, hc, eps);
    forall j, k | 0 <= j < hc && 0 <= k < hc
      ensures Quotient(m[j][k], RowTotal(m, j, hc) + eps, r[j][k])
    {
      hide Quotient, RowTotal;
      IsQuotient(m[j][k], RowTotal(m, j, hc) + eps);
    }
    hide RowStep, Quotient, RowTotal;
  }

  lemma ColumnStepDivides(m: Matrix, hc: nat, eps: real)
    requires Square(m, hc) && Positive(m) && eps > 0.0
    ensures ColumnsDivided(m, ColumnStep(m, hc, eps), hc, eps)
  {
    ColumnStepBounds(m, hc, eps);
    var r := ColumnStep(m, hc, eps);
    forall j, k | 0 <= j < hc && 0 <= k < hc
      ensures Quotient(m[j][k], ColumnTotal(m, k, hc) + eps, r[j][k])
    {
      hide Quotient, ColumnTotal;
      IsQuotient(m[j][k], ColumnTotal(m, k, hc) + eps);
    }
    hide ColumnStep, Quotient, ColumnTotal;
  }

  lemma {:induction false} TotalIsShiftedSum(exp: real -> real, m: Matrix, hc: nat, j: nat, n: nat)
    requires Square(m, hc) && hc > 0 && j < hc && n <= hc
    ensures RowTotal(Exponentials(exp, m, hc), j, n) == ShiftedSum(exp, m[j], n)
  {
    if n > 0 { TotalIsShiftedSum(exp, m, hc, j, n - 1); }
  }

  lemma SoftmaxDivides(exp: real -> real, logits: Matrix, hc: nat, eps: real)
    requires Square(logits, hc) && hc > 0 && Positive(Exponentials(exp, logits, hc))
    ensures SoftmaxOf(exp, logits, SoftmaxPlusEps(Exponentials(exp, logits, hc), hc, eps), hc, eps)
  {
    var e := Exponentials(exp, logits, hc);
    var m := SoftmaxPlusEps(e, hc, eps);
    forall j, k | 0 <= j < hc && 0 <= k < hc
      ensures Quotient(exp(logits[j][k] - RowMax(logits[j])), ShiftedSum(exp, logits[j], hc), m[j][k] - eps)
    {
      hide Quotient, RowTotal, ShiftedSum, Exponentials, RowMax;
      RowTotalPositive(e, j, hc);
      TotalIsShiftedSum(exp, logits, hc, j, hc);
      IsQuotient(e[j][k], RowTotal(e, j, hc));
    }
    hide SoftmaxPlusEps, Exponentials, Quotient, ShiftedSum, RowMax;
  }

  /** The whole computation.  For every eps > 0 and any number of repetitions the entries of the mixing
      matrix lie strictly between 0 and 1 and its column sums strictly below 1. */
  method CombMix(exp: real -> real, logits: Matrix, hc: nat, eps: real, sinkhornRepeat: int)
    returns (cm: Matrix, ghost softmax: Matrix, ghost rows: seq<Matrix>, ghost rounds: seq<Matrix>)
    requires Square(logits, hc) && hc > 0 && eps > 0.0
    requires forall x :: exp(x) > 0.0
    ensures Square(cm, hc) && InUnit(cm)
    ensures forall k :: 0 <= k < hc ==> ColumnTotal(cm, k, hc) < 1.0
    ensures Chain(exp, logits, hc, eps, sinkhornRepeat, softmax, rows, rounds) && cm == rounds[|rounds| - 1]
    ensures IsCombMix(exp, logits, hc, eps, sinkhornRepeat, cm)
  {
    cm := Exponentials(exp, logits, hc);
    SoftmaxPlusEpsPositive(cm, hc, eps);
    SoftmaxDivides(exp, logits, hc, eps);
    cm := SoftmaxPlusEps(cm, hc, eps);
    softmax := cm;
    ColumnStepDivides(cm, hc, eps);
    cm := ColumnStep(cm, hc, eps);
    rows, rounds := [], [cm];
    hide SoftmaxOf, Quotient, RowStep, ColumnStep, SoftmaxPlusEps, Exponentials, RowTotal, ColumnTotal;
    var count := if sinkhornRepeat > 1 then sinkhornRepeat - 1 else 0;
    for r := 0 to count
      invariant Square(cm, hc) && InUnit(cm) && |rows| == r && |rounds| == r + 1 && cm == rounds[r]
      invariant ColumnsDivided(softmax, rounds[0], hc, eps)
      invariant forall i :: 0 <= i < r ==> RowsDivided(rounds[i], rows[i], hc, eps) && ColumnsDivided(rows[i], rounds[i + 1], hc, eps)
    {
      RowStepDivides(cm, hc, eps);
      cm := RowStep(cm, hc, eps);
      rows := rows + [cm];
      ColumnStepDivides(cm, hc, eps);
      cm := ColumnStep(cm, hc, eps);
      rounds := rounds + [cm];
    }
    assert ColumnsDivided(if count == 0 then softmax else rows[count - 1], cm, hc, eps);
  }

  /** From the second round on the result is a matrix with columns below 1, its rows divided and then its
      columns. */
  lemma LastRound(exp: real -> real, logits: Matrix, hc: nat, eps: real, sinkhornRepeat: int, cm: Matrix) returns (a: Matrix, m: Matrix)
    requires IsCombMix(exp, logits, hc, eps, sinkhornRepeat, cm) && sinkhornRepeat >= 2
    ensures Square(a, hc) && forall k :: 0 <= k < hc ==> ColumnTotal(a, k, hc) < 1.0
    ensures RowsDivided(a, m, hc, eps) && ColumnsDivided(m, cm, hc, eps)
    ensures IsCombMix(exp, logits, hc, eps, sinkhornRepeat - 1, a)
  {
    hide SoftmaxOf;
    var softmax, rows, rounds :| Chain(exp, logits, hc, eps, sinkhornRepeat, softmax, rows, rounds) && cm == rounds[|rounds| - 1];
    var n := |rows| - 1;
    a, m := rounds[n], rows[n];
    assert RowsDivided(rounds[n], rows[n], hc, eps);
    assert n > 0 ==> ColumnsDivided(rows[n - 1], rounds[n - 1 + 1], hc, eps);
    assert Chain(exp, logits, hc, eps, sinkhornRepeat - 1, softmax, rows[..n], rounds[..n + 1]);
  }

  predicate Multiplies(exp: real -> real, x: real, y: real) {
    exp(x + y) == exp(x) * exp(y)
  }

  /** Subtracting the row maximum does not change the softmax: entry over row total is the same
      fraction as exp(x) over the plain total, said without division. */
  lemma ShiftKeepsSoftmax(exp: real -> real, m: Matrix, hc: nat, j: nat, k: nat)
    requires Square(m, hc) && j < hc && k < hc
    requires forall x, y :: Multiplies(exp, x, y)
    ensures Exponentials(exp, m, hc)[j][k] * PlainTotal(exp, m[j], hc) ==
            exp(m[j][k]) * RowTotal(Exponentials(exp, m, hc), j, hc)
  {
    hide Exponentials, RowMax, Multiplies, PlainTotal, RowTotal;
    ShiftedEntry(exp, m, hc, j, k);
    ShiftedTotal(exp, m, hc, j, hc);
  }

  /** So the softmax of the computation is the plain one: exp(x) over the row's total, with no maximum. */
  lemma SoftmaxIsPlain(exp: real -> real, logits: Matrix, m: Matrix, hc: nat, eps: real, j: nat, k: nat)
    requires SoftmaxOf(exp, logits, m, hc, eps) && j < hc && k < hc
    requires (forall x, y :: Multiplies(exp, x, y)) && forall x :: exp(x) > 0.0
    ensures Quotient(exp(logits[j][k]), PlainTotal(exp, logits[j], hc), m[j][k] - eps)
  {
    hide Quotient, Multiplies, PlainTotal, ShiftedSum, RowMax, Exponentials, RowTotal;
    ShiftedEntry(exp, logits, hc, j, k);
    ShiftedTotal(exp, logits, hc, j, hc);
    TotalIsShiftedSum(exp, logits, hc, j, hc);
    Cancel(m[j][k] - eps, PlainTotal(exp, logits[j], hc), exp(logits[j][k]), exp(-RowMax(logits[j])),
           ShiftedSum(exp, logits[j], hc), exp(logits[j][k] - RowMax(logits[j])));
  }

  lemma Cancel(q: real, total: real, a: real, c: real, shiftedTotal: real, shifted: real)
    requires c > 0.0 && shifted == a * c && shiftedTotal == total * c && Quotient(shifted, shiftedTotal, q)
    ensures Quotient(a, total, q)
  {
    assert (q * total - a) * c == 0.0;
  }

  lemma ShiftedEntry(exp: real -> real, m: Matrix, hc: nat, j: nat, k: nat)
    requires Square(m, hc) && j < hc && k < hc
    requires forall x, y :: Multiplies(exp, x, y)
    ensures Exponentials(exp, m, hc)[j][k] == exp(m[j][k]) * exp(-RowMax(m[j]))
  {
    assert Multiplies(exp, m[j][k], -RowMax(m[j]));
  }

  function PlainTotal(exp: real -> real, row: Vector, n: nat): real
    requires n <= |row|
  {
    if n == 0 then 0.0 else PlainTotal(exp, row, n - 1) + exp(row[n - 1])
  }

  lemma {:induction false} ShiftedTotal(exp: real -> real, m: Matrix, hc: nat, j: nat, n: nat)
    requires Square(m, hc) && j < hc && n <= hc
    requires forall x, y :: Multiplies(exp, x, y)
    ensures RowTotal(Exponentials(exp, m, hc), j, n) == PlainTotal(exp, m[j], n) * exp(-RowMax(m[j]))
  {
    hide Exponentials, RowMax, Multiplies;
    if n > 0 {
      ShiftedTotal(exp, m, hc, j, n - 1);
      ShiftedEntry(exp, m, hc, j, n - 1);
    }
  }
}
