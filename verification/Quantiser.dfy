/** dynamic_per_token_int8_quant_ref of vllm/_xpu_ops.py, one row of it, over exact reals. */
module Quantiser {

  function Pow2(n: nat): (r: nat)
    ensures r > n
  {
    if n == 0 then 1 else 2 * Pow2(n - 1)
  }

  function Abs(x: real): real {
    if x < 0.0 then -x else x
  }

  function Max(x: real, y: real): real {
    if x < y then y else x
  }

  function RowMin(row: seq<real>): (m: real)
    requires row != []
    ensures m in row && forall i :: 0 <= i < |row| ==> m <= row[i]
  {
    if |row| == 1 then row[0]
    else
      var m := RowMin(row[..|row| - 1]);
      if row[|row| - 1] < m then row[|row| - 1] else m
  }

  function RowMax(row: seq<real>): (m: real)
    requires row != []
    ensures m in row && forall i :: 0 <= i < |row| ==> row[i] <= m
  {
    if |row| == 1 then row[0]
    else Max(RowMax(row[..|row| - 1]), row[|row| - 1])
  }

  /** Round to nearest, ties to even. */
  function Round(x: real): (r: int)
    ensures Abs(r as real - x) <= 0.5
  {
    var f := x.Floor;
    var d := x - f as real;
    if d < 0.5 || (d == 0.5 && f % 2 == 0) then f else f + 1
  }

  function Clamp(n: int, lo: int, hi: int): int {
    if n < lo then lo else if n > hi then hi else n
  }

  datatype Mode = Mode(symmetric: bool, bits: nat) {
    /** One bit has no room for a symmetric range. */
    predicate Usable() {
      if symmetric then bits >= 2 else bits >= 1
    }

    function QMin(): int
      requires Usable()
    {
      var half: int := Pow2(bits - 1);
      if symmetric then -half else 0
    }

    function QMax(): (r: int)
      requires Usable()
      ensures r > 0
    {
      if symmetric then Pow2(bits - 1) - 1 else Pow2(bits) - 1
    }

    function Scale(row: seq<real>): (s: real)
      requires Usable() && row != []
      ensures s >= 0.00001
    {
      var range := if symmetric then Max(Abs(RowMin(row)), Abs(RowMax(row))) else RowMax(row) - RowMin(row);
      Max(Steps(range, QMax() as real), 0.00001)
    }

    /** The zero point before it is stored as a 32-bit integer. */
    function ZeroPoint(row: seq<real>): int
      requires Usable() && row != []
    {
      if symmetric then 0 else -Round(Steps(RowMin(row), Scale(row)))
    }
  }

  /** The quantised range has 2^bits values: from zero on, or half of them negative. */
  lemma RangeIsFull(m: Mode)
    requires m.Usable()
    ensures m.QMax() - m.QMin() + 1 == Pow2(m.bits)
    ensures if m.symmetric then m.QMin() + m.QMax() == -1 else m.QMin() == 0
  {
    assert Pow2(m.bits) == 2 * Pow2(m.bits - 1);
  }

  /** x in units of the scale. */
  function Steps(x: real, scale: real): real
    requires scale > 0.0
  {
    x / scale
  }

  function Quantized(x: real, scale: real, zeroPoint: int, qmin: int, qmax: int): int
    requires scale > 0.0
  {
    Clamp(Round(Steps(x, scale) + zeroPoint as real), qmin, qmax)
  }

  function Dequantized(q: int, scale: real, zeroPoint: int): real {
    (q - zeroPoint) as real * scale
  }

  function Error(x: real, scale: real, zeroPoint: int, qmin: int, qmax: int): real
    requires scale > 0.0
  {
    Abs(Dequantized(Quantized(x, scale, zeroPoint, qmin, qmax), scale, zeroPoint) - x)
  }

  lemma ScaledError(x: real, scale: real, n: int)
    requires scale > 0.0
    ensures Abs(n as real * scale - x) <= scale / 2.0 <==> Abs(Steps(x, scale) - n as real) <= 0.5
  {
    var y := x / scale;
    assert x == y * scale;
    var d := n as real - y;
    assert n as real * scale - x == d * scale;
    StepsAndHalves(d, scale);
  }

  lemma StepsAndHalves(d: real, scale: real)
    requires scale > 0.0
    ensures Abs(d * scale) <= scale / 2.0 <==> Abs(d) <= 0.5
  {
    assert d * scale == (d - 0.5) * scale + scale / 2.0 == (d + 0.5) * scale - scale / 2.0;
    SameSign(d - 0.5, scale);
    SameSign(d + 0.5, scale);
  }

  lemma SameSign(d: real, scale: real)
    requires scale > 0.0
    ensures d * scale > 0.0 <==> d > 0.0
    ensures d * scale < 0.0 <==> d < 0.0
  {
  }

  lemma DivMonotone(a: real, b: real, scale: real)
    requires a <= b && scale > 0.0
    ensures Steps(a, scale) <= Steps(b, scale)
  {
    assert (b - a) * (1.0 / scale) >= 0.0;
    assert b / scale - a / scale == (b - a) * (1.0 / scale);
  }

  lemma StepsLinear(a: real, b: real, scale: real)
    requires scale > 0.0
    ensures Steps(a - b, scale) == Steps(a, scale) - Steps(b, scale) && Steps(0.0, scale) == 0.0
  {
  }

  /** Despite the clamp, a value is off by at most a half exactly if it is within a half of the range. */
  lemma ClampedRound(y: real, qmin: int, qmax: int)
    requires qmin <= qmax
    ensures Abs(y - Clamp(Round(y), qmin, qmax) as real) <= 0.5 <==> qmin as real - 0.5 <= y <= qmax as real + 0.5
  {
  }

  /** For one element, whatever scale and zero point are used. */
  lemma ElementWithinHalf(x: real, scale: real, zeroPoint: int, qmin: int, qmax: int)
    requires scale > 0.0 && qmin <= qmax
    ensures Error(x, scale, zeroPoint, qmin, qmax) <= scale / 2.0 <==>
            qmin as real - 0.5 <= Steps(x, scale) + zeroPoint as real <= qmax as real + 0.5
  {
    hide Steps, Round, Clamp;
    var y := Steps(x, scale) + zeroPoint as real;
    var q := Clamp(Round(y), qmin, qmax);
    ClampedRound(y, qmin, qmax);
    ScaledError(x, scale, q - zeroPoint);
    assert (q - zeroPoint) as real == q as real - zeroPoint as real;
  }

  /** For a row: every element comes back within half a scale step exactly if the extremes stay within half
      a step of the quantised range. */
  lemma RowWithinHalf(row: seq<real>, scale: real, zeroPoint: int, qmin: int, qmax: int)
    requires row != [] && scale > 0.0 && qmin <= qmax
    ensures (forall i :: 0 <= i < |row| ==> Error(row[i], scale, zeroPoint, qmin, qmax) <= scale / 2.0) <==>
            qmin as real - 0.5 <= Steps(RowMin(row), scale) + zeroPoint as real && Steps(RowMax(row), scale) + zeroPoint as real <= qmax as real + 0.5
  {
    forall i | 0 <= i < |row|
      ensures Steps(RowMin(row), scale) <= Steps(row[i], scale) <= Steps(RowMax(row), scale)
      ensures Error(row[i], scale, zeroPoint, qmin, qmax) <= scale / 2.0 <==>
              qmin as real - 0.5 <= Steps(row[i], scale) + zeroPoint as real <= qmax as real + 0.5
    {
      DivMonotone(RowMin(row), row[i], scale);
      DivMonotone(row[i], RowMax(row), scale);
      ElementWithinHalf(row[i], scale, zeroPoint, qmin, qmax);
    }
  }

  /** The scale is wide enough for the range of the row. */
  lemma ScaleCovers(m: Mode, row: seq<real>)
    requires m.Usable() && row != []
    ensures var range := if m.symmetric then Max(Abs(RowMin(row)), Abs(RowMax(row))) else RowMax(row) - RowMin(row);
            Steps(range, m.Scale(row)) <= m.QMax() as real
  {
    var range := if m.symmetric then Max(Abs(RowMin(row)), Abs(RowMax(row))) else RowMax(row) - RowMin(row);
    var q, s := m.QMax() as real, m.Scale(row);
    WideEnough(range, q, s);
  }

  /** x is q steps of this scale. */
  ghost predicate Spans(x: real, scale: real, q: int) {
    x == scale * q as real
  }

  /** The scale is no wider than it must be: unless it is at its floor, the extremes of the row span the whole
      quantised range, on either side of zero in symmetric mode. */
  lemma ScaleIsTight(m: Mode, row: seq<real>)
    requires m.Usable() && row != []
    ensures m.Scale(row) == 0.00001 ||
            if m.symmetric then exists x :: x in row && Spans(Abs(x), m.Scale(row), m.QMax())
            else Spans(RowMax(row) - RowMin(row), m.Scale(row), m.QMax())
  {
    hide Spans, Steps, Pow2, RowMin, RowMax;
    if m.symmetric {
      var x := if Abs(RowMin(row)) < Abs(RowMax(row)) then RowMax(row) else RowMin(row);
      assert x in row;
      StepsBack(Abs(x), m.QMax());
    } else {
      StepsBack(RowMax(row) - RowMin(row), m.QMax());
    }
  }

  lemma StepsBack(x: real, q: int)
    requires q > 0
    ensures Spans(x, Steps(x, q as real), q)
  {
  }

  lemma WideEnough(range: real, q: real, s: real)
    requires q > 0.0 && s > 0.0 && s >= Steps(range, q)
    ensures Steps(range, s) <= q
  {
    SameSign(s - range / q, q);
    assert (s - range / q) * q == s * q - range;
    DivMonotone(range, s * q, s);
    assert s * q / s == q;
  }

  /** Symmetric mode: half a step, and the clamp never acts. */
  lemma SymmetricWithinHalf(m: Mode, row: seq<real>, i: nat)
    requires m.symmetric && m.Usable() && i < |row|
    ensures Error(row[i], m.Scale(row), m.ZeroPoint(row), m.QMin(), m.QMax()) <= m.Scale(row) / 2.0
    ensures -m.QMax() <= Round(Steps(row[i], m.Scale(row))) <= m.QMax() && m.QMin() < -m.QMax()
  {
    hide Steps, Mode.Scale, RowMin, RowMax, Round, Clamp, Error, Pow2;
    var s := m.Scale(row);
    var range := Max(Abs(RowMin(row)), Abs(RowMax(row)));
    ScaleCovers(m, row);
    DivMonotone(row[i], range, s);
    DivMonotone(-range, row[i], s);
    StepsLinear(0.0, range, s);
    ElementWithinHalf(row[i], s, 0, m.QMin(), m.QMax());
  }

  /** Asymmetric mode: half a step, though the clamp can act on a tie. */
  lemma AsymmetricWithinHalf(m: Mode, row: seq<real>)
    requires !m.symmetric && m.Usable() && row != []
    ensures forall i :: 0 <= i < |row| ==> Error(row[i], m.Scale(row), m.ZeroPoint(row), m.QMin(), m.QMax()) <= m.Scale(row) / 2.0
  {
    hide Steps, Mode.Scale, RowMin, RowMax, Round, Clamp, Error, Pow2;
    var s := m.Scale(row);
    ScaleCovers(m, row);
    StepsLinear(RowMax(row), RowMin(row), s);
    RowWithinHalf(row, s, m.ZeroPoint(row), m.QMin(), m.QMax());
  }

  function AsInt8(n: int): int {
    (n + 128) % 256 - 128
  }

  function AsUint8(n: int): int {
    n % 256
  }

  function Stored(m: Mode, n: int): int {
    if m.symmetric then AsInt8(n) else AsUint8(n)
  }

  /** The 8-bit store keeps every quantised value of every row exactly if there are at most 8 bits. */
  lemma StoreKeepsIff(m: Mode)
    requires m.Usable()
    ensures m.bits <= 8 <==> forall n :: m.QMin() <= n <= m.QMax() ==> Stored(m, n) == n
  {
    if m.bits <= 8 {
      Pow2Monotone(m.bits, 8);
      Pow2Monotone(m.bits - 1, 7);
    } else {
      Pow2Monotone(9, m.bits);
      Pow2Monotone(8, m.bits - 1);
      assert Stored(m, m.QMax()) != m.QMax();
    }
  }

  lemma {:induction false} Pow2Monotone(a: nat, b: nat)
    requires a <= b
    ensures Pow2(a) <= Pow2(b)
    ensures Pow2(7) == 128 && Pow2(8) == 256 && Pow2(9) == 512
    decreases b - a
  {
    if a < b {
      Pow2Monotone(a, b - 1);
    }
    assert Pow2(3) == 8 && Pow2(6) == 64;
  }

  /** And the largest value does occur: in a row that runs from 0 to it. */
  lemma LargestOccurs(m: Mode)
    requires m.Usable()
    ensures var row := [0.0, m.QMax() as real];
            m.Scale(row) == 1.0 && m.ZeroPoint(row) == 0 && Quantized(row[1], m.Scale(row), m.ZeroPoint(row), m.QMin(), m.QMax()) == m.QMax()
  {
    var q := m.QMax() as real;
    var row := [0.0, q];
    assert row[..1] == [0.0];
    assert RowMin(row) == 0.0 && RowMax(row) == q;
    StepsOfOne(q, q);
    StepsOfOne(0.0, q);
    hide Steps, Pow2, RowMin, RowMax;
    assert m.Scale(row) == 1.0;
    hide Mode.Scale;
    assert m.ZeroPoint(row) == 0;
  }

  lemma StepsOfOne(x: real, q: real)
    requires q > 0.0
    ensures Steps(x, 1.0) == x && Steps(q, q) == 1.0
  {
  }

  /** How far off an element is when it is read back from the stored byte. */
  function ByteError(m: Mode, x: real, scale: real, zeroPoint: int): real
    requires m.Usable() && scale > 0.0
  {
    Abs(Dequantized(Stored(m, Quantized(x, scale, zeroPoint, m.QMin(), m.QMax())), scale, zeroPoint) - x)
  }

  /** Every element of the row is read back within half a scale step. */
  ghost predicate ComesBack(m: Mode, row: seq<real>, zeroPoint: int)
    requires m.Usable() && row != []
  {
    forall i :: 0 <= i < |row| ==> ByteError(m, row[i], m.Scale(row), zeroPoint) <= m.Scale(row) / 2.0
  }

  lemma ByteKeepsError(m: Mode, x: real, scale: real, zeroPoint: int)
    requires m.Usable() && m.bits <= 8 && scale > 0.0
    ensures ByteError(m, x, scale, zeroPoint) == Error(x, scale, zeroPoint, m.QMin(), m.QMax())
  {
    StoreKeepsIff(m);
    hide Stored, Round, Steps;
  }

  /** When the stored row comes back, for any zero point. */
  lemma ComesBackIff(m: Mode, row: seq<real>, zeroPoint: int)
    requires m.Usable() && row != [] && m.bits <= 8
    ensures ComesBack(m, row, zeroPoint) <==>
            m.QMin() as real - 0.5 <= Steps(RowMin(row), m.Scale(row)) + zeroPoint as real &&
            Steps(RowMax(row), m.Scale(row)) + zeroPoint as real <= m.QMax() as real + 0.5
  {
    hide Steps, Mode.Scale, RowMin, RowMax, Error, ByteError, Pow2;
    forall i | 0 <= i < |row|
      ensures ByteError(m, row[i], m.Scale(row), zeroPoint) == Error(row[i], m.Scale(row), zeroPoint, m.QMin(), m.QMax())
    {
      ByteKeepsError(m, row[i], m.Scale(row), zeroPoint);
    }
    RowWithinHalf(row, m.Scale(row), zeroPoint, m.QMin(), m.QMax());
  }

  /** Symmetric mode with at most 8 bits always comes back. */
  lemma SymmetricComesBack(m: Mode, row: seq<real>)
    requires m.symmetric && m.Usable() && row != [] && m.bits <= 8
    ensures ComesBack(m, row, m.ZeroPoint(row))
  {
    hide Mode.Scale, Error, ByteError;
    forall i | 0 <= i < |row|
      ensures ByteError(m, row[i], m.Scale(row), m.ZeroPoint(row)) <= m.Scale(row) / 2.0
    {
      SymmetricWithinHalf(m, row, i);
      ByteKeepsError(m, row[i], m.Scale(row), m.ZeroPoint(row));
    }
  }

  const INT32: int := 0x8000_0000

  predicate IsInt32(n: int) {
    -INT32 <= n < INT32
  }

  /** -1 * c in 32 bits. */
  function Negated(c: int): int
    requires IsInt32(c)
  {
    if c == -INT32 then c else -c
  }

  /** c is what the conversion of the rounded quotient to 32 bits may give: the number itself if it fits,
      anything at all if it does not. */
  predicate Converted(m: Mode, row: seq<real>, c: int)
    requires !m.symmetric && m.Usable() && row != []
  {
    var rounded := Round(Steps(RowMin(row), m.Scale(row)));
    IsInt32(c) && (IsInt32(rounded) ==> c == rounded)
  }

  /** A zero point that is off by two, or by two more than the range, ruins the row. */
  lemma FarZeroPointFails(m: Mode, row: seq<real>, w: int)
    requires !m.symmetric && m.Usable() && row != [] && m.bits <= 8
    requires w - m.ZeroPoint(row) <= -2 || w - m.ZeroPoint(row) >= m.QMax() + 2
    ensures !ComesBack(m, row, w)
  {
    hide Steps, Mode.Scale, RowMin, RowMax, ComesBack, Pow2;
    ComesBackIff(m, row, w);
    DivMonotone(RowMin(row), RowMax(row), m.Scale(row));
  }

  /** Asymmetric mode with at most 8 bits comes back, whatever the conversion makes of a number that does not
      fit, exactly if the exact zero point and its negation both fit in 32 bits. */
  lemma AsymmetricComesBackIff(m: Mode, row: seq<real>)
    requires !m.symmetric && m.Usable() && row != [] && m.bits <= 8
    ensures (forall c :: Converted(m, row, c) ==> ComesBack(m, row, Negated(c))) <==> -INT32 < m.ZeroPoint(row) < INT32
  {
    var z := m.ZeroPoint(row);
    StoreKeepsIff(m);
    SmallRange(m);
    if -INT32 < z < INT32 {
      AsymmetricExact(m, row);
      hide Steps, Mode.Scale, RowMin, RowMax, ComesBack, Round;
      assert forall c :: Converted(m, row, c) ==> Negated(c) == z;
    } else {
      hide Steps, Mode.Scale, RowMin, RowMax, ComesBack, Round;
      var c := if z == INT32 then -INT32 else 0;
      assert Converted(m, row, c);
      FarZeroPointFails(m, row, Negated(c));
    }
  }

  lemma SmallRange(m: Mode)
    requires m.Usable() && m.bits <= 8
    ensures m.QMax() <= 255
  {
    Pow2Monotone(m.bits, 8);
    Pow2Monotone(m.bits - 1, 8);
  }

  lemma AsymmetricExact(m: Mode, row: seq<real>)
    requires !m.symmetric && m.Usable() && row != [] && m.bits <= 8
    ensures ComesBack(m, row, m.ZeroPoint(row))
  {
    AsymmetricWithinHalf(m, row);
    hide Mode.Scale, Mode.ZeroPoint, Error, ByteError;
    forall i | 0 <= i < |row|
      ensures ByteError(m, row[i], m.Scale(row), m.ZeroPoint(row)) <= m.Scale(row) / 2.0
    {
      ByteKeepsError(m, row[i], m.Scale(row), m.ZeroPoint(row));
    }
  }

  /** A row whose zero point does not fit: a constant one, where the scale is at its floor. */
  lemma ConstantRowOverflows()
    ensures Mode(false, 8).ZeroPoint([1000000.0]) == -100000000000 < -INT32
    ensures exists c :: Converted(Mode(false, 8), [1000000.0], c) && !ComesBack(Mode(false, 8), [1000000.0], Negated(c))
  {
    var m, row := Mode(false, 8), [1000000.0];
    assert m.Scale(row) == 0.00001;
    assert 1000000.0 / 0.00001 == 100000000000.0;
    assert m.ZeroPoint(row) == -100000000000;
    hide Mode.ZeroPoint, Mode.Scale, Steps, Round, ComesBack, Converted;
    AsymmetricComesBackIff(m, row);
  }

  /** With more than 8 bits the byte loses some row in either mode. */
  lemma MoreBitsLose(m: Mode)
    requires m.Usable() && m.bits > 8
    ensures var row := [0.0, m.QMax() as real]; m.ZeroPoint(row) == 0 && !ComesBack(m, row, 0)
  {
    var q := m.QMax();
    var row := [0.0, q as real];
    LargestOccurs(m);
    Pow2Monotone(9, m.bits);
    Pow2Monotone(8, m.bits - 1);
    assert Stored(m, q) != q;
    hide Steps, Mode.Scale, Pow2, Round, RowMin, RowMax;
    assert ByteError(m, row[1], 1.0, 0) > 0.5;
  }
}
