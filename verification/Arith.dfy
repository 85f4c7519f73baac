/** The few facts of integer and real arithmetic that the solver needs to be told. */
module Arith {

  lemma FloorMul(a: nat, b: nat)
    requires b > 0
    ensures (a / b) * b <= a < (a / b) * b + b
    ensures a - (a / b) * b == a % b
  {
    assert a == b * (a / b) + a % b;
  }

  lemma MulLe(a: int, b: int, c: nat)
    requires a <= b
    ensures a * c <= b * c
  {
  }

  /** Division is the only way to write a as q * b + r with 0 <= r < b. */
  lemma DivUnique(a: int, b: int, q: int, r: int)
    requires b > 0 && a == q * b + r && 0 <= r < b
    ensures a / b == q && a % b == r
  {
    var d := a / b - q;
    assert a == b * (a / b) + a % b;
    assert d * b == r - a % b;
    if d > 0 {
      MulLe(1, d, b);
    } else if d < 0 {
      MulLe(d, -1, b);
    }
  }

  function Gcd(a: nat, b: nat): nat
    decreases b
  {
    if b == 0 then a else Gcd(b, a % b)
  }

  lemma {:induction false} GcdDivides(a: nat, b: nat)
    requires a > 0 || b > 0
    ensures Gcd(a, b) > 0 && a % Gcd(a, b) == 0 && b % Gcd(a, b) == 0
    decreases b
  {
    if b == 0 {
      DivUnique(a, a, 1, 0);
      DivUnique(0, a, 0, 0);
    } else {
      GcdDivides(b, a % b);
      var g := Gcd(b, a % b);
      var p, q := b / g, (a % b) / g;
      FloorMul(b, g);
      FloorMul(a % b, g);
      assert a == b * (a / b) + a % b;
      assert a == (p * (a / b) + q) * g;
      DivUnique(a, g, p * (a / b) + q, 0);
    }
  }
}
