/** Facts about natural-number division used to read shifts as divisions. */
module DivMod {

  /** 2 to the power `n`. */
  function Pow2(n: nat): (r: nat)
    ensures r > 0
  {
    if n == 0 then 1 else 2 * Pow2(n - 1)
  }

  /** Multiplying by `d` keeps a gap of at least `d` between different factors. */
  lemma MulStepBelow(d: nat, x: nat, y: nat)
    requires x < y
    ensures d * x + d <= d * y
  {
    var k := y - x - 1;
    assert y == (x + 1) + k;
    assert d * y == d * (x + 1) + d * k;
    assert d * (x + 1) == d * x + d;
  }

  /** Quotient and remainder are unique. */
  lemma DivUnique(a: nat, d: nat, q: nat, r: nat)
    requires d > 0 && 0 <= r < d && a == d * q + r
    ensures a / d == q
  {
    var q' := a / d;
    var r' := a % d;
    assert a == d * q' + r';
    if q' < q {
      MulStepBelow(d, q', q);
      assert false;
    } else if q' > q {
      MulStepBelow(d, q, q');
      assert false;
    }
  }

  /** Dividing by `b` and then by two is dividing by `2 * b`. */
  lemma DivDivTwo(a: nat, b: nat)
    requires b > 0
    ensures a / b / 2 == a / (2 * b)
  {
    var q1 := a / b;
    var r1 := a % b;
    var q2 := q1 / 2;
    var r2 := q1 % 2;
    assert a == b * q1 + r1;
    assert q1 == 2 * q2 + r2;
    assert a == (2 * b) * q2 + (b * r2 + r1);
    assert b * r2 <= b;
    DivUnique(a, 2 * b, q2, b * r2 + r1);
  }

  /** Powers of two add in the exponent. */
  lemma {:induction false} Pow2Add(a: nat, b: nat)
    ensures Pow2(a + b) == Pow2(a) * Pow2(b)
  {
    if a > 0 {
      Pow2Add(a - 1, b);
      assert Pow2(a + b) == 2 * Pow2(a - 1 + b);
    }
  }

  /** 2 to the 32 is one past the largest `uint32_t`. */
  lemma Pow2Of32()
    ensures Pow2(32) == 0x1_0000_0000
  {
    assert Pow2(8) == 0x100;
    Pow2Add(8, 8);
    Pow2Add(16, 16);
  }
}
