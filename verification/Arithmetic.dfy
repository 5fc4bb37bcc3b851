/** Facts about products, quotients and remainders that the solver does not find alone. */
module Arithmetic {

  const U32: nat := 0x1_0000_0000
  const U64: nat := 0x1_0000_0000_0000_0000

  function Max(a: nat, b: nat): nat {
    if a < b then b else a
  }

  function Min(a: nat, b: nat): nat {
    if a < b then a else b
  }

  lemma MulMonotone(a: int, b: int, m: nat)
    requires a <= b
    ensures a * m <= b * m
  {}

  lemma DivModUnique(v: int, m: nat, q: int, r: nat)
    requires r < m && v == q * m + r
    ensures v / m == q && v % m == r
  {
    var k, s := v / m, v % m;
    assert v == k * m + s;
    if k < q {
      MulMonotone(k + 1, q, m);
    } else if k > q {
      MulMonotone(q + 1, k, m);
    }
  }

  lemma DivModIdentity(v: int, m: nat)
    requires m > 0
    ensures v == (v / m) * m + v % m && 0 <= v % m < m
  {}

  /** Dividing twice is dividing by the product. */
  lemma DivDiv(v: nat, a: nat, b: nat)
    requires a > 0 && b > 0 && a * b > 0
    ensures (v / a) / b == v / (a * b) && v % (a * b) == a * ((v / a) % b) + v % a
  {
    var w := v / a;
    DivModIdentity(v, a);
    DivModIdentity(w, b);
    var q, r := w / b, a * (w % b) + v % a;
    assert v == q * (a * b) + r by {
      assert w * a == (q * b + w % b) * a == q * (a * b) + a * (w % b);
    }
    assert r < a * b by {
      MulMonotone(w % b + 1, b, a);
      assert (w % b + 1) * a == a * (w % b) + a;
    }
    DivModUnique(v, a * b, q, r);
  }
}
