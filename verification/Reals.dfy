/** Signs, quotients and repeated sums of exact reals, kept apart from the proofs that use them. */
module Reals {

  function Min(a: real, b: real): real {
    if a <= b then a else b
  }

  function Max(a: real, b: real): real {
    if a <= b then b else a
  }

  lemma {:induction false} SignOfProduct(a: real, b: real)
    requires b > 0.0
    ensures a < 0.0 ==> a * b < 0.0
    ensures a >= 0.0 ==> a * b >= 0.0
    ensures a <= 0.0 ==> a * b <= 0.0
  {
  }

  lemma {:induction false} Quotient(a: real, b: real, q: real)
    requires b > 0.0 && q * b == a
    ensures a / b == q
  {
  }

  lemma {:induction false} KeepFactor(x: real, y: real, b: real)
    requires b > 0.0
    ensures x <= y ==> x * b <= y * b
    ensures x < y ==> x * b < y * b
  {
    SignOfProduct(x - y, b);
    assert (x - y) * b == x * b - y * b;
  }

  lemma {:induction false} QuotientAtLeast(a: real, b: real, q: real)
    requires b > 0.0 && q * b <= a
    ensures q <= a / b
  {
    assert a / b * b == a;
    KeepFactor(a / b, q, b);
  }

  lemma {:induction false} QuotientBelow(a: real, b: real, q: real)
    requires b > 0.0 && a < q * b
    ensures a / b < q
  {
    assert a / b * b == a;
    KeepFactor(q, a / b, b);
  }

  function Repeated(n: nat, cost: real): real {
    if n == 0 then 0.0 else Repeated(n - 1, cost) + cost
  }

  lemma {:induction false} RepeatedIsProduct(n: nat, cost: real)
    ensures Repeated(n, cost) == n as real * cost
  {
    if n > 0 {
      RepeatedIsProduct(n - 1, cost);
      var m := (n - 1) as real;
      assert (m + 1.0) * cost == m * cost + cost;
    }
  }

  lemma {:induction false} RepeatedGrows(n: nat, m: nat, cost: real)
    requires 0.0 <= cost && n <= m
    ensures 0.0 <= Repeated(n, cost) <= Repeated(m, cost)
  {
    if m > n { RepeatedGrows(n, m - 1, cost); } else if n > 0 { RepeatedGrows(n - 1, n - 1, cost); }
  }
}
