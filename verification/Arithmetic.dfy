/** Powers and repeated division. */
module Arithmetic {

  function Pow(b: nat, e: nat): (p: nat)
    requires b > 0
    ensures p > 0
  {
    if e == 0 then 1 else
      Positive(b, Pow(b, e - 1));
      b * Pow(b, e - 1)
  }

  lemma Positive(a: nat, b: nat)
    requires a > 0 && b > 0
    ensures a * b > 0
  {}

  lemma {:induction false} PowAdd(b: nat, m: nat, n: nat)
    requires b > 0
    ensures Pow(b, m + n) == Pow(b, m) * Pow(b, n)
  {
    if m > 0 {
      PowAdd(b, m - 1, n);
      assert Pow(b, m + n) == b * Pow(b, m - 1 + n);
      assert b * (Pow(b, m - 1) * Pow(b, n)) == (b * Pow(b, m - 1)) * Pow(b, n);
    }
  }

  lemma {:induction false} PowMul(b: nat, m: nat, n: nat)
    requires b > 0
    ensures Pow(Pow(b, m), n) == Pow(b, m * n)
  {
    if n > 0 {
      PowMul(b, m, n - 1);
      assert m * n == m + m * (n - 1);
      PowAdd(b, m, m * (n - 1));
    }
  }

  lemma {:induction false} PowMonotone(b: nat, m: nat, n: nat)
    requires b > 0 && m <= n
    ensures Pow(b, m) <= Pow(b, n)
  {
    if m < n {
      PowMonotone(b, m, n - 1);
      var p := Pow(b, n - 1);
      assert b * p >= p by { assert (b - 1) * p >= 0; }
    }
  }

  lemma MulAtLeast(k: int, d: nat)
    requires k >= 1
    ensures k * d >= d
  {}

  lemma DivUnique(a: nat, d: nat, q: nat, r: nat)
    requires d > 0 && r < d && a == q * d + r
    ensures a / d == q && a % d == r
  {
    var k := q - a / d;
    assert a == a / d * d + a % d;
    assert k * d == a % d - r;
    assert -k * d == -(k * d);
    if k >= 1 { MulAtLeast(k, d); }
    if k <= -1 { MulAtLeast(-k, d); }
  }

  lemma DivDiv(a: nat, m: nat, n: nat)
    requires m > 0 && n > 0
    ensures m * n > 0
    ensures a / (m * n) == a / m / n
  {
    Positive(m, n);
    var q, r := a / m, a % m;
    assert a == m * q + r && q == n * (q / n) + q % n;
    DivDivParts(a, m, n, q, r, q / n, q % n);
  }

  lemma DivDivParts(a: nat, m: nat, n: nat, q: nat, r: nat, q': nat, r': nat)
    requires m * n > 0 && a == m * q + r && q == n * q' + r' && r < m && r' < n
    ensures a / (m * n) == q'
  {
    Regroup(m, n, q', r');
    RemainderFits(m, n, r', r);
    DivUnique(a, m * n, q', m * r' + r);
  }

  lemma Regroup(m: nat, n: nat, q: nat, r: nat)
    ensures m * (n * q + r) == q * (m * n) + m * r
  {
    assert m * (n * q) == q * (m * n);
  }

  lemma RemainderFits(m: nat, n: nat, high: nat, low: nat)
    requires low < m && high < n
    ensures m * high + low < m * n
  {
    var gap := n - 1 - high;
    assert m * n == m * high + m + m * gap;
    assert m * gap >= 0;
  }
}
