/** Unsigned 8-bit numbers and the operators on them, written out arithmetically. */
module Bytes {
  import opened Arithmetic

  type Byte = x: int | 0 <= x < 256

  /** `x >> j`. */
  function Shr(x: Byte, j: nat): (r: Byte)
    requires j < 8
  {
    DivShrinks(x, Pow(2, j));
    x / Pow(2, j)
  }

  /** `x << j`: bits beyond the eighth are lost. */
  function Shl(x: Byte, j: nat): (r: Byte)
    requires j < 8
  {
    x * Pow(2, j) % 256
  }

  /** `a | b`, bit by bit. */
  function Or(a: nat, b: nat): (r: nat)
    ensures forall k: nat :: a < Pow(2, k) && b < Pow(2, k) ==> r < Pow(2, k)
  {
    if a == 0 then b
    else if b == 0 then a
    else
      var high := Or(a / 2, b / 2);
      assert forall k: nat :: a < Pow(2, k) && b < Pow(2, k) ==> k > 0 && a / 2 < Pow(2, k - 1) && b / 2 < Pow(2, k - 1);
      2 * high + (if a % 2 == 1 || b % 2 == 1 then 1 else 0)
  }

  /** `a & b`, bit by bit. */
  function And(a: nat, b: nat): (r: nat)
    ensures r <= a && r <= b
  {
    if a == 0 || b == 0 then 0
    else 2 * And(a / 2, b / 2) + (if a % 2 == 1 && b % 2 == 1 then 1 else 0)
  }

  lemma DivShrinks(x: nat, p: nat)
    requires p > 0
    ensures 0 <= x / p <= x
  {
    assert x == p * (x / p) + x % p;
    MulAtLeast(p, x / p);
  }

  /** Bits that do not overlap add up. */
  lemma {:induction false} OrIsSum(a: nat, q: nat, k: nat)
    requires a < Pow(2, k)
    ensures Or(a, q * Pow(2, k)) == a + q * Pow(2, k)
  {
    if a > 0 && q > 0 {
      var p := Pow(2, k - 1);
      assert q * Pow(2, k) == 2 * (q * p);
      OrIsSum(a / 2, q, k - 1);
    }
  }

  /** Masking with k ones is the remainder modulo 2^k. */
  lemma {:induction false} MaskIsModulo(c: nat, k: nat)
    ensures And(c, Pow(2, k) - 1) == c % Pow(2, k)
  {
    if k > 0 {
      var p := Pow(2, k - 1);
      MaskIsModulo(c / 2, k - 1);
      HalfModulo(c, p);
      assert (2 * p - 1) / 2 == p - 1;
    }
  }

  lemma HalfModulo(c: nat, p: nat)
    requires p > 0
    ensures c % (2 * p) == 2 * (c / 2 % p) + c % 2
  {
    var h := c / 2;
    var q, r := h / p, h % p;
    assert h == p * q + r;
    assert c == q * (2 * p) + (2 * r + c % 2) by {
      assert q * (2 * p) == 2 * (p * q);
    }
    DivUnique(c, 2 * p, q, 2 * r + c % 2);
  }
}
