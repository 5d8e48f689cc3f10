/** Powers of two and the highest bit of a number: size classes are cut by them. */
module Bits {

  /** The position of the highest set bit. */
  function HighBit(n: nat): (s: nat)
    requires n > 0
  {
    if n == 1 then 0 else 1 + HighBit(n / 2)
  }

  function Pow2(s: nat): (r: nat)
    ensures r > 0
  {
    if s == 0 then 1 else 2 * Pow2(s - 1)
  }

  lemma {:induction false} HighBitBounds(n: nat)
    requires n > 0
    ensures Pow2(HighBit(n)) <= n < 2 * Pow2(HighBit(n))
  {
    if n > 1 {
      HighBitBounds(n / 2);
    }
  }

  lemma {:induction false} HighBitMonotone(a: nat, b: nat)
    requires 0 < a <= b
    ensures HighBit(a) <= HighBit(b)
  {
    if a > 1 {
      HighBitMonotone(a / 2, b / 2);
    }
  }

  /** The top three bits of `n`, the highest of which is set. */
  lemma TopBits(n: nat)
    requires n > 0 && HighBit(n) >= 2
    ensures 4 <= n / Pow2(HighBit(n) - 2) < 8
  {
    var s := HighBit(n);
    HighBitBounds(n);
    var p := Pow2(s - 2);
    assert Pow2(s) == 2 * Pow2(s - 1) == 4 * p;
    assert 4 * p <= n < 8 * p;
    DivBound(n, p, 3);
    DivBound(n, p, 7);
  }

  lemma DivBound(n: nat, p: nat, q: nat)
    requires p > 0
    ensures n / p <= q ==> n < (q + 1) * p
    ensures n / p > q ==> n >= (q + 1) * p
  {
    var d := n / p;
    assert n == d * p + n % p;
    if d <= q { assert d * p <= q * p; } else { assert d * p >= (q + 1) * p; }
  }

  lemma DivMonotone(a: nat, b: nat, p: nat)
    requires a <= b && p > 0
    ensures a / p <= b / p
  {
    if a / p > b / p {
      DivBound(b, p, b / p);
      DivBound(a, p, b / p);
    }
  }
}
