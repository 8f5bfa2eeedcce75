/** Minimum, maximum and powers of two, and division facts that the solver does not find unaided. */
module Arithmetic {

  /** One more than the largest size_t, uintptr_t and block number. */
  const TWO64: nat := 0x1_0000_0000_0000_0000

  function Max(a: nat, b: nat): nat {
    if a > b then a else b
  }

  function Min(a: nat, b: nat): nat {
    if a < b then a else b
  }

  function Pow2(k: nat): (r: nat)
    ensures r >= 1
  {
    if k == 0 then 1 else 2 * Pow2(k - 1)
  }

  lemma DivUnique(x: int, d: int, q: int, r: int)
    requires d > 0 && 0 <= r < d && x == d * q + r
    ensures x / d == q && x % d == r
  {
    assert d * (x / d - q) == r - x % d;
    MulOutside(d, x / d - q);
  }

  lemma MulOutside(d: int, z: int)
    requires d > 0
    ensures z >= 1 ==> d * z >= d
    ensures z <= -1 ==> d * z <= -d
  {
  }

  lemma ModShift(a: int, d: int, k: int)
    requires d > 0
    ensures (a - d * k) % d == a % d
  {
    assert a - d * k == d * (a / d - k) + a % d;
    DivUnique(a - d * k, d, a / d - k, a % d);
  }

  lemma MultipleOf(x: int, d: int, e: int)
    requires d > 0 && e > 0 && x % (d * e) == 0
    ensures x % d == 0
  {
    var q := x / (d * e);
    assert x == d * e * q == d * (e * q);
    DivUnique(x, d, e * q, 0);
  }
}
