/** Powers of two, and remainders. */
module Arith {

  function Pow2(n: nat): (r: nat)
    ensures r > 0
  {
    if n == 0 then 1 else 2 * Pow2(n - 1)
  }

  lemma Pow2Next(n: nat)
    ensures Pow2(n + 1) == 2 * Pow2(n)
  {
  }

  lemma {:induction false} Pow2Sum(m: nat, n: nat)
    ensures Pow2(m + n) == Pow2(m) * Pow2(n)
  {
    hide Pow2;
    if n == 0 {
      Pow2Zero();
    } else {
      Pow2Sum(m, n - 1);
      Pow2Next(m + n - 1);
      Pow2Next(n - 1);
      var a, b := Pow2(m), Pow2(n - 1);
      assert a * (2 * b) == 2 * (a * b);
    }
  }

  lemma Pow2Zero()
    ensures Pow2(0) == 1
  {
  }

  lemma MulAtLeast(d: int, n: nat)
    ensures d >= 1 ==> d * n >= n
  {
    if d >= 1 {
      assert d * n == (d - 1) * n + n;
    }
  }

  /** Quotient and remainder are unique. */
  lemma ModIs(x: int, n: nat, q: int, r: nat)
    requires n > 0 && x == q * n + r && r < n
    ensures x % n == r && x / n == q
  {
    var d := q - x / n;
    assert d * n == q * n - x / n * n == x % n - r;
    MulAtLeast(d, n);
    MulAtLeast(-d, n);
    assert (-d) * n == -(d * n);
  }
}
