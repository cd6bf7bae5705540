/** Powers of two and the index of the most significant set bit. */
module Bits {

  function Pow2(k: nat): (r: nat)
    ensures r > 0
  {
    if k == 0 then 1 else 2 * Pow2(k - 1)
  }

  function Msb(n: nat): nat
    requires n > 0
  {
    if n == 1 then 0 else 1 + Msb(n / 2)
  }

  lemma {:induction false} MsbBounds(n: nat)
    requires n > 0
    ensures Pow2(Msb(n)) <= n < 2 * Pow2(Msb(n))
  {
    if n > 1 {
      MsbBounds(n / 2);
    }
  }

  lemma {:induction false} Pow2Mono(j: nat, k: nat)
    requires j <= k
    ensures Pow2(j) <= Pow2(k)
  {
    if j < k {
      Pow2Mono(j, k - 1);
    }
  }

  lemma MsbAtLeast(n: nat, k: nat)
    requires n > 0
    ensures Msb(n) >= k <==> n >= Pow2(k)
  {}

  lemma MulMono(a: nat, b: nat, u: nat)
    requires a <= b
    ensures a * u <= b * u
  {}

  lemma QuotientIs(x: nat, u: nat, q: nat)
    requires u > 0 && q * u <= x < q * u + u
    ensures x / u == q
  {
    var d := x / u;
    assert d * u <= x < d * u + u;
    if d < q {
      MulMono(d + 1, q, u);
    } else if q < d {
      MulMono(q + 1, d, u);
    }
  }

  lemma MultipleMod(w: nat, k: nat)
    requires w > 0
    ensures (w * k) % w == 0
  {
    var q, r := (w * k) / w, (w * k) % w;
    assert r == w * (k - q) by {
      assert w * k == w * q + r;
    }
    BelowOne(w, k - q, r);
  }

  lemma BelowOne(w: nat, d: int, r: int)
    requires w > 0 && r == w * d && 0 <= r < w
    ensures r == 0
  {}

  lemma ModIs(x: nat, a: nat)
    requires a > 0 && x % a == 0
    ensures x == a * (x / a)
  {}

  lemma ModSum(x: nat, y: nat, a: nat)
    requires a > 0 && x % a == 0 && y % a == 0
    ensures (x + y) % a == 0
  {
    ModIs(x, a);
    ModIs(y, a);
    var p, q := x / a, y / a;
    assert x + y == a * (p + q);
    MultipleMod(a, p + q);
  }

  lemma ModProduct(x: nat, k: nat, a: nat)
    requires a > 0 && x % a == 0
    ensures (k * x) % a == 0
  {
    ModIs(x, a);
    var p := x / a;
    assert k * x == a * (k * p);
    MultipleMod(a, k * p);
  }

  lemma ModTrans(x: nat, b: nat, a: nat)
    requires a > 0 && b > 0 && x % b == 0 && b % a == 0
    ensures x % a == 0
  {
    ModIs(x, b);
    ModProduct(b, x / b, a);
  }

  /** Smaller powers of two divide larger ones. */
  lemma {:induction false} Pow2Divides(j: nat, k: nat)
    requires j <= k
    ensures Pow2(k) % Pow2(j) == 0
    decreases k - j
  {
    if j == k {
      MultipleMod(Pow2(j), 1);
    } else {
      Pow2Divides(j, k - 1);
      ModProduct(Pow2(k - 1), 2, Pow2(j));
    }
  }
}
