/**
 Polynomials over the field of two elements, as the sets of their exponents,
 with addition, multiplication and division with remainder.
 */
module Gf2 {

  type Poly = set<nat>

  function Add(a: Poly, b: Poly): Poly {
    (a - b) + (b - a)
  }

  /** Multiplication by a power of x. */
  function Raise(a: Poly, k: nat): Poly {
    set e | e in a :: e + k
  }

  /** The sum of the multiples of `g` that `q` selects: `q[i]` is the coefficient of x to the i. */
  function Product(q: seq<bool>, g: Poly): Poly {
    if q == [] then {}
    else
      var n := |q| - 1;
      Add(Product(q[..n], g), if q[n] then Raise(g, n) else {})
  }

  ghost predicate DegreeBelow(a: Poly, d: nat) {
    forall e :: e in a ==> e < d
  }

  ghost predicate HasDegree(g: Poly, d: nat) {
    d in g && DegreeBelow(g, d + 1)
  }

  /** `a` is a multiple of `g` plus `r`, and `r` has a smaller degree than `g`. */
  ghost predicate IsRemainder(a: Poly, g: Poly, d: nat, r: Poly) {
    DegreeBelow(r, d) && exists q :: a == Add(Product(q, g), r)
  }

  // ---------------------------------------------------------------------
  // Laws
  // ---------------------------------------------------------------------

  lemma AddAt(a: Poly, b: Poly, e: nat)
    ensures e in Add(a, b) <==> (e in a) != (e in b)
  {}

  lemma AddAssoc(a: Poly, b: Poly, c: Poly)
    ensures Add(Add(a, b), c) == Add(a, Add(b, c))
  {}

  lemma AddComm(a: Poly, b: Poly)
    ensures Add(a, b) == Add(b, a)
  {}

  lemma AddSelf(a: Poly, b: Poly)
    ensures Add(a, Add(a, b)) == b && Add(a, {}) == a && Add({}, a) == a
  {}

  lemma RaiseAt(a: Poly, k: nat, e: nat)
    ensures e in Raise(a, k) <==> e >= k && e - k in a
  {
    if e >= k && e - k in a {
      assert (e - k) + k in Raise(a, k);
    }
  }

  lemma RaiseAdd(a: Poly, b: Poly, k: nat)
    ensures Raise(Add(a, b), k) == Add(Raise(a, k), Raise(b, k))
  {
    forall e
      ensures e in Raise(Add(a, b), k) <==> e in Add(Raise(a, k), Raise(b, k))
    {
      if e >= 0 {
        RaiseAt(a, k, e);
        RaiseAt(b, k, e);
        RaiseAt(Add(a, b), k, e);
      }
    }
  }

  lemma RaiseTwice(a: Poly, j: nat, k: nat)
    ensures Raise(Raise(a, j), k) == Raise(a, j + k)
  {
    forall e: nat
      ensures e in Raise(Raise(a, j), k) <==> e in Raise(a, j + k)
    {
      RaiseAt(a, j + k, e);
      RaiseAt(Raise(a, j), k, e);
      if e >= k {
        RaiseAt(a, j, e - k);
      }
    }
  }

  /** A new lowest coefficient. */
  lemma {:induction false} ProductCons(c: bool, q: seq<bool>, g: Poly)
    ensures Product([c] + q, g) == Add(Raise(Product(q, g), 1), if c then g else {})
    decreases |q|
  {
    var none: Poly, all := {}, [c] + q;
    if q == [] {
      assert all[..0] == [];
      RaiseTwice(g, 0, 0);
      assert Raise(g, 0) == g;
    } else {
      var n := |q| - 1;
      var low, top := if c then g else none, if q[n] then Raise(g, n) else none;
      ProductCons(c, q[..n], g);
      assert all[..n + 1] == [c] + q[..n];
      RaiseTwice(g, n, 1);
      RaiseAdd(Product(q[..n], g), top, 1);
      assert Raise(none, 1) == none;
      var rest, up := Raise(Product(q[..n], g), 1), Raise(top, 1);
      assert Product(all, g) == Add(Add(rest, low), up);
      AddAssoc(rest, low, up);
      AddComm(low, up);
      AddAssoc(rest, up, low);
    }
  }

  // ---------------------------------------------------------------------
  // Remainders are unique
  // ---------------------------------------------------------------------

  lemma Cancel(x: Poly, r: Poly, y: Poly, r': Poly)
    requires Add(x, r) == Add(y, r')
    ensures Add(x, y) == Add(r, r')
  {
    forall e
      ensures e in Add(x, y) <==> e in Add(r, r')
    {
      assert e in Add(x, r) <==> e in Add(y, r');
    }
  }

  lemma SumOfEquals(r: Poly, r': Poly)
    ensures Add(r, r') == {} <==> r == r'
  {
    if Add(r, r') == {} {
      assert forall e :: e in r ==> e in r' by {
        assert forall e :: e !in Add(r, r');
      }
    }
  }

  lemma {:induction false} PadProduct(q: seq<bool>, k: nat, g: Poly)
    ensures Product(q + seq(k, _ => false), g) == Product(q, g)
    decreases k
  {
    var p := q + seq(k, _ => false);
    if k == 0 {
      assert p == q;
    } else {
      PadProduct(q, k - 1, g);
      assert p[..|p| - 1] == q + seq(k - 1, _ => false);
      AddSelf(Product(q, g), {});
    }
  }

  function Mix(p: seq<bool>, q: seq<bool>): seq<bool>
    requires |p| == |q|
  {
    seq(|p|, i requires 0 <= i < |p| => p[i] != q[i])
  }

  lemma {:induction false} MixProduct(p: seq<bool>, q: seq<bool>, g: Poly)
    requires |p| == |q|
    ensures Product(Mix(p, q), g) == Add(Product(p, g), Product(q, g))
    decreases |p|
  {
    if p != [] {
      var n := |p| - 1;
      MixProduct(p[..n], q[..n], g);
      assert Mix(p, q)[..n] == Mix(p[..n], q[..n]);
    }
  }

  /** A nonzero multiple of `g` has at least its degree. */
  lemma {:induction false} MultiplesAreLarge(q: seq<bool>, g: Poly, d: nat)
    requires HasDegree(g, d)
    ensures DegreeBelow(Product(q, g), d + |q|)
    ensures DegreeBelow(Product(q, g), d) ==> Product(q, g) == {}
    decreases |q|
  {
    if q != [] {
      var n := |q| - 1;
      MultiplesAreLarge(q[..n], g, d);
      if q[n] {
        RaiseAt(g, n, d + n);
        assert d + n in Product(q, g);
      } else {
        AddSelf(Product(q[..n], g), {});
      }
    }
  }

  /** Division leaves one remainder only. */
  lemma RemainderUnique(a: Poly, g: Poly, d: nat, r: Poly, r': Poly)
    requires HasDegree(g, d) && IsRemainder(a, g, d, r) && IsRemainder(a, g, d, r')
    ensures r == r'
  {
    hide Product, Mix, HasDegree;
    var q :| a == Add(Product(q, g), r);
    var q' :| a == Add(Product(q', g), r');
    var n := if |q| < |q'| then |q'| else |q|;
    PadProduct(q, n - |q|, g);
    PadProduct(q', n - |q'|, g);
    var p, p' := q + seq(n - |q|, _ => false), q' + seq(n - |q'|, _ => false);
    MixProduct(p, p', g);
    Cancel(Product(p, g), r, Product(p', g), r');
    MultiplesAreLarge(Mix(p, p'), g, d);
    assert DegreeBelow(Add(r, r'), d);
    SumOfEquals(r, r');
  }
}
