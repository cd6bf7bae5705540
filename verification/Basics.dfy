/** What several components share: optional results, the 64 KiB page, lists and their sets. */
module Basics {

  datatype Option<T> = None | Some(value: T)

  // ---------------------------------------------------------------------
  // Pages
  // ---------------------------------------------------------------------

  const PAGE_SIZE: nat := 65536

  /** The page an address lies in: its low sixteen bits masked away. */
  function PageOf(x: nat): nat {
    x - x % PAGE_SIZE
  }

  lemma Masked(page: nat, offset: nat)
    requires page % PAGE_SIZE == 0 && offset < PAGE_SIZE
    ensures PageOf(page + offset) == page && (page + offset) % PAGE_SIZE == offset
  {}

  // ---------------------------------------------------------------------
  // Bitmap words as sets of their one bits
  // ---------------------------------------------------------------------

  /** The lowest clear bit from `i` on, or `width` when there is none. */
  function LowestClear(used: set<nat>, i: nat, width: nat): nat
    decreases width - i
  {
    if i < width && i in used then LowestClear(used, i + 1, width) else i
  }

  lemma {:induction false} LowestClearIs(used: set<nat>, i: nat, width: nat)
    requires i <= width && forall j :: 0 <= j < i ==> j in used
    ensures var r := LowestClear(used, i, width);
            i <= r <= width && (forall j :: 0 <= j < r ==> j in used) && (r < width ==> r !in used)
    decreases width - i
  {
    if i < width && i in used {
      LowestClearIs(used, i + 1, width);
    }
  }

  // ---------------------------------------------------------------------
  // Lists without repetition
  // ---------------------------------------------------------------------

  ghost predicate Distinct(xs: seq<nat>) {
    forall j, k :: 0 <= j < k < |xs| ==> xs[j] != xs[k]
  }

  function Without(xs: seq<nat>, k: nat): seq<nat>
    requires k < |xs|
  {
    xs[..k] + xs[k + 1..]
  }

  lemma WithoutIs(xs: seq<nat>, k: nat)
    requires k < |xs| && Distinct(xs)
    ensures Distinct(Without(xs, k))
    ensures forall x :: x in Without(xs, k) <==> x in xs && x != xs[k]
  {}

  ghost function Elements(xs: seq<nat>): set<nat> {
    set x | x in xs
  }

  lemma {:induction false} DistinctCount(xs: seq<nat>)
    requires Distinct(xs)
    ensures |Elements(xs)| == |xs|
    decreases |xs|
  {
    if xs != [] {
      var n := |xs| - 1;
      DistinctCount(xs[..n]);
      assert xs == xs[..n] + [xs[n]];
      assert Elements(xs) == Elements(xs[..n]) + {xs[n]};
    }
  }

  ghost function Below(n: nat): set<nat> {
    if n == 0 then {} else Below(n - 1) + {n - 1}
  }

  lemma {:induction false} BelowIs(n: nat)
    ensures |Below(n)| == n && forall x: nat :: x in Below(n) <==> x < n
  {
    if n > 0 {
      BelowIs(n - 1);
    }
  }

  lemma SubsetCount(a: set<nat>, b: set<nat>)
    requires a <= b
    ensures |a| <= |b|
  {
    assert b == a + (b - a);
  }
}
