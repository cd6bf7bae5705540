/**
 How many pairs of free buddies there are, and how many merges it takes to be
 rid of them.
 */
module FreePairs {
  import opened BuddyTree

  /** The blocks above level `l` whose two halves are both free. */
  function Pairs(alloc: Bitmaps, split: Bitmaps, l: nat): set<nat>
    requires l < TOP
  {
    set i | i in split[l + 1] && IsFree(alloc, split, l, 2 * i) && IsFree(alloc, split, l, 2 * i + 1)
  }

  /** Over the levels below `n`. */
  function PairCount(alloc: Bitmaps, split: Bitmaps, n: nat): nat
    requires n <= TOP
  {
    if n == 0 then 0 else PairCount(alloc, split, n - 1) + |Pairs(alloc, split, n - 1)|
  }

  /** Split blocks at level `n` and below; every merge of two buddies makes them one fewer. */
  function SplitCount(split: Bitmaps, n: nat): nat
    requires n <= TOP
  {
    if n == 0 then |split[0]| else SplitCount(split, n - 1) + |split[n]|
  }

  lemma NoPairsIsEmpty(alloc: Bitmaps, split: Bitmaps, l: nat)
    requires l < TOP
    ensures NoPairAt(alloc, split, l) <==> Pairs(alloc, split, l) == {}
  {
    if NoPairAt(alloc, split, l) {
      forall i | i in split[l + 1]
        ensures !(IsFree(alloc, split, l, 2 * i) && IsFree(alloc, split, l, 2 * i + 1))
      {
        assert Sibling(2 * i) == 2 * i + 1;
      }
    } else {
      var i: nat :| IsFree(alloc, split, l, i) && IsFree(alloc, split, l, Sibling(i));
      assert i / 2 in Pairs(alloc, split, l);
    }
  }

  // ---------------------------------------------------------------------
  // A merge and what follows from it use up one pair
  // ---------------------------------------------------------------------

  lemma {:induction false} ReachStops(alloc: Bitmaps, split: Bitmaps, p: nat, l: nat)
    requires l <= TOP
    ensures var m := Reach(alloc, split, p, l); m < TOP ==> !IsFree(alloc, split, m, Sibling(Shr(p, m)))
    decreases TOP - l
  {
    if l < TOP && IsFree(alloc, split, l, Sibling(Shr(p, l))) {
      ReachStops(alloc, split, p, l + 1);
    }
  }

  /** Of the blocks of level `k`, only the one around `p` and its buddy can have changed. */
  lemma OthersAsBefore(alloc: Bitmaps, split0: Bitmaps, split: Bitmaps, p: nat, l: nat, m: nat, k: nat, i: nat)
    requires SplitUp(split0, split, p, l, m) && l <= m <= TOP && k < TOP && i != Shr(p, k + 1)
    ensures i in Pairs(alloc, split, k) <==> i in Pairs(alloc, split0, k)
  {
    var q := Shr(p, k);
    assert Shr(p, k + 1) == q / 2;
    hide Shr;
    assert split[k] + {q} == split0[k] + {q};
    assert split[k + 1] + {q / 2} == split0[k + 1] + {q / 2};
    hide SplitUp;
    SameFree(alloc, split0, split, k, q, 2 * i);
    SameFree(alloc, split0, split, k, q, 2 * i + 1);
  }

  lemma SameFree(alloc: Bitmaps, split0: Bitmaps, split: Bitmaps, k: nat, q: nat, c: nat)
    requires k < TOP && split[k] + {q} == split0[k] + {q} && split[k + 1] + {q / 2} == split0[k + 1] + {q / 2}
    requires c / 2 != q / 2
    ensures IsFree(alloc, split, k, c) <==> IsFree(alloc, split0, k, c)
    ensures c / 2 in split[k + 1] <==> c / 2 in split0[k + 1]
  {
    assert c / 2 in split[k + 1] <==> c / 2 in split[k + 1] + {q / 2};
    assert c in split[k] <==> c in split[k] + {q};
  }

  /** Below the level where merging starts and above the one where it ends nothing changed at all. */
  lemma FarAsBefore(alloc: Bitmaps, split0: Bitmaps, split: Bitmaps, p: nat, l: nat, m: nat, k: nat)
    requires SplitUp(split0, split, p, l, m) && l <= m <= TOP && k < TOP && (k < l || m < k)
    ensures Pairs(alloc, split, k) == Pairs(alloc, split0, k)
  {
    assert split[k] == split0[k] && split[k + 1] == split0[k + 1];
    assert forall c: nat :: IsFree(alloc, split, k, c) <==> IsFree(alloc, split0, k, c);
  }

  lemma HalfOf(p: nat, k: nat)
    ensures var q, up := Shr(p, k), Shr(p, k + 1); q == 2 * up || q == 2 * up + 1
    ensures var q, up := Shr(p, k), Shr(p, k + 1); Sibling(q) == 2 * up || Sibling(q) == 2 * up + 1
  {}

  /** At the levels merged through, the block around `p` was split before. */
  lemma SplitBefore(alloc: Bitmaps, split: Bitmaps, p: nat, l: nat, k: nat)
    requires TreeInv(alloc, split) && l < k < TOP && Live(split, l, Shr(p, l))
    ensures Shr(p, k + 1) !in Pairs(alloc, split, k)
  {
    AncestorSplit(alloc, split, p, l, k);
    hide Shr, TreeInv;
    HalfOf(p, k);
  }

  /** Afterwards it is gone, or the one merging ended with, whose buddy is not free. */
  lemma NoPairAfter(alloc: Bitmaps, split0: Bitmaps, split: Bitmaps, p: nat, l: nat, k: nat)
    requires l < k < TOP && k <= Reach(alloc, split0, p, l) && SplitUp(split0, split, p, l, Reach(alloc, split0, p, l))
    ensures Shr(p, k + 1) !in Pairs(alloc, split, k)
  {
    if k == Reach(alloc, split0, p, l) {
      ReachStops(alloc, split0, p, l);
      BuddyUntouched(alloc, split0, split, p, l, k);
      hide Shr, Reach, IsFree, SplitUp;
      HalfOf(p, k);
    } else {
      hide Shr, Reach, IsFree;
    }
  }

  /**
   Merging a free block with its free buddy, and the result with its own, and
   so on, uses up one pair at the level where it starts and none anywhere
   else: every further block it takes in had no free buddy before, and the
   block it ends with has none either.
   */
  lemma MergeUsesOnePair(alloc: Bitmaps, split0: Bitmaps, split: Bitmaps, p: nat, l: nat)
    requires TreeInv(alloc, split0) && l < TOP
    requires IsFree(alloc, split0, l, Shr(p, l)) && IsFree(alloc, split0, l, Sibling(Shr(p, l)))
    requires SplitUp(split0, split, p, l, Reach(alloc, split0, p, l))
    ensures Shr(p, l + 1) in Pairs(alloc, split0, l)
    ensures forall k :: 0 <= k < TOP ==>
              Pairs(alloc, split, k) == Pairs(alloc, split0, k) - if k == l then {Shr(p, l + 1)} else {}
  {
    var m, q := Reach(alloc, split0, p, l), Shr(p, l);
    HalfOf(p, l);
    assert m > l;
    assert Shr(p, l + 1) in Pairs(alloc, split0, l);
    hide IsFree, Shr, Reach, TreeInv, Pairs;
    forall k | 0 <= k < TOP
      ensures Pairs(alloc, split, k) == Pairs(alloc, split0, k) - if k == l then {Shr(p, l + 1)} else {}
    {
      PairsAsBefore(alloc, split0, split, p, l, k);
    }
  }

  lemma PairsAsBefore(alloc: Bitmaps, split0: Bitmaps, split: Bitmaps, p: nat, l: nat, k: nat)
    requires TreeInv(alloc, split0) && l < TOP && k < TOP && Live(split0, l, Shr(p, l)) && l < Reach(alloc, split0, p, l)
    requires SplitUp(split0, split, p, l, Reach(alloc, split0, p, l))
    ensures Pairs(alloc, split, k) == Pairs(alloc, split0, k) - if k == l then {Shr(p, l + 1)} else {}
  {
    var m, q := Reach(alloc, split0, p, l), Shr(p, k + 1);
    if k < l || m < k {
      FarAsBefore(alloc, split0, split, p, l, m, k);
    } else {
      if k == l {
        assert q !in split[k + 1];
      } else {
        SplitBefore(alloc, split0, p, l, k);
        NoPairAfter(alloc, split0, split, p, l, k);
      }
      assert q !in Pairs(alloc, split, k);
      hide IsFree, Shr, Reach, TreeInv, Pairs, SplitUp, Live;
      forall i: nat | i != q
        ensures i in Pairs(alloc, split, k) <==> i in Pairs(alloc, split0, k)
      {
        OthersAsBefore(alloc, split0, split, p, l, m, k, i);
      }
    }
  }

  // ---------------------------------------------------------------------
  // Pairs against merges
  // ---------------------------------------------------------------------

  /** The blocks of level `l` that would be merged from halves of which one is itself merged. */
  function Nested(alloc: Bitmaps, split: Bitmaps, l: nat): set<nat>
    requires 0 < l <= TOP
  {
    set i | i in split[l] && i !in CanonicalSplit(alloc, l) && (2 * i in split[l - 1] || 2 * i + 1 in split[l - 1])
  }

  function NestedCount(alloc: Bitmaps, split: Bitmaps, n: nat): nat
    requires n <= TOP
  {
    if n == 0 then 0 else NestedCount(alloc, split, n - 1) + |Nested(alloc, split, n)|
  }

  lemma HalfFree(alloc: Bitmaps, split: Bitmaps, l: nat, i: nat, c: nat)
    requires TreeInv(alloc, split) && 0 < l <= TOP && i in split[l] && c / 2 == i
    ensures IsFree(alloc, split, l - 1, c) <==> c !in split[l - 1] && c !in alloc[l - 1]
  {
    hide Width;
    assert Live(split, l, i);
    WidthHalf(c, l - 1);
  }

  lemma CanonicalHalves(alloc: Bitmaps, l: nat, i: nat)
    requires 0 < l <= TOP
    ensures var below := alloc[l - 1] + CanonicalSplit(alloc, l - 1);
            i in CanonicalSplit(alloc, l) <==> 2 * i in below || 2 * i + 1 in below
  {
    var below := alloc[l - 1] + CanonicalSplit(alloc, l - 1);
    assert 2 * i in below ==> (2 * i) / 2 in CanonicalSplit(alloc, l);
    assert 2 * i + 1 in below ==> (2 * i + 1) / 2 in CanonicalSplit(alloc, l);
  }

  lemma HalvesFree(alloc: Bitmaps, split: Bitmaps, l: nat, i: nat)
    requires TreeInv(alloc, split) && 0 < l <= TOP && i in split[l]
    requires CanonicalSplit(alloc, l - 1) <= split[l - 1]
    ensures i in Pairs(alloc, split, l - 1) <==> i !in CanonicalSplit(alloc, l) && i !in Nested(alloc, split, l)
  {
    HalfFree(alloc, split, l, i, 2 * i);
    HalfFree(alloc, split, l, i, 2 * i + 1);
    CanonicalHalves(alloc, l, i);
    hide TreeInv, IsFree, CanonicalSplit;
  }

  lemma CountParts(pairs: set<nat>, nested: set<nat>, whole: set<nat>, kept: set<nat>)
    requires kept <= whole && pairs <= whole && nested <= whole && nested !! kept
    requires forall i :: i in whole ==> (i in pairs <==> i !in kept && i !in nested)
    ensures |pairs| + |nested| == |whole| - |kept|
  {
    assert pairs !! nested && (pairs + nested) !! kept;
    assert whole == (pairs + nested) + kept;
  }

  lemma PairsAndNestedSplit(alloc: Bitmaps, split: Bitmaps, l: nat)
    requires 0 < l <= TOP
    ensures Pairs(alloc, split, l - 1) <= split[l] && Nested(alloc, split, l) <= split[l]
    ensures Nested(alloc, split, l) !! CanonicalSplit(alloc, l)
  {
    hide IsFree, CanonicalSplit;
  }

  /** The blocks that merging does away with are those with two free halves and those nested. */
  lemma PairsAndNested(alloc: Bitmaps, split: Bitmaps, l: nat)
    requires TreeInv(alloc, split) && 0 < l <= TOP
    ensures |Pairs(alloc, split, l - 1)| + |Nested(alloc, split, l)| == |split[l]| - |CanonicalSplit(alloc, l)|
  {
    hide TreeInv, CanonicalSplit, Pairs, Nested;
    CanonicalSplitBelow(alloc, split, l - 1);
    CanonicalSplitBelow(alloc, split, l);
    var pairs, nested, whole, kept := Pairs(alloc, split, l - 1), Nested(alloc, split, l), split[l], CanonicalSplit(alloc, l);
    PairsAndNestedSplit(alloc, split, l);
    forall i | i in whole
      ensures i in pairs <==> i !in kept && i !in nested
    {
      HalvesFree(alloc, split, l, i);
    }
    CountParts(pairs, nested, whole, kept);
  }

  lemma NoneAtBottom(alloc: Bitmaps, split: Bitmaps)
    requires TreeInv(alloc, split)
    ensures split[0] == CanonicalSplit(alloc, 0)
  {}

  /**
   What it takes to merge everything: one merge for each pair that is free at
   the outset, and one more for each block with a half that is itself merged.
   */
  lemma {:induction false} MergesNeeded(alloc: Bitmaps, split: Bitmaps, canon: Bitmaps, n: nat)
    requires TreeInv(alloc, split) && n <= TOP && forall l :: 0 <= l <= TOP ==> canon[l] == CanonicalSplit(alloc, l)
    ensures SplitCount(split, n) - SplitCount(canon, n) == PairCount(alloc, split, n) + NestedCount(alloc, split, n)
  {
    hide TreeInv, Pairs, CanonicalSplit, Nested;
    if n == 0 {
      NoneAtBottom(alloc, split);
    } else {
      MergesNeeded(alloc, split, canon, n - 1);
      PairsAndNested(alloc, split, n);
    }
  }
}
