/**
 The binary tree behind one 256 KiB buddy arena, as encoded by the per-level
 alloc and split bitmaps. A bitmap word is the set of its one bits. Addresses
 are counted in 4 KiB pages from the arena base; the block with index `i` at
 level `l` holds the pages `p` with `Shr(p, l) == i`.
 */
module BuddyTree {

  const LEVELS: nat := 7
  const TOP: nat := 6
  const PAGES: nat := 64
  const MIN_BLOCK: nat := 4096
  const MAX_BLOCK: nat := 262144

  type Bitmaps = s: seq<set<nat>> | |s| == 7 witness [{}, {}, {}, {}, {}, {}, {}]

  // ---------------------------------------------------------------------
  // Index arithmetic
  // ---------------------------------------------------------------------

  /** `p >> l` */
  function Shr(p: nat, l: nat): nat {
    if l == 0 then p else Shr(p, l - 1) / 2
  }

  /** `i << l`: the first page of block `i` at level `l`. */
  function Shl(i: nat, l: nat): nat
    decreases l
  {
    if l == 0 then i else Shl(2 * i, l - 1)
  }

  /** The low `l` bits of `p` are clear. */
  predicate Aligned(p: nat, l: nat) {
    l == 0 || (Aligned(p, l - 1) && Shr(p, l - 1) % 2 == 0)
  }

  /** Number of blocks at level `l`. */
  function Width(l: nat): nat
    requires l <= TOP
    decreases TOP - l
  {
    if l == TOP then 1 else 2 * Width(l + 1)
  }

  /** `i ^ 1` */
  function Sibling(i: nat): nat {
    if i % 2 == 0 then i + 1 else i - 1
  }

  /** Bytes in a level-`l` block. */
  function BlockSize(l: nat): nat {
    if l == 0 then MIN_BLOCK else 2 * BlockSize(l - 1)
  }

  lemma {:induction false} ShrShl(i: nat, l: nat)
    ensures Shr(Shl(i, l), l) == i
    ensures Aligned(Shl(i, l), l)
    decreases l
  {
    if l > 0 {
      ShrShl(2 * i, l - 1);
    }
  }

  lemma {:induction false} ShlShr(p: nat, l: nat)
    requires Aligned(p, l)
    ensures Shl(Shr(p, l), l) == p
  {
    if l > 0 {
      ShlShr(p, l - 1);
    }
  }

  lemma {:induction false} ShrBound(p: nat, l: nat)
    requires l <= TOP
    ensures p < PAGES <==> Shr(p, l) < Width(l)
  {
    if l == 0 {
      assert Width(0) == 2 * Width(1) == 4 * Width(2) == 8 * Width(3);
      assert Width(3) == 2 * Width(4) == 4 * Width(5) == 8 * Width(6);
    } else {
      ShrBound(p, l - 1);
      assert Width(l - 1) == 2 * Width(l);
    }
  }

  lemma ShlBound(i: nat, l: nat)
    requires l <= TOP && i < Width(l)
    ensures Shl(i, l) < PAGES
  {
    ShrShl(i, l);
    ShrBound(Shl(i, l), l);
  }

  lemma WidthHalf(i: nat, l: nat)
    requires l < TOP
    ensures i < Width(l) <==> i / 2 < Width(l + 1)
  {}

  lemma {:induction false} ShlStep(i: nat, l: nat)
    ensures Shl(i + 1, l) == Shl(i, l) + Shl(1, l)
    ensures Shl(1, l) * MIN_BLOCK == BlockSize(l)
    decreases l
  {
    if l > 0 {
      ShlStep(2 * i, l - 1);
      ShlStep(2 * i + 1, l - 1);
      ShlStep(1, l - 1);
    }
  }

  /** Block `i` is the run of `BlockSize(l)` bytes that starts at page `Shl(i, l)`. */
  lemma {:induction false} PagesOfBlock(p: nat, l: nat, i: nat)
    ensures Shr(p, l) == i <==> Shl(i, l) <= p < Shl(i, l) + Shl(1, l)
    decreases l
  {
    if l > 0 {
      PagesOfBlock(p, l - 1, 2 * i);
      PagesOfBlock(p, l - 1, 2 * i + 1);
      ShlStep(2 * i, l - 1);
      ShlStep(1, l - 1);
      assert Shr(p, l) == i <==> Shr(p, l - 1) == 2 * i || Shr(p, l - 1) == 2 * i + 1;
    }
  }

  // ---------------------------------------------------------------------
  // Tree states
  // ---------------------------------------------------------------------

  /** A node exists when every ancestor is split; given `TreeInv` the parent suffices. */
  predicate Live(split: Bitmaps, l: nat, i: nat)
    requires l <= TOP
  {
    i < Width(l) && (l == TOP || i / 2 in split[l + 1])
  }

  predicate Leaf(split: Bitmaps, l: nat, i: nat)
    requires l <= TOP
  {
    Live(split, l, i) && i !in split[l]
  }

  predicate IsFree(alloc: Bitmaps, split: Bitmaps, l: nat, i: nat)
    requires l <= TOP
  {
    Leaf(split, l, i) && i !in alloc[l]
  }

  /** Dead nodes have both bits clear, no node is both split and allocated, pages do not split. */
  ghost predicate TreeInv(alloc: Bitmaps, split: Bitmaps) {
    && split[0] == {}
    && (forall l, i :: 0 <= l <= TOP && i in split[l] ==> Live(split, l, i))
    && (forall l, i :: 0 <= l <= TOP && i in alloc[l] ==> Leaf(split, l, i))
  }

  /** No two free buddies: what immediate coalescing maintains. */
  ghost predicate NoFreePair(alloc: Bitmaps, split: Bitmaps) {
    forall l, i :: 0 <= l < TOP && IsFree(alloc, split, l, i) ==> !IsFree(alloc, split, l, Sibling(i))
  }

  ghost predicate NoPairAt(alloc: Bitmaps, split: Bitmaps, l: nat)
    requires l < TOP
  {
    forall i :: IsFree(alloc, split, l, i) ==> !IsFree(alloc, split, l, Sibling(i))
  }

  ghost predicate Empty(alloc: Bitmaps) {
    forall l :: 0 <= l <= TOP ==> alloc[l] == {}
  }

  // ---------------------------------------------------------------------
  // Tiling
  // ---------------------------------------------------------------------

  lemma {:induction false} AncestorSplit(alloc: Bitmaps, split: Bitmaps, p: nat, l: nat, m: nat)
    requires TreeInv(alloc, split)
    requires l < m <= TOP && Live(split, l, Shr(p, l))
    ensures Shr(p, m) in split[m]
    decreases m - l
  {
    assert Shr(p, l + 1) == Shr(p, l) / 2;
    if l + 1 < m {
      AncestorSplit(alloc, split, p, l + 1, m);
    }
  }

  lemma {:induction false} LeafBelow(alloc: Bitmaps, split: Bitmaps, p: nat, l: nat) returns (m: nat)
    requires TreeInv(alloc, split)
    requires l <= TOP && Live(split, l, Shr(p, l))
    ensures m <= l && Leaf(split, m, Shr(p, m))
  {
    m := l;
    if Shr(p, l) in split[l] {
      assert Shr(p, l) == Shr(p, l - 1) / 2;
      WidthHalf(Shr(p, l - 1), l - 1);
      m := LeafBelow(alloc, split, p, l - 1);
    }
  }

  lemma LeafUnique(alloc: Bitmaps, split: Bitmaps, p: nat, l: nat, m: nat)
    requires TreeInv(alloc, split)
    requires l <= TOP && Leaf(split, l, Shr(p, l))
    requires m <= TOP && Leaf(split, m, Shr(p, m))
    ensures l == m
  {
    if l < m {
      AncestorSplit(alloc, split, p, l, m);
    } else if m < l {
      AncestorSplit(alloc, split, p, m, l);
    }
  }

  /** Every page lies in exactly one block that is allocated or free, never both. */
  lemma Tiling(alloc: Bitmaps, split: Bitmaps, p: nat) returns (l: nat)
    requires TreeInv(alloc, split) && p < PAGES
    ensures l <= TOP && (Shr(p, l) in alloc[l] || IsFree(alloc, split, l, Shr(p, l)))
    ensures !(Shr(p, l) in alloc[l] && IsFree(alloc, split, l, Shr(p, l)))
    ensures forall m :: 0 <= m <= TOP && (Shr(p, m) in alloc[m] || IsFree(alloc, split, m, Shr(p, m))) ==> m == l
  {
    ShrBound(p, TOP);
    l := LeafBelow(alloc, split, p, TOP);
    forall m | 0 <= m <= TOP && (Shr(p, m) in alloc[m] || IsFree(alloc, split, m, Shr(p, m)))
      ensures m == l
    {
      LeafUnique(alloc, split, p, l, m);
    }
  }

  // ---------------------------------------------------------------------
  // Canonical form
  // ---------------------------------------------------------------------

  /** The proper ancestors, at level `l`, of the allocated blocks. */
  function CanonicalSplit(alloc: Bitmaps, l: nat): set<nat>
    requires l <= TOP
  {
    if l == 0 then {}
    else set i | i in alloc[l - 1] + CanonicalSplit(alloc, l - 1) :: i / 2
  }

  /** A block that holds an allocated block below it is always split. */
  lemma {:induction false} CanonicalSplitBelow(alloc: Bitmaps, split: Bitmaps, l: nat)
    requires TreeInv(alloc, split) && l <= TOP
    ensures CanonicalSplit(alloc, l) <= split[l]
  {
    if l > 0 {
      CanonicalSplitBelow(alloc, split, l - 1);
      forall i | i in CanonicalSplit(alloc, l)
        ensures i in split[l]
      {
        var j :| j in alloc[l - 1] + CanonicalSplit(alloc, l - 1) && j / 2 == i;
        assert Live(split, l - 1, j);
      }
    }
  }

  lemma ChildTaken(alloc: Bitmaps, split: Bitmaps, l: nat, i: nat) returns (c: nat)
    requires TreeInv(alloc, split) && NoFreePair(alloc, split)
    requires 0 < l <= TOP && i in split[l]
    ensures c / 2 == i && Live(split, l - 1, c) && (c in alloc[l - 1] || c in split[l - 1])
  {
    hide Width;
    assert Live(split, l, i);
    WidthHalf(2 * i, l - 1);
    WidthHalf(2 * i + 1, l - 1);
    assert Live(split, l - 1, 2 * i) && Live(split, l - 1, 2 * i + 1);
    assert IsFree(alloc, split, l - 1, 2 * i) ==> !IsFree(alloc, split, l - 1, Sibling(2 * i));
    if 2 * i in alloc[l - 1] || 2 * i in split[l - 1] {
      c := 2 * i;
    } else {
      c := 2 * i + 1;
    }
  }

  /** Without free buddies, the split bitmaps are exactly the ancestors of the allocated blocks. */
  lemma {:induction false} Canonical(alloc: Bitmaps, split: Bitmaps, l: nat)
    requires TreeInv(alloc, split) && NoFreePair(alloc, split) && l <= TOP
    ensures split[l] == CanonicalSplit(alloc, l)
  {
    CanonicalSplitBelow(alloc, split, l);
    if l > 0 {
      Canonical(alloc, split, l - 1);
      forall i | i in split[l]
        ensures i in CanonicalSplit(alloc, l)
      {
        var c := ChildTaken(alloc, split, l, i);
        assert c in alloc[l - 1] + CanonicalSplit(alloc, l - 1);
      }
    }
  }

  /**
   Two coalesced arenas with the same allocated blocks have the same split
   bitmaps and the same free blocks, however they were reached.
   */
  lemma CoalescedFormUnique(alloc: Bitmaps, split1: Bitmaps, split2: Bitmaps)
    requires TreeInv(alloc, split1) && NoFreePair(alloc, split1)
    requires TreeInv(alloc, split2) && NoFreePair(alloc, split2)
    ensures split1 == split2
    ensures forall l, i :: 0 <= l <= TOP ==> (IsFree(alloc, split1, l, i) <==> IsFree(alloc, split2, l, i))
  {
    forall l | 0 <= l <= TOP
      ensures split1[l] == split2[l]
    {
      Canonical(alloc, split1, l);
      Canonical(alloc, split2, l);
    }
    assert split1 == split2;
  }

  /** Conversely the canonical split bitmaps leave no free buddies. */
  lemma CanonicalCoalesced(alloc: Bitmaps, split: Bitmaps)
    requires TreeInv(alloc, split)
    requires forall l :: 0 <= l <= TOP ==> split[l] == CanonicalSplit(alloc, l)
    ensures NoFreePair(alloc, split)
  {
    forall l: nat, i: nat | l < TOP && IsFree(alloc, split, l, i)
      ensures !IsFree(alloc, split, l, Sibling(i))
    {
      assert i / 2 in split[l + 1];
      assert split[l + 1] == CanonicalSplit(alloc, l + 1);
      var c :| c in alloc[l] + CanonicalSplit(alloc, l) && c / 2 == i / 2;
      assert c == i || c == Sibling(i);
    }
  }

  // ---------------------------------------------------------------------
  // Completeness of failure
  // ---------------------------------------------------------------------

  /** Some allocated block shares a page with block `j` of level `t`. */
  ghost predicate Obstructed(alloc: Bitmaps, t: nat, j: nat) {
    exists p, m :: 0 <= p < PAGES && 0 <= m <= TOP && Shr(p, t) == j && Shr(p, m) in alloc[m]
  }

  ghost predicate NoFreeFrom(alloc: Bitmaps, split: Bitmaps, t: nat) {
    forall l, i :: t <= l <= TOP ==> !IsFree(alloc, split, l, i)
  }

  lemma FreeBlockUnobstructed(alloc: Bitmaps, split: Bitmaps, t: nat, l: nat, i: nat)
    requires TreeInv(alloc, split)
    requires t <= l <= TOP && IsFree(alloc, split, l, i)
    ensures !Obstructed(alloc, t, Shr(Shl(i, l), t)) && Shr(Shl(i, l), t) < Width(t)
  {
    var f := Shl(i, l);
    ShrShl(i, l);
    ShlBound(i, l);
    ShrBound(f, t);
    var j := Shr(f, t);
    if Obstructed(alloc, t, j) {
      var p, m :| 0 <= p < PAGES && 0 <= m <= TOP && Shr(p, t) == j && Shr(p, m) in alloc[m];
      ShrSame(p, f, t, l);
      LeafUnique(alloc, split, p, l, m);
    }
  }

  lemma {:induction false} ShrSame(p: nat, q: nat, k: nat, l: nat)
    requires k <= l && Shr(p, k) == Shr(q, k)
    ensures Shr(p, l) == Shr(q, l)
  {
    if k < l {
      ShrSame(p, q, k, l - 1);
    }
  }

  lemma {:induction false} CanonicalHolds(alloc: Bitmaps, split: Bitmaps, l: nat, i: nat) returns (p: nat, m: nat)
    requires TreeInv(alloc, split) && l <= TOP && i in CanonicalSplit(alloc, l)
    ensures p < PAGES && m < l && Shr(p, l) == i && Shr(p, m) in alloc[m]
    decreases l
  {
    var c :| c in alloc[l - 1] + CanonicalSplit(alloc, l - 1) && c / 2 == i;
    if c in alloc[l - 1] {
      p, m := Shl(c, l - 1), l - 1;
      ShrShl(c, l - 1);
      ShlBound(c, l - 1);
    } else {
      p, m := CanonicalHolds(alloc, split, l - 1, c);
    }
    assert Shr(p, l) == Shr(p, l - 1) / 2;
  }

  lemma {:induction false} AboveIsCanonical(alloc: Bitmaps, p: nat, m: nat, l: nat)
    requires m < l <= TOP && Shr(p, m) in alloc[m]
    ensures Shr(p, l) in CanonicalSplit(alloc, l)
    decreases l
  {
    if m < l - 1 {
      AboveIsCanonical(alloc, p, m, l - 1);
    }
    assert Shr(p, l) == Shr(p, l - 1) / 2;
    assert Shr(p, l - 1) in alloc[l - 1] + CanonicalSplit(alloc, l - 1);
  }

  /**
   With or without coalescing: every place of a level is obstructed exactly
   when no free block is that large and no block of the level is split to no
   purpose, that is without an allocated block below it.
   */
  lemma FullExactly(alloc: Bitmaps, split: Bitmaps, t: nat)
    requires TreeInv(alloc, split) && t <= TOP
    ensures (forall j :: 0 <= j < Width(t) ==> Obstructed(alloc, t, j))
            <==> NoFreeFrom(alloc, split, t) && split[t] <= CanonicalSplit(alloc, t)
  {
    if NoFreeFrom(alloc, split, t) && split[t] <= CanonicalSplit(alloc, t) {
      forall j | 0 <= j < Width(t)
        ensures Obstructed(alloc, t, j)
      {
        FullPlace(alloc, split, t, j);
      }
    }
    if forall j :: 0 <= j < Width(t) ==> Obstructed(alloc, t, j) {
      forall l, i | t <= l <= TOP
        ensures !IsFree(alloc, split, l, i)
      {
        if IsFree(alloc, split, l, i) {
          FreeBlockUnobstructed(alloc, split, t, l, i);
        }
      }
      forall j | j in split[t]
        ensures j in CanonicalSplit(alloc, t)
      {
        assert Live(split, t, j);
        SplitForCause(alloc, split, t, j);
      }
    }
  }

  lemma FullPlace(alloc: Bitmaps, split: Bitmaps, t: nat, j: nat)
    requires TreeInv(alloc, split) && t <= TOP && j < Width(t)
    requires NoFreeFrom(alloc, split, t) && split[t] <= CanonicalSplit(alloc, t)
    ensures Obstructed(alloc, t, j)
  {
    var p := Shl(j, t);
    ShrShl(j, t);
    ShlBound(j, t);
    var m := Tiling(alloc, split, p);
    if m < t {
      AncestorSplit(alloc, split, p, m, t);
      var q, k := CanonicalHolds(alloc, split, t, j);
    }
  }

  lemma SplitForCause(alloc: Bitmaps, split: Bitmaps, t: nat, j: nat)
    requires TreeInv(alloc, split) && t <= TOP && j in split[t] && Obstructed(alloc, t, j)
    ensures j in CanonicalSplit(alloc, t)
  {
    var p, m :| 0 <= p < PAGES && 0 <= m <= TOP && Shr(p, t) == j && Shr(p, m) in alloc[m];
    if t < m {
      AncestorSplit(alloc, split, p, t, m);
    }
    assert m < t;
    AboveIsCanonical(alloc, p, m, t);
  }

  /**
   In a coalesced arena a request of level `t` finds no free block at `t` or
   above exactly when every aligned block of that level overlaps an allocated
   one.
   */
  lemma FailureIsExact(alloc: Bitmaps, split: Bitmaps, t: nat)
    requires TreeInv(alloc, split) && NoFreePair(alloc, split) && t <= TOP
    ensures NoFreeFrom(alloc, split, t) <==> forall j :: 0 <= j < Width(t) ==> Obstructed(alloc, t, j)
  {
    Canonical(alloc, split, t);
    FullExactly(alloc, split, t);
  }

  /**
   So a refusal is exact, that is means that there is no room, if and only
   if no block of the level is split to no purpose.
   */
  lemma RefusalIsExact(alloc: Bitmaps, split: Bitmaps, t: nat)
    requires TreeInv(alloc, split) && t <= TOP && NoFreeFrom(alloc, split, t)
    ensures (forall j :: 0 <= j < Width(t) ==> Obstructed(alloc, t, j)) <==> split[t] <= CanonicalSplit(alloc, t)
  {
    FullExactly(alloc, split, t);
  }

  /**
   Merged arenas meet that condition. Arenas that are not need not: two free
   4 KiB buddies refuse an 8 KiB request.
   */
  lemma DeferredFailureNotExact(alloc: Bitmaps, split: Bitmaps)
    requires alloc == [{}, {1}, {1}, {1}, {1}, {1}, {}] && split == [{}, {0}, {0}, {0}, {0}, {0}, {0}]
    ensures TreeInv(alloc, split) && NoFreeFrom(alloc, split, 1)
    ensures 0 < Width(1) && !Obstructed(alloc, 1, 0)
  {
    assert Width(5) == 2 && Width(4) == 4 && Width(3) == 8 && Width(2) == 16 && Width(1) == 32;
    forall l: nat, i: nat | 1 <= l <= TOP
      ensures !IsFree(alloc, split, l, i)
    {
      assert l < TOP && i / 2 in split[l + 1] ==> i == 0 || i == 1;
    }
    if Obstructed(alloc, 1, 0) {
      var p, m :| 0 <= p < PAGES && 0 <= m <= TOP && Shr(p, 1) == 0 && Shr(p, m) in alloc[m];
      ShrSame(p, 0, 1, m);
      ZeroShr(m);
    }
  }

  lemma {:induction false} ZeroShr(l: nat)
    ensures Shr(0, l) == 0
  {
    if l > 0 {
      ZeroShr(l - 1);
    }
  }

  // ---------------------------------------------------------------------
  // Empty arenas
  // ---------------------------------------------------------------------

  /** The deepest split node of an empty tree has two free children at one level. */
  lemma {:induction false} DeepestSplit(alloc: Bitmaps, split: Bitmaps, l: nat, i: nat)
    returns (m: nat, j: nat)
    requires TreeInv(alloc, split) && Empty(alloc)
    requires 0 < l <= TOP && i in split[l]
    ensures m < l && IsFree(alloc, split, m, 2 * j) && IsFree(alloc, split, m, 2 * j + 1)
  {
    hide Width;
    assert Live(split, l, i);
    WidthHalf(2 * i, l - 1);
    WidthHalf(2 * i + 1, l - 1);
    if 2 * i in split[l - 1] {
      m, j := DeepestSplit(alloc, split, l - 1, 2 * i);
    } else if 2 * i + 1 in split[l - 1] {
      m, j := DeepestSplit(alloc, split, l - 1, 2 * i + 1);
    } else {
      m, j := l - 1, i;
    }
  }

  /** A coalesced arena with nothing allocated is one undivided top block. */
  lemma EmptyCoalescedIsWhole(alloc: Bitmaps, split: Bitmaps)
    requires TreeInv(alloc, split) && Empty(alloc) && NoFreePair(alloc, split)
    ensures forall l :: 0 <= l <= TOP ==> split[l] == {}
    ensures forall l, i :: 0 <= l <= TOP ==> (IsFree(alloc, split, l, i) <==> l == TOP && i == 0)
  {
    forall l: nat | l <= TOP
      ensures split[l] == {}
    {
      if split[l] != {} {
        var i :| i in split[l];
        Canonical(alloc, split, l);
        var p, m := CanonicalHolds(alloc, split, l, i);
      }
    }
  }

  // ---------------------------------------------------------------------
  // Steps: taking, giving back, splitting and merging one block
  // ---------------------------------------------------------------------

  /** First page of a free block of level `l`. */
  predicate FreeAt(alloc: Bitmaps, split: Bitmaps, l: nat, p: nat)
    requires l <= TOP
  {
    p < PAGES && Aligned(p, l) && IsFree(alloc, split, l, Shr(p, l))
  }

  function FreePages(alloc: Bitmaps, split: Bitmaps, l: nat): set<nat>
    requires l <= TOP
  {
    set p | 0 <= p < PAGES && FreeAt(alloc, split, l, p)
  }

  lemma FreePageFacts(alloc: Bitmaps, split: Bitmaps, l: nat, p: nat)
    requires l <= TOP
    ensures p in FreePages(alloc, split, l) <==> FreeAt(alloc, split, l, p)
  {}

  lemma FreePagesDisjoint(alloc: Bitmaps, split: Bitmaps, l: nat, m: nat, p: nat)
    requires TreeInv(alloc, split) && l <= TOP && m <= TOP
    requires FreeAt(alloc, split, l, p) && FreeAt(alloc, split, m, p)
    ensures l == m
  {
    LeafUnique(alloc, split, p, l, m);
  }

  function Set(b: Bitmaps, l: nat, i: nat): Bitmaps
    requires l <= TOP
  {
    b[l := b[l] + {i}]
  }

  function Clear(b: Bitmaps, l: nat, i: nat): Bitmaps
    requires l <= TOP
  {
    b[l := b[l] - {i}]
  }

  /** The free blocks of the second tree are those of the first and block `j` of level `l`. */
  ghost predicate FreePlus(alloc: Bitmaps, split: Bitmaps, a: Bitmaps, s: Bitmaps, l: nat, j: nat)
    requires l <= TOP
  {
    && !IsFree(alloc, split, l, j)
    && (forall m, i :: 0 <= m <= TOP ==>
          (IsFree(a, s, m, i) <==> IsFree(alloc, split, m, i) || (m == l && i == j)))
  }

  lemma FreePagesPlus(alloc: Bitmaps, split: Bitmaps, a: Bitmaps, s: Bitmaps, l: nat, j: nat)
    requires TreeInv(a, s) && l <= TOP && FreePlus(alloc, split, a, s, l, j)
    ensures FreeAt(a, s, l, Shl(j, l))
    ensures forall m :: 0 <= m <= TOP ==>
              Shl(j, l) !in FreePages(alloc, split, m)
              && FreePages(a, s, m)
                 == if m == l then FreePages(alloc, split, m) + {Shl(j, l)} else FreePages(alloc, split, m)
  {
    var r := Shl(j, l);
    assert IsFree(a, s, l, j);
    ShrShl(j, l);
    ShlBound(j, l);
    forall m: nat, q: nat | m <= TOP && q < PAGES
      ensures FreeAt(a, s, m, q) <==> FreeAt(alloc, split, m, q) || (m == l && q == r)
    {
      if Aligned(q, m) {
        ShlShr(q, m);
      }
    }
    forall m: nat | m <= TOP
      ensures r !in FreePages(alloc, split, m)
    {
      if FreeAt(a, s, m, r) {
        FreePagesDisjoint(a, s, l, m, r);
      }
    }
  }

  lemma NoFreePairPlus(alloc: Bitmaps, split: Bitmaps, a: Bitmaps, s: Bitmaps, l: nat, j: nat)
    requires l <= TOP && FreePlus(alloc, split, a, s, l, j)
    requires NoFreePair(alloc, split)
    requires l == TOP || !IsFree(alloc, split, l, Sibling(j))
    ensures NoFreePair(a, s)
  {}

  /** Marking a free block allocated removes it, and only it, from the free blocks. */
  lemma TakeStep(alloc: Bitmaps, split: Bitmaps, l: nat, i: nat)
    requires TreeInv(alloc, split) && l <= TOP && IsFree(alloc, split, l, i)
    ensures TreeInv(Set(alloc, l, i), split)
    ensures FreePlus(Set(alloc, l, i), split, alloc, split, l, i)
    ensures NoFreePair(alloc, split) ==> NoFreePair(Set(alloc, l, i), split)
  {}

  /** Clearing an allocated bit adds the block back. */
  lemma GiveStep(alloc: Bitmaps, split: Bitmaps, l: nat, i: nat)
    requires TreeInv(alloc, split) && l <= TOP && i in alloc[l]
    ensures TreeInv(Clear(alloc, l, i), split)
    ensures FreePlus(alloc, split, Clear(alloc, l, i), split, l, i)
    ensures NoFreePair(alloc, split) && (l == TOP || !IsFree(alloc, split, l, Sibling(i)))
            ==> NoFreePair(Clear(alloc, l, i), split)
  {
    var a := Clear(alloc, l, i);
    assert forall m, j :: 0 <= m <= TOP ==> (IsFree(a, split, m, j) <==> IsFree(alloc, split, m, j) || (m == l && j == i));
    if NoFreePair(alloc, split) && (l == TOP || !IsFree(alloc, split, l, Sibling(i))) {
      NoFreePairPlus(alloc, split, a, split, l, i);
    }
  }

  /** The tree after splitting block `i` of level `l`, its left half staying in hand. */
  function SplitAlloc(alloc: Bitmaps, l: nat, i: nat): Bitmaps
    requires 0 < l <= TOP
  {
    Set(Clear(alloc, l, i), l - 1, 2 * i)
  }

  /** The children of a leaf carry no bits and are not free. */
  lemma ChildrenDead(alloc: Bitmaps, split: Bitmaps, l: nat, i: nat)
    requires TreeInv(alloc, split) && 0 < l <= TOP && Leaf(split, l, i)
    ensures forall c :: c / 2 == i ==> c !in split[l - 1] && c !in alloc[l - 1] && !IsFree(alloc, split, l - 1, c)
  {}

  lemma SplitTree(alloc: Bitmaps, split: Bitmaps, l: nat, i: nat)
    requires TreeInv(alloc, split) && 0 < l <= TOP && i in alloc[l]
    ensures TreeInv(SplitAlloc(alloc, l, i), Set(split, l, i))
  {
    hide Width;
    var a, s := SplitAlloc(alloc, l, i), Set(split, l, i);
    assert Leaf(split, l, i);
    WidthHalf(2 * i, l - 1);
    ChildrenDead(alloc, split, l, i);
    LiveMono(split, s);
    forall m: nat, j: nat | m <= TOP && j in s[m]
      ensures Live(s, m, j)
    {
      assert j in split[m] ==> Live(split, m, j);
      assert Live(split, l, i);
    }
    forall m: nat, j: nat | m <= TOP && j in a[m]
      ensures Leaf(s, m, j)
    {
      assert j in alloc[m] ==> Leaf(split, m, j);
      assert Live(s, l - 1, 2 * i);
    }
  }

  lemma LiveMono(split: Bitmaps, s: Bitmaps)
    requires forall l :: 0 <= l <= TOP ==> split[l] <= s[l]
    ensures forall l, i :: 0 <= l <= TOP && Live(split, l, i) ==> Live(s, l, i)
  {}

  /** Splitting the block in hand frees its right half and keeps the left in hand. */
  lemma SplitStep(alloc: Bitmaps, split: Bitmaps, l: nat, i: nat)
    requires TreeInv(alloc, split) && 0 < l <= TOP && i in alloc[l]
    ensures var a, s := SplitAlloc(alloc, l, i), Set(split, l, i);
            && TreeInv(a, s)
            && FreePlus(alloc, split, a, s, l - 1, 2 * i + 1)
            && (NoFreePair(alloc, split) ==> NoFreePair(a, s))
  {
    hide Width;
    var a, s := SplitAlloc(alloc, l, i), Set(split, l, i);
    SplitTree(alloc, split, l, i);
    assert Leaf(split, l, i);
    WidthHalf(2 * i + 1, l - 1);
    ChildrenDead(alloc, split, l, i);
    assert forall j :: j / 2 == i ==> j == 2 * i || j == 2 * i + 1;
    forall m: nat, j: nat | m <= TOP
      ensures IsFree(a, s, m, j) <==> IsFree(alloc, split, m, j) || (m == l - 1 && j == 2 * i + 1)
    {
    }
    if NoFreePair(alloc, split) {
      assert Sibling(2 * i + 1) == 2 * i;
      NoFreePairPlus(alloc, split, a, s, l - 1, 2 * i + 1);
    }
  }

  /** The tree after merging block `i` of level `l` with its buddy. */
  function MergeAlloc(alloc: Bitmaps, l: nat, i: nat): Bitmaps
    requires l < TOP
  {
    Set(Clear(alloc, l, i), l + 1, i / 2)
  }

  lemma BuddyFree(alloc: Bitmaps, split: Bitmaps, l: nat, i: nat)
    requires TreeInv(alloc, split) && l < TOP && i in alloc[l]
    requires Sibling(i) !in alloc[l] && Sibling(i) !in split[l]
    ensures IsFree(alloc, split, l, Sibling(i)) && i / 2 in split[l + 1]
  {}

  lemma MergeTree(alloc: Bitmaps, split: Bitmaps, l: nat, i: nat)
    requires TreeInv(alloc, split) && l < TOP && i in alloc[l]
    requires Sibling(i) !in alloc[l] && Sibling(i) !in split[l]
    ensures TreeInv(MergeAlloc(alloc, l, i), Clear(split, l + 1, i / 2))
  {
    hide Width;
    BuddyFree(alloc, split, l, i);
    var a, s := MergeAlloc(alloc, l, i), Clear(split, l + 1, i / 2);
    assert forall j :: j / 2 == i / 2 ==> j == i || j == Sibling(i);
    assert Live(split, l + 1, i / 2) && Leaf(split, l, i);
    forall m: nat, j: nat | m <= TOP && j in s[m]
      ensures Live(s, m, j)
    {
      assert Live(split, m, j);
    }
    forall m: nat, j: nat | m <= TOP && j in a[m]
      ensures Leaf(s, m, j)
    {
      assert j in alloc[m] ==> Leaf(split, m, j);
    }
  }

  /** Merging the block in hand with its free buddy undoes the split of their parent. */
  lemma MergeStep(alloc: Bitmaps, split: Bitmaps, l: nat, i: nat)
    requires TreeInv(alloc, split) && l < TOP && i in alloc[l]
    requires Sibling(i) !in alloc[l] && Sibling(i) !in split[l]
    ensures i / 2 in split[l + 1]
    ensures var a, s := MergeAlloc(alloc, l, i), Clear(split, l + 1, i / 2);
            && TreeInv(a, s)
            && FreePlus(a, s, alloc, split, l, Sibling(i))
            && (NoFreePair(alloc, split) ==> NoFreePair(a, s))
  {
    hide Width;
    BuddyFree(alloc, split, l, i);
    MergeTree(alloc, split, l, i);
    var a, s := MergeAlloc(alloc, l, i), Clear(split, l + 1, i / 2);
    hide TreeInv;
    forall m: nat, j: nat | m <= TOP
      ensures IsFree(alloc, split, m, j) <==> IsFree(a, s, m, j) || (m == l && j == Sibling(i))
    {
      assert j / 2 == i / 2 ==> j == i || j == Sibling(i);
    }
    assert !IsFree(a, s, l, Sibling(i));
    hide IsFree;
    if NoFreePair(alloc, split) {
      FewerFreePairs(alloc, split, a, s);
    }
  }

  lemma FewerFreePairs(alloc: Bitmaps, split: Bitmaps, a: Bitmaps, s: Bitmaps)
    requires NoFreePair(alloc, split)
    requires forall l, i :: 0 <= l <= TOP && IsFree(a, s, l, i) ==> IsFree(alloc, split, l, i)
    ensures NoFreePair(a, s)
  {
    hide IsFree;
  }

  /** Merging is the inverse of splitting, bit for bit. */
  lemma MergeUndoesSplit(alloc: Bitmaps, split: Bitmaps, l: nat, i: nat)
    requires TreeInv(alloc, split) && 0 < l <= TOP && i in alloc[l]
    ensures MergeAlloc(SplitAlloc(alloc, l, i), l - 1, 2 * i) == alloc
    ensures Clear(Set(split, l, i), l, i) == split
  {
    ChildrenDead(alloc, split, l, i);
    var a := MergeAlloc(SplitAlloc(alloc, l, i), l - 1, 2 * i);
    assert a[l] == alloc[l] && a[l - 1] == alloc[l - 1];
    assert Clear(Set(split, l, i), l, i)[l] == split[l];
  }

  // ---------------------------------------------------------------------
  // The same steps with the block in hand named apart from the bitmaps
  // ---------------------------------------------------------------------

  /** `i` of level `l` is off the lists but its bit is not set. */
  ghost predicate InHand(alloc: Bitmaps, split: Bitmaps, l: nat, i: nat) {
    l <= TOP && i !in alloc[l] && TreeInv(Set(alloc, l, i), split)
  }

  lemma HandFromFree(alloc: Bitmaps, split: Bitmaps, l: nat, p: nat)
    requires TreeInv(alloc, split) && l <= TOP && p in FreePages(alloc, split, l)
    ensures InHand(alloc, split, l, Shr(p, l))
    ensures forall m :: 0 <= m <= TOP ==>
              FreePages(Set(alloc, l, Shr(p, l)), split, m)
              == if m == l then FreePages(alloc, split, l) - {p} else FreePages(alloc, split, m)
    ensures NoFreePair(alloc, split) ==> NoFreePair(Set(alloc, l, Shr(p, l)), split)
  {
    var i := Shr(p, l);
    TakeStep(alloc, split, l, i);
    FreePagesPlus(Set(alloc, l, i), split, alloc, split, l, i);
    ShlShr(p, l);
  }

  lemma HandToFree(alloc: Bitmaps, split: Bitmaps, l: nat, i: nat)
    requires InHand(alloc, split, l, i)
    ensures TreeInv(alloc, split)
    ensures forall m :: 0 <= m <= TOP ==>
              Shl(i, l) !in FreePages(Set(alloc, l, i), split, m)
              && FreePages(alloc, split, m)
                 == if m == l then FreePages(Set(alloc, l, i), split, m) + {Shl(i, l)}
                    else FreePages(Set(alloc, l, i), split, m)
    ensures NoFreePair(Set(alloc, l, i), split) && (l == TOP || !IsFree(alloc, split, l, Sibling(i)))
            ==> NoFreePair(alloc, split)
  {
    var a := Set(alloc, l, i);
    GiveStep(a, split, l, i);
    assert Clear(a, l, i)[l] == alloc[l];
    assert Clear(a, l, i) == alloc;
    FreePagesPlus(a, split, alloc, split, l, i);
    assert l < TOP && IsFree(a, split, l, Sibling(i)) ==> IsFree(alloc, split, l, Sibling(i));
  }

  lemma HandSplit(alloc: Bitmaps, split: Bitmaps, l: nat, i: nat)
    requires InHand(alloc, split, l, i) && l > 0
    ensures InHand(alloc, Set(split, l, i), l - 1, 2 * i)
    ensures forall m :: 0 <= m <= TOP ==>
              Shl(2 * i + 1, l - 1) !in FreePages(Set(alloc, l, i), split, m)
              && FreePages(Set(alloc, l - 1, 2 * i), Set(split, l, i), m)
                 == if m == l - 1 then FreePages(Set(alloc, l, i), split, m) + {Shl(2 * i + 1, l - 1)}
                    else FreePages(Set(alloc, l, i), split, m)
    ensures NoFreePair(Set(alloc, l, i), split) ==> NoFreePair(Set(alloc, l - 1, 2 * i), Set(split, l, i))
  {
    var a := Set(alloc, l, i);
    assert Clear(a, l, i)[l] == alloc[l];
    assert SplitAlloc(a, l, i) == Set(alloc, l - 1, 2 * i);
    ChildrenDead(a, split, l, i);
    SplitStep(a, split, l, i);
    FreePagesPlus(a, split, Set(alloc, l - 1, 2 * i), Set(split, l, i), l - 1, 2 * i + 1);
  }

  lemma HandMerge(alloc: Bitmaps, split: Bitmaps, l: nat, i: nat)
    requires InHand(alloc, split, l, i) && l < TOP
    requires Sibling(i) !in alloc[l] && Sibling(i) !in split[l]
    ensures i / 2 in split[l + 1]
    ensures InHand(alloc, Clear(split, l + 1, i / 2), l + 1, i / 2)
    ensures Shl(Sibling(i), l) in FreePages(Set(alloc, l, i), split, l)
    ensures forall m :: 0 <= m <= TOP ==>
              FreePages(Set(alloc, l + 1, i / 2), Clear(split, l + 1, i / 2), m)
              == if m == l then FreePages(Set(alloc, l, i), split, m) - {Shl(Sibling(i), l)}
                 else FreePages(Set(alloc, l, i), split, m)
    ensures NoFreePair(Set(alloc, l, i), split)
            ==> NoFreePair(Set(alloc, l + 1, i / 2), Clear(split, l + 1, i / 2))
  {
    var a := Set(alloc, l, i);
    assert Sibling(i) != i;
    assert Clear(a, l, i)[l] == alloc[l];
    assert MergeAlloc(a, l, i) == Set(alloc, l + 1, i / 2);
    MergeStep(a, split, l, i);
    FreePagesPlus(Set(alloc, l + 1, i / 2), Clear(split, l + 1, i / 2), a, split, l, Sibling(i));
    assert i / 2 !in alloc[l + 1];
  }

  lemma WholeArena(alloc: Bitmaps, split: Bitmaps)
    requires Empty(alloc) && Empty(split)
    ensures TreeInv(alloc, split) && NoFreePair(alloc, split)
    ensures forall l :: 0 <= l <= TOP ==> FreePages(alloc, split, l) == if l == TOP then {0} else {}
  {
    forall l: nat, p: nat | l <= TOP && p < PAGES
      ensures FreeAt(alloc, split, l, p) <==> l == TOP && p == 0
    {
      if l == TOP && Aligned(p, l) {
        ShrBound(p, l);
        ShlShr(p, l);
        assert Shl(0, 6) == 0 by { ZeroShr(6); ShlShr0(6); }
      }
      if p == 0 {
        ZeroShr(l);
        ShlShr0(l);
      }
    }
  }

  lemma {:induction false} ShlShr0(l: nat)
    ensures Shl(0, l) == 0 && Aligned(0, l)
  {
    if l > 0 {
      ShlShr0(l - 1);
      ZeroShr(l - 1);
    }
  }

  /** The buddy of a block in hand is live, so clear bits mean free. */
  lemma HandBuddyFree(alloc: Bitmaps, split: Bitmaps, l: nat, i: nat)
    requires InHand(alloc, split, l, i) && l < TOP
    ensures IsFree(alloc, split, l, Sibling(i)) <==> Sibling(i) !in alloc[l] && Sibling(i) !in split[l]
  {}

  /** The left one of two buddies starts their parent. */
  lemma MergedStart(p: nat, l: nat)
    requires Aligned(p, l)
    ensures var i := Shr(p, l);
            var q := if Sibling(i) < i then Shl(Sibling(i), l) else p;
            Aligned(q, l + 1) && Shr(q, l + 1) == i / 2
  {
    var i := Shr(p, l);
    ShlShr(p, l);
    ShrShl(Sibling(i), l);
    assert Shr(p, l + 1) == i / 2;
  }

  /** First page of the level-`l` block around page `p`. */
  function StartOf(p: nat, l: nat): nat {
    Shl(Shr(p, l), l)
  }

  lemma StartFacts(p: nat, l: nat)
    ensures StartOf(p, l) <= p && Aligned(StartOf(p, l), l) && Shr(StartOf(p, l), l) == Shr(p, l)
    ensures StartOf(p, l) == p <==> Aligned(p, l)
  {
    ShrShl(Shr(p, l), l);
    PagesOfBlock(p, l, Shr(p, l));
    if Aligned(p, l) {
      ShlShr(p, l);
    }
  }

  /** The level up to which the block of level `l` around `p` merges once it is free. */
  function Reach(alloc: Bitmaps, split: Bitmaps, p: nat, l: nat): (m: nat)
    requires l <= TOP
    ensures l <= m <= TOP
    decreases TOP - l
  {
    if l < TOP && IsFree(alloc, split, l, Sibling(Shr(p, l))) then Reach(alloc, split, p, l + 1) else l
  }

  /** Whether the block itself counts as allocated makes no difference to how far it merges. */
  lemma {:induction false} ReachOwnBit(alloc: Bitmaps, split: Bitmaps, p: nat, l: nat, k: nat)
    requires l <= k <= TOP
    ensures Reach(Clear(alloc, l, Shr(p, l)), split, p, k) == Reach(alloc, split, p, k)
    decreases TOP - k
  {
    if k < TOP {
      ReachOwnBit(alloc, split, p, l, k + 1);
      assert Sibling(Shr(p, k)) != Shr(p, k);
    }
  }

  /** The blocks around `p` at levels above `l` up to `m` are no longer split. */
  ghost predicate SplitUp(split0: Bitmaps, split: Bitmaps, p: nat, l: nat, m: nat) {
    forall k :: 0 <= k <= TOP ==> split[k] == split0[k] - if l < k <= m then {Shr(p, k)} else {}
  }

  lemma SplitUpStep(split0: Bitmaps, split: Bitmaps, p: nat, l: nat, m: nat)
    requires l <= m < TOP && SplitUp(split0, split, p, l, m)
    ensures SplitUp(split0, Clear(split, m + 1, Shr(p, m) / 2), p, l, m + 1)
  {
    assert Shr(p, m + 1) == Shr(p, m) / 2;
  }

  /** Merging so far has not touched the next buddy. */
  lemma BuddyUntouched(alloc: Bitmaps, split0: Bitmaps, split: Bitmaps, p: nat, l: nat, m: nat)
    requires l <= m < TOP && SplitUp(split0, split, p, l, m)
    ensures IsFree(alloc, split, m, Sibling(Shr(p, m))) <==> IsFree(alloc, split0, m, Sibling(Shr(p, m)))
  {
    assert Sibling(Shr(p, m)) != Shr(p, m);
  }

  /** No free block starts at a page of the block in hand. */
  lemma HandNotFree(alloc: Bitmaps, split: Bitmaps, l: nat, p: nat)
    requires InHand(alloc, split, l, Shr(p, l))
    ensures forall m :: 0 <= m <= TOP ==> p !in FreePages(Set(alloc, l, Shr(p, l)), split, m)
  {
    forall m | 0 <= m <= TOP
      ensures p !in FreePages(Set(alloc, l, Shr(p, l)), split, m)
    {
      if p in FreePages(Set(alloc, l, Shr(p, l)), split, m) {
        LeafUnique(Set(alloc, l, Shr(p, l)), split, p, l, m);
      }
    }
  }

  lemma AllocatedNotFree(alloc: Bitmaps, split: Bitmaps, p: nat)
    requires TreeInv(alloc, split) && p < PAGES && exists l :: 0 <= l <= TOP && Shr(p, l) in alloc[l]
    ensures forall m :: 0 <= m <= TOP ==> p !in FreePages(alloc, split, m)
  {
    var l :| 0 <= l <= TOP && Shr(p, l) in alloc[l];
    forall m | 0 <= m <= TOP
      ensures p !in FreePages(alloc, split, m)
    {
      if p in FreePages(alloc, split, m) {
        LeafUnique(alloc, split, p, l, m);
      }
    }
  }

  /** Where a merge leaves the start of the block, seen from any page of it. */
  lemma MergedFrom(p: nat, l: nat)
    ensures var i := Shr(p, l);
            && StartOf(p, l + 1) == (if Sibling(i) < i then Shl(Sibling(i), l) else StartOf(p, l))
            && (Sibling(i) < i ==> StartOf(p, l + 1) < StartOf(p, l))
  {
    var i := Shr(p, l);
    StartFacts(p, l);
    MergedStart(StartOf(p, l), l);
    assert Shr(p, l + 1) == i / 2;
    var q := if Sibling(i) < i then Shl(Sibling(i), l) else StartOf(p, l);
    ShlShr(q, l + 1);
    if Sibling(i) < i {
      assert i == Sibling(i) + 1;
      ShlStep(Sibling(i), l);
      ShlPositive(l);
    }
  }

  lemma {:induction false} ShlPositive(l: nat)
    ensures Shl(1, l) > 0
    decreases l
  {
    if l > 0 {
      ShlStep(1, l - 1);
      ShlPositive(l - 1);
    }
  }

  lemma FreeStart(alloc: Bitmaps, split: Bitmaps, l: nat, i: nat)
    requires l <= TOP && IsFree(alloc, split, l, i)
    ensures Shl(i, l) in FreePages(alloc, split, l) && Shr(Shl(i, l), l) == i
  {
    ShrShl(i, l);
    ShlBound(i, l);
  }

  /** An empty arena has at most one free block per level exactly when it is whole. */
  lemma EmptyOneBlock(alloc: Bitmaps, split: Bitmaps, free: Bitmaps)
    requires TreeInv(alloc, split) && Empty(alloc)
    requires forall l :: 0 <= l <= TOP ==> free[l] == FreePages(alloc, split, l)
    ensures (forall l, x, y :: 0 <= l <= TOP && x in free[l] && y in free[l] ==> x == y) <==> Empty(split)
    ensures NoFreePair(alloc, split) <==> Empty(split)
  {
    hide Live, Shl, Shr, FreeAt;
    if Empty(split) {
      WholeArena(alloc, split);
    } else {
      var l, i :| 0 <= l <= TOP && i in split[l];
      var m, j := DeepestSplit(alloc, split, l, i);
      FreeStart(alloc, split, m, 2 * j);
      FreeStart(alloc, split, m, 2 * j + 1);
      assert Shl(2 * j, m) in free[m] && Shl(2 * j + 1, m) in free[m];
      assert Sibling(2 * j) == 2 * j + 1;
    }
  }

  /** The buddy of a free block is live, so clear bits mean free. */
  lemma ListedBuddy(alloc: Bitmaps, split: Bitmaps, l: nat, p: nat)
    requires TreeInv(alloc, split) && l < TOP && p in FreePages(alloc, split, l)
    ensures IsFree(alloc, split, l, Shr(p, l))
    ensures var b := Sibling(Shr(p, l));
            IsFree(alloc, split, l, b) <==> b !in alloc[l] && b !in split[l]
  {}

  /** If every free page is listed and no listed node has a free buddy, no pair is left. */
  lemma NoPairFromList(alloc: Bitmaps, split: Bitmaps, l: nat, xs: seq<nat>)
    requires l < TOP
    requires forall p :: p in FreePages(alloc, split, l) ==> p in xs
    requires forall j :: 0 <= j < |xs| ==> !IsFree(alloc, split, l, Sibling(Shr(xs[j], l)))
    ensures NoPairAt(alloc, split, l)
  {
    forall i: nat | IsFree(alloc, split, l, i)
      ensures !IsFree(alloc, split, l, Sibling(i))
    {
      FreeStart(alloc, split, l, i);
      assert Shl(i, l) in xs;
    }
  }

  /** Pairs of level `l` depend only on the bitmaps of that level and the split bits above. */
  lemma PairFrame(alloc: Bitmaps, split: Bitmaps, s: Bitmaps, l: nat)
    requires l < TOP && NoPairAt(alloc, split, l)
    requires s[l] == split[l] && s[l + 1] == split[l + 1]
    ensures NoPairAt(alloc, s, l)
  {}

  lemma NoPairsAnywhere(alloc: Bitmaps, split: Bitmaps)
    ensures NoFreePair(alloc, split) <==> forall l :: 0 <= l < TOP ==> NoPairAt(alloc, split, l)
  {
    hide IsFree;
    if forall l :: 0 <= l < TOP ==> NoPairAt(alloc, split, l) {
      forall l: nat, i: nat | l < TOP && IsFree(alloc, split, l, i)
        ensures !IsFree(alloc, split, l, Sibling(i))
      {
        assert NoPairAt(alloc, split, l);
      }
    }
  }

  /** With every free page listed, empty lists mean no free block. */
  lemma EmptyListsMeaning(alloc: Bitmaps, split: Bitmaps, lists: seq<seq<nat>>, t: nat)
    requires TreeInv(alloc, split) && t <= TOP && |lists| == 7
    requires forall l, p :: 0 <= l <= TOP ==> (p in lists[l] <==> p in FreePages(alloc, split, l))
    ensures (forall l :: t <= l <= TOP ==> lists[l] == []) <==> NoFreeFrom(alloc, split, t)
  {
    if forall l :: t <= l <= TOP ==> lists[l] == [] {
      forall l: nat, i: nat | t <= l <= TOP
        ensures !IsFree(alloc, split, l, i)
      {
        if IsFree(alloc, split, l, i) {
          FreeStart(alloc, split, l, i);
        }
      }
    } else {
      var l :| t <= l <= TOP && lists[l] != [];
      assert lists[l][0] in FreePages(alloc, split, l);
    }
  }
}
