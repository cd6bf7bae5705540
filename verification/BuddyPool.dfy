/**
 The pool of up to 256 buddy arenas: allocation from arenas in use, drained or
 fresh, the free path with its drain step, and the idle sweep. Every operation
 runs under the pool mutex and is one step here. `deferred` and `debug` stand
 for the two configuration options the code reads, `region` for the address the
 page heap would return, 0 when it is exhausted.
 */
module BuddyPool {
  import opened Basics
  import opened BuddyTree
  import opened FreeLists
  import opened FreePairs
  import opened BuddyArena

  const MAX_ARENAS: nat := 256
  const UINT32_MAX: nat := 0xFFFF_FFFF

  datatype Slot = Slot(buddy: Buddy, inUse: bool, drained: bool, idle: nat)

  /** What one background tick does to a slot. */
  function SweepSlot(s: Slot, maxIdle: nat): Slot {
    if !s.inUse || !s.drained then s
    else
      var idle := if s.idle < UINT32_MAX then s.idle + 1 else s.idle;
      if idle >= maxIdle then s.(inUse := false, drained := false, idle := 0) else s.(idle := idle)
  }

  function SweptTimes(s: Slot, maxIdle: nat, n: nat): Slot {
    if n == 0 then s else SweepSlot(SweptTimes(s, maxIdle, n - 1), maxIdle)
  }

  /** The tick at which a drained slot of age `idle` is released. */
  function DueAt(idle: nat, maxIdle: nat): nat {
    if idle + 1 >= maxIdle then 1 else maxIdle - idle
  }

  /**
   An arena that stays drained is kept, one tick older at each sweep, up to
   the tick before its age reaches the limit; at that tick, and at the first
   one if the limit is zero, it is released.
   */
  lemma {:induction false} ReleasedOnTime(s: Slot, maxIdle: nat, n: nat)
    requires s.inUse && s.drained && maxIdle <= UINT32_MAX
    ensures n < DueAt(s.idle, maxIdle) ==> SweptTimes(s, maxIdle, n) == s.(idle := s.idle + n)
    ensures n >= DueAt(s.idle, maxIdle) ==> !SweptTimes(s, maxIdle, n).inUse
    decreases n
  {
    if n > 0 {
      ReleasedOnTime(s, maxIdle, n - 1);
    }
  }

  /** A slot after a block of its arena was freed: drained, with its age at zero, if that was the last block. */
  function Settled(s: Slot, empty: bool): Slot {
    if empty then s.(drained := true, idle := 0) else s
  }

  /** Number of the first `n` slots that the tick takes out of use. */
  function Released(slots: seq<Slot>, n: nat, maxIdle: nat): nat
    requires n <= |slots|
  {
    if n == 0 then 0
    else Released(slots, n - 1, maxIdle)
         + if slots[n - 1].inUse && !SweepSlot(slots[n - 1], maxIdle).inUse then 1 else 0
  }

  lemma BlockNotEmpty(base: nat, alloc: Bitmaps, ptr: nat, l: nat)
    requires BlockAt(base, alloc, ptr, l)
    ensures !Empty(alloc)
  {}

  lemma BlockInside(base: nat, alloc: Bitmaps, ptr: nat, l: nat)
    requires BlockAt(base, alloc, ptr, l)
    ensures base <= ptr < base + MAX_BLOCK
  {}

  lemma OnlyBlock(before: Bitmaps, after: Bitmaps, base: nat, ptr: nat, t: nat)
    requires Empty(before) && Took(before, after, base, ptr, t) && BlockAt(base, after, ptr, t)
    ensures forall q, l :: BlockAt(base, after, q, l) <==> q == ptr && l == t
  {
    TookBlocks(before, after, base, ptr, t);
  }

  // ---------------------------------------------------------------------
  // The pool as a value: which arenas are in use, where, holding what
  // ---------------------------------------------------------------------

  datatype ArenaView = ArenaView(inUse: bool, base: nat, alloc: Bitmaps)

  /** `ptr` starts an allocated block of level `l` in some arena in use. */
  ghost predicate LiveIn(view: seq<ArenaView>, ptr: nat, l: nat) {
    exists i :: 0 <= i < |view| && view[i].inUse && BlockAt(view[i].base, view[i].alloc, ptr, l)
  }

  ghost predicate Apart(view: seq<ArenaView>) {
    && (forall i :: 0 <= i < |view| && view[i].inUse ==> view[i].base > 0 && view[i].base % MAX_BLOCK == 0)
    && (forall i, j :: 0 <= i < j < |view| && view[i].inUse && view[j].inUse ==> view[i].base != view[j].base)
  }

  /** `region` is fit to become the base of one more arena. */
  ghost predicate Unused(view: seq<ArenaView>, region: nat) {
    region % MAX_BLOCK == 0 && forall i :: 0 <= i < |view| && view[i].inUse ==> view[i].base != region
  }

  /** `ptr` lies in some page of an allocated level-`l` block. */
  ghost predicate WithinIn(view: seq<ArenaView>, ptr: nat, l: nat) {
    exists i :: 0 <= i < |view| && view[i].inUse && view[i].base <= ptr < view[i].base + MAX_BLOCK
                && l <= TOP && Shr((ptr - view[i].base) / MIN_BLOCK, l) in view[i].alloc[l]
  }

  /** `ptr` lies in a live block of the arena in slot `i`. */
  ghost predicate OwnsIn(view: seq<ArenaView>, i: nat, ptr: nat) {
    && i < |view| && view[i].inUse && view[i].base <= ptr < view[i].base + MAX_BLOCK
    && exists l :: 0 <= l <= TOP && Shr((ptr - view[i].base) / MIN_BLOCK, l) in view[i].alloc[l]
  }

  lemma NobodyOwns(view: seq<ArenaView>, ptr: nat)
    requires forall l :: !WithinIn(view, ptr, l)
    ensures forall i :: !OwnsIn(view, i, ptr)
  {
    forall i: nat
      ensures !OwnsIn(view, i, ptr)
    {
      if OwnsIn(view, i, ptr) {
        var l :| 0 <= l <= TOP && Shr((ptr - view[i].base) / MIN_BLOCK, l) in view[i].alloc[l];
        assert WithinIn(view, ptr, l);
      }
    }
  }

  lemma OneOwns(view: seq<ArenaView>, k: nat, ptr: nat, l: nat)
    requires Apart(view) && k < |view| && view[k].inUse && view[k].base <= ptr < view[k].base + MAX_BLOCK
    requires l <= TOP && Shr((ptr - view[k].base) / MIN_BLOCK, l) in view[k].alloc[l]
    ensures forall i :: OwnsIn(view, i, ptr) <==> i == k
  {
    forall i | OwnsIn(view, i, ptr)
      ensures i == k
    {
      OneOwner(view, i, k, ptr);
    }
  }

  lemma NotOwned(view: seq<ArenaView>, ptr: nat)
    requires forall i :: 0 <= i < |view| && view[i].inUse ==> !(view[i].base <= ptr < view[i].base + MAX_BLOCK)
    ensures forall l :: !WithinIn(view, ptr, l) && !LiveIn(view, ptr, l)
  {}

  lemma Owner(view: seq<ArenaView>, ptr: nat, l: nat) returns (i: nat)
    requires WithinIn(view, ptr, l)
    ensures i < |view| && view[i].inUse && view[i].base <= ptr < view[i].base + MAX_BLOCK
    ensures l <= TOP && Shr((ptr - view[i].base) / MIN_BLOCK, l) in view[i].alloc[l]
  {
    i :| 0 <= i < |view| && view[i].inUse && view[i].base <= ptr < view[i].base + MAX_BLOCK
         && l <= TOP && Shr((ptr - view[i].base) / MIN_BLOCK, l) in view[i].alloc[l];
  }

  lemma LiveOwner(view: seq<ArenaView>, k: nat, ptr: nat, l: nat)
    requires Apart(view) && k < |view| && view[k].inUse && view[k].base <= ptr < view[k].base + MAX_BLOCK
    ensures LiveIn(view, ptr, l) <==> BlockAt(view[k].base, view[k].alloc, ptr, l)
  {
    if LiveIn(view, ptr, l) {
      var i :| 0 <= i < |view| && view[i].inUse && BlockAt(view[i].base, view[i].alloc, ptr, l);
      OneOwner(view, i, k, ptr);
    }
  }

  lemma WithinOwner(view: seq<ArenaView>, k: nat, ptr: nat)
    requires Apart(view) && k < |view| && view[k].inUse && view[k].base <= ptr < view[k].base + MAX_BLOCK
    ensures forall l: nat :: WithinIn(view, ptr, l) <==> l <= TOP && Shr((ptr - view[k].base) / MIN_BLOCK, l) in view[k].alloc[l]
  {}

  /** An address belongs to at most one arena in use. */
  lemma OneOwner(view: seq<ArenaView>, i: nat, j: nat, ptr: nat)
    requires Apart(view) && i < |view| && j < |view| && view[i].inUse && view[j].inUse
    requires view[i].base <= ptr < view[i].base + MAX_BLOCK && view[j].base <= ptr < view[j].base + MAX_BLOCK
    ensures i == j
  {}

  lemma LiveTake(view: seq<ArenaView>, k: nat, after: Bitmaps, ptr: nat, t: nat)
    requires Apart(view) && k < |view| && view[k].inUse
    requires Took(view[k].alloc, after, view[k].base, ptr, t) && BlockAt(view[k].base, after, ptr, t)
    ensures !LiveIn(view, ptr, t)
    ensures forall q, l :: LiveIn(view[k := view[k].(alloc := after)], q, l) <==> LiveIn(view, q, l) || (q == ptr && l == t)
  {
    assert view[k].base <= ptr < view[k].base + MAX_BLOCK;
    hide BlockAt, Took, Apart;
    TookBlocks(view[k].alloc, after, view[k].base, ptr, t);
    var view' := view[k := view[k].(alloc := after)];
    NotElsewhere(view, k, ptr, t);
    forall q: nat, l: nat
      ensures LiveIn(view', q, l) <==> LiveIn(view, q, l) || (q == ptr && l == t)
    {
      if LiveIn(view', q, l) {
        var i :| 0 <= i < |view'| && view'[i].inUse && BlockAt(view'[i].base, view'[i].alloc, q, l);
        assert i != k ==> view'[i] == view[i];
      }
      if LiveIn(view, q, l) {
        var i :| 0 <= i < |view| && view[i].inUse && BlockAt(view[i].base, view[i].alloc, q, l);
        assert view'[i].inUse && BlockAt(view'[i].base, view'[i].alloc, q, l);
      }
      assert view'[k].inUse && BlockAt(view'[k].base, view'[k].alloc, ptr, t);
    }
  }

  /** A block inside arena `k` cannot be live through another arena. */
  lemma NotElsewhere(view: seq<ArenaView>, k: nat, ptr: nat, t: nat)
    requires Apart(view) && k < |view| && view[k].inUse
    requires view[k].base <= ptr < view[k].base + MAX_BLOCK
    requires !BlockAt(view[k].base, view[k].alloc, ptr, t)
    ensures !LiveIn(view, ptr, t)
  {}

  lemma LiveGive(view: seq<ArenaView>, k: nat, after: Bitmaps, ptr: nat, t: nat)
    requires Apart(view) && k < |view| && view[k].inUse
    requires Gave(view[k].alloc, after, view[k].base, ptr, t) && BlockAt(view[k].base, view[k].alloc, ptr, t)
    ensures forall q, l :: LiveIn(view[k := view[k].(alloc := after)], q, l) <==> LiveIn(view, q, l) && !(q == ptr && l == t)
  {
    hide Gave;
    GaveBlocks(view[k].alloc, after, view[k].base, ptr, t);
    var view' := view[k := view[k].(alloc := after)];
    forall q: nat, l: nat
      ensures LiveIn(view', q, l) <==> LiveIn(view, q, l) && !(q == ptr && l == t)
    {
      if LiveIn(view', q, l) {
        var i :| 0 <= i < |view'| && view'[i].inUse && BlockAt(view'[i].base, view'[i].alloc, q, l);
        assert view[i].inUse && BlockAt(view[i].base, view[i].alloc, q, l);
        if q == ptr && l == t && i != k {
          OneOwner(view, i, k, ptr);
        }
      }
      if LiveIn(view, q, l) && !(q == ptr && l == t) {
        var i :| 0 <= i < |view| && view[i].inUse && BlockAt(view[i].base, view[i].alloc, q, l);
        assert view'[i].inUse && BlockAt(view'[i].base, view'[i].alloc, q, l);
      }
    }
  }

  /** Putting an arena with one block into an unused slot. */
  lemma LiveNew(view: seq<ArenaView>, k: nat, arena: ArenaView, ptr: nat, t: nat)
    requires Apart(view) && Unused(view, arena.base)
    requires k < |view| && !view[k].inUse && arena.inUse && BlockAt(arena.base, arena.alloc, ptr, t)
    requires forall q, l :: BlockAt(arena.base, arena.alloc, q, l) ==> q == ptr && l == t
    ensures !LiveIn(view, ptr, t)
    ensures forall q, l :: LiveIn(view[k := arena], q, l) <==> LiveIn(view, q, l) || (q == ptr && l == t)
  {
    if LiveIn(view, ptr, t) {
      var i :| 0 <= i < |view| && view[i].inUse && BlockAt(view[i].base, view[i].alloc, ptr, t);
      ArenasApart(view[i].base, arena.base, ptr, ptr);
    }
    hide BlockAt;
    var view' := view[k := arena];
    forall q: nat, l: nat
      ensures LiveIn(view', q, l) <==> LiveIn(view, q, l) || (q == ptr && l == t)
    {
      if LiveIn(view, q, l) {
        var i :| 0 <= i < |view| && view[i].inUse && BlockAt(view[i].base, view[i].alloc, q, l);
        assert view'[i].inUse && BlockAt(view'[i].base, view'[i].alloc, q, l);
      }
      assert view'[k].inUse && BlockAt(view'[k].base, view'[k].alloc, ptr, t);
    }
  }

  /** Taking arenas without blocks out of use changes no live block. */
  lemma EmptiesLeave(view: seq<ArenaView>, view': seq<ArenaView>)
    requires |view'| == |view|
    requires forall i :: 0 <= i < |view| ==>
               view'[i] == view[i] || (view'[i] == view[i].(inUse := false) && Empty(view[i].alloc))
    ensures forall q, l :: LiveIn(view', q, l) <==> LiveIn(view, q, l)
  {}

  /** A fresh arena serves any request that fits it. */
  method FreshArena(size: nat, region: nat) returns (buddy: Buddy, ptr: nat)
    requires 0 < size <= MAX_BLOCK && region > 0 && region % MAX_BLOCK == 0
    ensures fresh(buddy) && buddy.base == region && ptr != 0
    ensures buddy.Valid() && buddy.Complete() && buddy.Coalesced()
    ensures SizeToLevel(size) <= TOP && buddy.Holds(ptr, SizeToLevel(size))
    ensures forall q, l :: BlockAt(region, buddy.alloc, q, l) ==> q == ptr && l == SizeToLevel(size)
  {
    hide Buddy.Core, Buddy.Complete, Buddy.Coalesced, SizeToLevel, Took, BlockAt, NoFreePair, Empty;
    buddy := new Buddy(region);
    ghost var before := buddy.alloc;
    TopIsMax(size);
    assert buddy.lists[TOP] == [0] && !buddy.Exhausted(size);
    ghost var from;
    ptr, from := buddy.Alloc(size, None);
    OnlyBlock(before, buddy.alloc, region, ptr, SizeToLevel(size));
  }

  lemma LevelOfBlock(l: nat)
    ensures SizeToLevel(BlockSize(l)) == l
  {
    SizeToLevelIsLeast(BlockSize(l), l);
    if l > 0 {
      MinIsLeast(l - 1);
      SizeToLevelIsLeast(BlockSize(l), l - 1);
    }
  }

  /** The code lists a block freed at `ptr` at the start of that block, or of the block it merges into. */
  ghost predicate Accounted(alloc: Bitmaps, split: Bitmaps, base: nat, ptr: nat, l: nat, deferred: bool)
    requires l <= TOP && base <= ptr
  {
    var page := (ptr - base) / MIN_BLOCK;
    Lands(page, (ptr - base) % MIN_BLOCK, l, if deferred then l else Reach(alloc, split, page, l))
  }

  lemma StartIsAccounted(alloc: Bitmaps, split: Bitmaps, base: nat, ptr: nat, l: nat, deferred: bool)
    requires l <= TOP && base <= ptr < base + MAX_BLOCK && Shr((ptr - base) / MIN_BLOCK, l) in alloc[l]
    ensures BlockAt(base, alloc, ptr, l) ==> Accounted(alloc, split, base, ptr, l, deferred)
    ensures deferred ==> (BlockAt(base, alloc, ptr, l) <==> Accounted(alloc, split, base, ptr, l, deferred))
  {}

  /** Some one node of the arena is listed away from the start of its block. */
  ghost predicate HasStray(buddy: Buddy)
    reads buddy
  {
    exists l, at, skew :: buddy.Misplaced(l, at, skew)
  }

  lemma StrayKept(buddy: Buddy, l: nat, at: nat, skew: nat, lists: Lists)
    requires AllOk(buddy.free, buddy.lists, buddy.head, buddy.next, buddy.prev) && buddy.lists == FirstOnly(lists)
    requires l <= TOP && at < PAGES && skew < MIN_BLOCK && !(Aligned(at, l) && skew == 0)
    requires InHand(buddy.alloc, buddy.split, l, Shr(at, l)) && lists[l] != [] && lists[l][0] == at
    requires forall m :: 0 <= m <= TOP ==>
      buddy.free[m] == FreePages(Set(buddy.alloc, l, Shr(at, l)), buddy.split, m) + if m == l then {at} else {}
    requires buddy.offsets == if skew == 0 then map[] else map[at := skew]
    ensures buddy.Misplaced(l, at, skew)
  {}

  /** Drop the pages of an arena, keeping whatever its lists still reach. */
  method Drain(buddy: Buddy)
    requires buddy.Valid() || HasStray(buddy)
    modifies buddy`next, buddy`prev, buddy`lists
    ensures buddy.Valid() <==> old(buddy.Valid())
    ensures buddy.Valid() || HasStray(buddy)
    ensures buddy.next == Zeroed() && buddy.prev == Zeroed()
    ensures buddy.Coalesced() == old(buddy.Coalesced())
    ensures old(buddy.Valid() && buddy.Complete() && buddy.Coalesced()) && Empty(buddy.alloc) ==> buddy.Complete()
  {
    hide AllOk, Buddy.Core, Buddy.Complete, Buddy.Coalesced, Empty, FreePages, InHand, Shr, Aligned;
    ghost var valid, lists := buddy.Valid(), buddy.lists;
    assert AllOk(buddy.free, buddy.lists, buddy.head, buddy.next, buddy.prev) by { LinksOk(buddy); }
    ghost var l: nat, at: nat, skew: nat := 0, 0, 0;
    if !valid {
      l, at, skew :| buddy.Misplaced(l, at, skew);
    }
    buddy.DropPages();
    if !valid {
      StrayKept(buddy, l, at, skew, lists);
      buddy.MisplacedIsNotValid(l, at, skew);
    }
  }

  lemma LinksOk(buddy: Buddy)
    requires buddy.Valid() || HasStray(buddy)
    ensures AllOk(buddy.free, buddy.lists, buddy.head, buddy.next, buddy.prev)
  {}

  /**
   Give the block around `ptr` back to its arena and drop the pages of an
   arena that empties. The arena stays sound exactly when the block is listed
   at its start.
   */
  method FreeInArena(buddy: Buddy, ptr: nat, ghost l: nat, size: nat, deferred: bool, debug: bool) returns (empty: bool)
    requires buddy.Valid() && ptr != 0 && buddy.Covers(ptr, l) && size == BlockSize(l)
    modifies buddy
    ensures buddy.base == old(buddy.base)
    ensures buddy.Valid() <==> old(Accounted(buddy.alloc, buddy.split, buddy.base, ptr, l, deferred))
    ensures !buddy.Valid() ==> HasStray(buddy)
    ensures Gave(old(buddy.alloc), buddy.alloc, buddy.base, ptr, l)
    ensures empty <==> Empty(buddy.alloc)
    ensures empty && !debug ==> buddy.next == Zeroed() && buddy.prev == Zeroed()
    ensures !deferred && old(buddy.Complete() && buddy.Coalesced()) && buddy.Valid() ==> buddy.Complete() && buddy.Coalesced()
  {
    hide Buddy.Core, Buddy.Complete, Buddy.Coalesced, Buddy.Misplaced, Gave, Empty, SizeToLevel, BlockSize, SplitUp, TreeInv, Reach, StartOf, Aligned, BlockAt;
    LevelOfBlock(l);
    StartIsAccounted(buddy.alloc, buddy.split, buddy.base, ptr, l, deferred);
    if deferred {
      buddy.FreeNoCoalesce(ptr, size);
    } else {
      buddy.Free(ptr, size);
    }
    empty := buddy.IsEmpty();
    if empty && !debug {
      Drain(buddy);
    }
  }

  /** What a merging sweep keeps of an arena. */
  twostate predicate Merged(b: Buddy, any: bool)
    reads b
  {
    && (old(b.Valid()) ==> b.Valid())
    && b.alloc == old(b.alloc) && b.base == old(b.base)
    && (any || b.lists == old(b.lists))
  }

  /** What one request of level `t` leaves of a fresh arena: the right halves on the way down. */
  ghost predicate Halved(buddy: Buddy, t: nat)
    reads buddy
  {
    && (forall m :: 0 <= m <= TOP ==> buddy.alloc[m] == if m == t then {0} else {})
    && (forall m :: 0 <= m <= TOP ==> buddy.split[m] == if t < m then {0} else {})
    && (forall m :: 0 <= m <= TOP ==> buddy.lists[m] == if t <= m < TOP then [Shl(1, m)] else [])
  }

  method FirstOf(size: nat, ghost t: nat) returns (buddy: Buddy, ptr: nat)
    requires 0 < size <= MAX_BLOCK && SizeToLevel(size) == t < TOP
    ensures fresh(buddy) && buddy.Valid() && buddy.Complete() && buddy.base == MAX_BLOCK && ptr == MAX_BLOCK
    ensures Halved(buddy, t)
  {
    hide Buddy.Core, Buddy.Complete, Buddy.Coalesced, SizeToLevel, BlockAt, Took, TreeInv;
    buddy := new Buddy(MAX_BLOCK);
    assert buddy.lists[TOP] == [0] && !buddy.Exhausted(size);
    ghost var from;
    ptr, from := buddy.Alloc(size, None);
    assert from == TOP;
    forall m | 0 <= m <= TOP
      ensures Shr(0, m) == 0
    {
      ZeroShr(m);
    }
  }

  /** A request whose own level has a node takes the first one and nothing else. */
  method TakeListed(buddy: Buddy, size: nat, ghost t: nat) returns (ptr: nat)
    requires buddy.Valid() && 0 < size <= MAX_BLOCK && SizeToLevel(size) == t <= TOP && buddy.lists[t] != []
    modifies buddy
    ensures buddy.Valid() && buddy.base == old(buddy.base) && buddy.Holds(ptr, t)
    ensures old(buddy.Complete()) ==> buddy.Complete()
    ensures var p := old(buddy.lists)[t][0];
            && ptr == buddy.base + p * MIN_BLOCK
            && buddy.alloc == Set(old(buddy.alloc), t, Shr(p, t))
    ensures forall m :: 0 <= m <= TOP ==> buddy.split[m] == old(buddy.split)[m]
    ensures forall m :: 0 <= m <= TOP ==> buddy.lists[m] == if m == t then old(buddy.lists)[m][1..] else old(buddy.lists)[m]
  {
    hide Buddy.Core, Buddy.Complete, Buddy.Coalesced, SizeToLevel, BlockAt, Took, TreeInv;
    assert !buddy.Exhausted(size);
    ghost var from;
    ptr, from := buddy.Alloc(size, None);
    assert from == t;
  }

  /**
   The free lists do not survive a drain in deferred mode: one 4 KiB block
   allocated and returned leaves the arena empty but divided, and dropping
   its pages strands free blocks.
   */
  method DeferredDrainStrands() returns (buddy: Buddy)
    ensures buddy.Valid() && Empty(buddy.alloc) && !buddy.Complete()
  {
    hide Buddy.Core, Buddy.Complete, Buddy.Coalesced, BlockAt, Shr, ListsDown;
    buddy := new Buddy(MAX_BLOCK);
    ghost var before := buddy.alloc;
    assert SizeToLevel(4096) == 0 && buddy.lists[TOP] == [0];
    assert !buddy.Exhausted(4096);
    var ptr, from := buddy.Alloc(4096, None);
    assert from == TOP && Shr(0, TOP) in buddy.split[TOP];
    ghost var middle := buddy.alloc;
    buddy.FreeNoCoalesce(ptr, 4096);
    TakeThenGive(before, middle, buddy.alloc, buddy.base, ptr, 0);
    LinksOk(buddy);
    buddy.DropPages();
  }

  lemma TakeThenGive(a: Bitmaps, b: Bitmaps, c: Bitmaps, base: nat, ptr: nat, t: nat)
    requires Took(a, b, base, ptr, t) && Gave(b, c, base, ptr, t)
    ensures c == a
  {}

  /** Only the blocks at the left edge are split. */
  ghost predicate LeftEdge(split: Bitmaps) {
    forall m :: 0 <= m <= TOP ==> split[m] == if 0 < m then {0} else {}
  }

  lemma {:induction false} EdgeCount(split: Bitmaps, n: nat)
    requires LeftEdge(split) && n <= TOP
    ensures SplitCount(split, n) == n
  {
    if n > 0 {
      EdgeCount(split, n - 1);
    }
  }

  lemma EdgePairs(alloc: Bitmaps, split: Bitmaps, m: nat)
    requires Empty(alloc) && LeftEdge(split) && m < TOP
    ensures Pairs(alloc, split, m) == if m == 0 then {0} else {}
  {
    hide Width;
    assert split[m + 1] == {0} && 2 * 0 == 0;
    if m == 0 {
      assert 1 < Width(0) by { WidthIs(); }
      assert IsFree(alloc, split, 0, 2 * 0) && IsFree(alloc, split, 0, 2 * 0 + 1);
    } else {
      assert !IsFree(alloc, split, m, 2 * 0);
    }
  }

  lemma WidthIs()
    ensures Width(0) == 64
  {
    assert Width(4) == 4;
    assert Width(2) == 16;
  }

  lemma {:induction false} OnePair(alloc: Bitmaps, split: Bitmaps, n: nat)
    requires Empty(alloc) && LeftEdge(split) && n <= TOP
    ensures PairCount(alloc, split, n) == if n == 0 then 0 else 1
  {
    hide Pairs;
    if n > 0 {
      OnePair(alloc, split, n - 1);
      EdgePairs(alloc, split, n - 1);
    }
  }

  lemma {:induction false} NoneCanonical(alloc: Bitmaps, n: nat)
    requires Empty(alloc) && n <= TOP
    ensures CanonicalSplit(alloc, n) == {}
  {
    if n > 0 {
      NoneCanonical(alloc, n - 1);
    }
  }

  lemma {:induction false} NoneSplit(alloc: Bitmaps, split: Bitmaps, n: nat)
    requires Empty(alloc) && n <= TOP && forall l :: 0 <= l <= TOP ==> split[l] == CanonicalSplit(alloc, l)
    ensures SplitCount(split, n) == 0
  {
    hide CanonicalSplit;
    NoneCanonical(alloc, n);
    if n > 0 {
      NoneSplit(alloc, split, n - 1);
    }
  }

  /**
   The count is not that of the merges made: one 4 KiB block allocated and
   returned leaves six split blocks, the sweep merges all of them and counts
   one.
   */
  method SweepCountsOne() returns (buddy: Buddy, merges: nat, ghost split: Bitmaps)
    ensures buddy.Valid() && merges == 1 && SplitCount(split, TOP) == 6 && SplitCount(buddy.split, TOP) == 0
  {
    hide Buddy.Core, Buddy.Complete, Buddy.Coalesced, Buddy.Misplaced, SplitCount, PairCount, NestedCount, CanonicalSplit;
    assert SizeToLevel(4096) == 0 && Shr(0, 0) == 0;
    var ptr;
    buddy, ptr := FirstOf(4096, 0);
    ghost var before := buddy.alloc;
    buddy.FreeNoCoalesce(ptr, 4096);
    GaveIs(before, buddy.alloc, buddy.base, ptr, 0);
    split := buddy.split;
    EdgeCount(split, TOP);
    OnePair(buddy.alloc, split, TOP);
    merges := buddy.CoalesceAll();
    NoneSplit(buddy.alloc, buddy.split, TOP);
  }

  /** After the left edge of a fresh arena is taken page by page, the blocks of levels 1 to `t` - 1 follow. */
  ghost predicate Filled(buddy: Buddy, t: nat)
    reads buddy
  {
    && (forall m :: 0 <= m <= TOP ==> buddy.alloc[m] == if m == 0 then {0, 1} else if m < t then {1} else {})
    && (forall m :: 0 <= m <= TOP ==> buddy.split[m] == if 0 < m then {0} else {})
    && (forall m :: 0 <= m <= TOP ==> buddy.lists[m] == if t <= m < TOP then [Shl(1, m)] else [])
  }

  /**
   The refusal is reached by calls: two 4 KiB blocks, one block of every size
   from 8 to 128 KiB, then both 4 KiB blocks back without merging. The next
   8 KiB request is refused though 8 KiB are free in one place.
   */
  method DeferredRefusalReached() returns (buddy: Buddy)
    ensures buddy.Valid() && buddy.Complete() && SizeToLevel(8192) <= TOP && buddy.Exhausted(8192) && !buddy.Full(8192)
  {
    hide Buddy.Core, Buddy.Complete, Buddy.Coalesced, Buddy.Misplaced;
    EightKilobytes();
    assert SizeToLevel(4096) == 0;
    var left, right;
    buddy, left := FirstOf(4096, 0);
    right := TakeListed(buddy, 4096, 0);
    assert Filled(buddy, 1);
    FillUp(buddy);
    ReturnPair(buddy, left, right);
    DeferredFailureNotExact(buddy.alloc, buddy.split);
  }

  method ReturnPair(buddy: Buddy, left: nat, right: nat)
    requires buddy.Valid() && buddy.Complete() && Filled(buddy, TOP)
    requires left == buddy.base && right == buddy.base + MIN_BLOCK
    modifies buddy
    ensures buddy.Valid() && buddy.Complete()
    ensures forall m :: 1 <= m <= TOP ==> buddy.lists[m] == []
    ensures buddy.alloc == [{}, {1}, {1}, {1}, {1}, {1}, {}] && buddy.split == [{}, {0}, {0}, {0}, {0}, {0}, {0}]
  {
    hide Buddy.Core, Buddy.Complete, Buddy.Coalesced, Buddy.Misplaced;
    assert SizeToLevel(4096) == 0 && Shr(0, 0) == 0 && Shr(1, 0) == 1;
    ghost var a0 := buddy.alloc;
    buddy.FreeNoCoalesce(left, 4096);
    ghost var a1 := buddy.alloc;
    GaveIs(a0, a1, buddy.base, left, 0);
    buddy.FreeNoCoalesce(right, 4096);
    GaveIs(a1, buddy.alloc, buddy.base, right, 0);
    PairGone(a0, a1, buddy.alloc);
  }

  lemma PairGone(a0: Bitmaps, a1: Bitmaps, a2: Bitmaps)
    requires forall m :: 0 <= m <= TOP ==> a0[m] == if m == 0 then {0, 1} else if m < TOP then {1} else {}
    requires a1 == Clear(a0, 0, 0) && a2 == Clear(a1, 0, 1)
    ensures a2 == [{}, {1}, {1}, {1}, {1}, {1}, {}]
  {
    assert {0, 1} - {0} - {1} == {};
  }

  /** One block of every size from 8 to 128 KiB. */
  method FillUp(buddy: Buddy)
    requires buddy.Valid() && buddy.Complete() && buddy.base == MAX_BLOCK && Filled(buddy, 1)
    modifies buddy
    ensures buddy.Valid() && buddy.Complete() && buddy.base == MAX_BLOCK && Filled(buddy, TOP)
  {
    hide Buddy.Core, Buddy.Complete, Buddy.Coalesced, BlockAt, SizeToLevel, BlockSize, Shl, Shr;
    for t := 1 to TOP
      invariant buddy.Valid() && buddy.Complete() && buddy.base == MAX_BLOCK && Filled(buddy, t)
    {
      LevelOfBlock(t);
      MinIsLeast(t);
      TopIsMax(BlockSize(t));
      ShrShl(1, t);
      var ptr := TakeListed(buddy, BlockSize(t), t);
    }
  }

  // ---------------------------------------------------------------------
  // Pointers into the middle of a block
  // ---------------------------------------------------------------------

  lemma EightKilobytes()
    ensures SizeToLevel(8192) == 1 && BlockSize(1) == 8192
  {
    SizeToLevelIsLeast(8192, 0);
    SizeToLevelIsLeast(8192, 1);
  }

  /**
   Two 8 KiB blocks, the second page of the first one freed, 8 KiB again: the
   third object starts at that page and runs into the second.
   */
  method InteriorFreeOverlaps() returns (buddy: Buddy, x: nat, y: nat)
    ensures buddy.Valid() && buddy.Holds(y, 1) && x < y < x + BlockSize(1)
  {
    hide Buddy.Core, Buddy.Complete, Buddy.Coalesced, Buddy.Exhausted;
    EightKilobytes();
    var first;
    buddy, first := FirstOf(8192, 1);
    y := TakeListed(buddy, 8192, 1);
    SecondPage();
    hide Shr, Aligned, SizeToLevel, BlockSize;
    buddy.FreeNoCoalesce(first + 4096, 8192);
    x := TakeStray(buddy, 1, 1, 0);
  }

  lemma SecondPage()
    ensures Shr(0, 1) == 0 && Shr(1, 1) == 0 && Shr(2, 1) == 1 && !Aligned(1, 1) && Aligned(2, 1)
  {}

  /** Page `p` belongs to an allocated block. */
  ghost predicate Taken(alloc: Bitmaps, p: nat) {
    exists m :: 0 <= m <= TOP && Shr(p, m) in alloc[m]
  }

  /** Take single pages until the arena has none left. */
  method Exhaust(buddy: Buddy)
    requires buddy.Valid() && buddy.Complete()
    modifies buddy
    ensures buddy.Valid() && buddy.base == old(buddy.base)
    ensures forall l :: 0 <= l <= TOP ==> old(buddy.alloc)[l] <= buddy.alloc[l]
    ensures forall p :: 0 <= p < PAGES ==> Taken(buddy.alloc, p)
  {
    hide Buddy.Core, Buddy.Complete, Buddy.Coalesced, SplitDown, ListsDown, TreeInv, Buddy.Full, Shr, BlockAt;
    assert SizeToLevel(4096) == 0;
    var more := true;
    while more
      invariant buddy.Valid() && buddy.Complete() && buddy.base == old(buddy.base)
      invariant forall l :: 0 <= l <= TOP ==> old(buddy.alloc)[l] <= buddy.alloc[l]
      invariant !more ==> buddy.Exhausted(4096)
      decreases more, PAGES - |buddy.alloc[0]|
    {
      ghost var taken := buddy.alloc[0];
      var ptr, from := buddy.Alloc(4096, None);
      more := ptr != 0;
      if more {
        OnePageMore(buddy, taken);
      }
    }
    ghost var final := buddy.alloc;
    forall p | 0 <= p < PAGES
      ensures Taken(final, p)
    {
      NothingFree(buddy, p);
    }
  }

  lemma OnePageMore(buddy: Buddy, before: set<nat>)
    requires buddy.Valid() && before < buddy.alloc[0]
    ensures |before| < |buddy.alloc[0]| <= PAGES
  {
    SmallerSet(before, buddy.alloc[0]);
    BelowIs(PAGES);
    forall i | i in buddy.alloc[0]
      ensures i in Below(PAGES)
    {
      assert Leaf(buddy.split, 0, i);
    }
    SubsetCount(buddy.alloc[0], Below(PAGES));
  }

  lemma NothingFree(buddy: Buddy, p: nat)
    requires buddy.Valid() && buddy.Complete() && buddy.Exhausted(4096) && p < PAGES
    ensures Taken(buddy.alloc, p)
  {
    var m := Tiling(buddy.alloc, buddy.split, p);
    if Shr(p, m) !in buddy.alloc[m] {
      FreeStart(buddy.alloc, buddy.split, m, Shr(p, m));
    }
  }

  /**
   From any misplaced node whose arena has nothing stranded, allocations
   alone lead to two objects that overlap, or to one that runs out of its
   arena.
   */
  method OverlapFollows(buddy: Buddy, l: nat, ghost at: nat, ghost skew: nat) returns (x: nat, ghost q: nat, ghost m: nat)
    requires buddy.base > 0 && buddy.base % MAX_BLOCK == 0 && buddy.Misplaced(l, at, skew) && buddy.Complete()
    modifies buddy
    ensures buddy.Valid() && buddy.base == old(buddy.base)
    ensures x == buddy.base + at * MIN_BLOCK + skew && Shr(at, l) in buddy.alloc[l]
    ensures || buddy.base + MAX_BLOCK < x + BlockSize(l)
            || (buddy.Holds(q, m) && q != buddy.base + StartOf(at, l) * MIN_BLOCK && x < q + BlockSize(m) && q < x + BlockSize(l))
  {
    hide Buddy.Core, Buddy.Complete, Buddy.Misplaced, Buddy.Valid, BlockSize, Shr, BlockAt;
    x := TakeStray(buddy, l, at, skew);
    Exhaust(buddy);
    q, m := FullArenaOverlaps(buddy, l, at, skew);
  }

  /** In an arena without a free page the object runs into a neighbour, or out of the arena. */
  lemma FullArenaOverlaps(buddy: Buddy, l: nat, at: nat, skew: nat) returns (q: nat, m: nat)
    requires buddy.Valid() && l <= TOP && at < PAGES && skew < MIN_BLOCK && !(Aligned(at, l) && skew == 0)
    requires Shr(at, l) in buddy.alloc[l] && forall p :: 0 <= p < PAGES ==> Taken(buddy.alloc, p)
    ensures var x := buddy.base + at * MIN_BLOCK + skew;
            || buddy.base + MAX_BLOCK < x + BlockSize(l)
            || (buddy.Holds(q, m) && q != buddy.base + StartOf(at, l) * MIN_BLOCK && x < q + BlockSize(m) && q < x + BlockSize(l))
  {
    hide Buddy.Core, BlockSize, StartOf, Shr, Shl, Aligned, BlockAt;
    q, m := 0, 0;
    var next := StartOf(at, l) + Shl(1, l);
    Overhangs(at, skew, l);
    if next < PAGES {
      assert Taken(buddy.alloc, next);
      m :| 0 <= m <= TOP && Shr(next, m) in buddy.alloc[m];
      q := buddy.base + StartOf(next, m) * MIN_BLOCK;
      Neighbour(buddy, at, l, next, m);
    }
  }

  /** The next request of the block's size gets the node where it sits. */
  method TakeStray(buddy: Buddy, l: nat, ghost at: nat, ghost skew: nat) returns (x: nat)
    requires buddy.base > 0 && buddy.base % MAX_BLOCK == 0 && buddy.Misplaced(l, at, skew)
    modifies buddy
    ensures buddy.Valid() && buddy.base == old(buddy.base)
    ensures old(buddy.Complete()) ==> buddy.Complete()
    ensures l <= TOP && at < PAGES && skew < MIN_BLOCK && !(Aligned(at, l) && skew == 0)
    ensures x == buddy.base + at * MIN_BLOCK + skew && buddy.alloc == Set(old(buddy.alloc), l, Shr(at, l))
  {
    hide Buddy.Core, Buddy.Complete, Buddy.Coalesced, SplitDown, ListsDown, TreeInv, SizeToLevel, BlockSize, Shr, Shl, AllOk, InHand, FreePages;
    LevelOfBlock(l);
    MinIsLeast(l);
    TopIsMax(BlockSize(l));
    assert !buddy.Exhausted(BlockSize(l)) by { assert buddy.lists[l] != []; }
    ghost var from;
    x, from := buddy.Alloc(BlockSize(l), Some(Stray(at, skew)));
    assert from == l;
  }

  /** An object that starts inside a block reaches the first byte after the block. */
  lemma Overhangs(at: nat, skew: nat, l: nat)
    requires skew < MIN_BLOCK && !(Aligned(at, l) && skew == 0)
    ensures var s, x := StartOf(at, l) * MIN_BLOCK, at * MIN_BLOCK + skew;
            s < x < s + BlockSize(l) && (StartOf(at, l) + Shl(1, l)) * MIN_BLOCK == s + BlockSize(l)
  {
    StartFacts(at, l);
    PagesOfBlock(at, l, Shr(at, l));
    ShlStep(0, l);
  }

  /** Another block holds the page after this one. */
  lemma Neighbour(buddy: Buddy, at: nat, l: nat, next: nat, m: nat)
    requires buddy.Valid() && l <= TOP && Shr(at, l) in buddy.alloc[l] && next == StartOf(at, l) + Shl(1, l) < PAGES
    requires m <= TOP && Shr(next, m) in buddy.alloc[m]
    ensures buddy.Holds(buddy.base + StartOf(next, m) * MIN_BLOCK, m) && StartOf(next, m) != StartOf(at, l)
    ensures StartOf(next, m) * MIN_BLOCK <= next * MIN_BLOCK < StartOf(next, m) * MIN_BLOCK + BlockSize(m)
  {
    hide Buddy.Complete, BlockSize, Shl, Shr, Aligned, AllOk, FreePages, BlockAt;
    var ptr := buddy.base + next * MIN_BLOCK;
    assert (ptr - buddy.base) / MIN_BLOCK == next;
    StartHolds(buddy.base, buddy.alloc, ptr, m);
    AnotherBlock(buddy.alloc, buddy.split, at, l, next, m);
  }

  lemma AnotherBlock(alloc: Bitmaps, split: Bitmaps, at: nat, l: nat, next: nat, m: nat)
    requires TreeInv(alloc, split) && l <= TOP && m <= TOP && Shr(at, l) in alloc[l] && Shr(next, m) in alloc[m]
    requires next == StartOf(at, l) + Shl(1, l)
    ensures StartOf(next, m) != StartOf(at, l)
  {
    StartFacts(next, m);
    StartFacts(at, l);
    PagesOfBlock(next, l, Shr(at, l));
    if StartOf(next, m) == StartOf(at, l) {
      LeafUnique(alloc, split, StartOf(at, l), l, m);
    }
  }

  /** `ptr` is the address of some byte of the level-`l` block at `q`. */
  predicate Spans(q: nat, l: nat, ptr: nat) {
    q <= ptr < q + BlockSize(l)
  }

  /** Address of the level-`l` block around `ptr`. */
  function BlockStart(base: nat, ptr: nat, l: nat): nat
    requires base <= ptr
  {
    base + StartOf((ptr - base) / MIN_BLOCK, l) * MIN_BLOCK
  }

  lemma StartHolds(base: nat, alloc: Bitmaps, ptr: nat, l: nat)
    requires l <= TOP && base <= ptr < base + MAX_BLOCK && Shr((ptr - base) / MIN_BLOCK, l) in alloc[l]
    ensures BlockAt(base, alloc, BlockStart(base, ptr, l), l)
    ensures Spans(BlockStart(base, ptr, l), l, ptr)
  {
    hide Shr, Shl, BlockSize, Aligned;
    var p := (ptr - base) / MIN_BLOCK;
    StartFacts(p, l);
    PagesOfBlock(p, l, Shr(p, l));
    ShlStep(0, l);
    var s := BlockStart(base, ptr, l);
    assert (s - base) / MIN_BLOCK == StartOf(p, l) && (s - base) % MIN_BLOCK == 0;
  }

  lemma BlockHolds(base: nat, alloc: Bitmaps, q: nat, l: nat, ptr: nat)
    requires BlockAt(base, alloc, q, l) && Spans(q, l, ptr)
    ensures l <= TOP && base <= ptr < base + MAX_BLOCK && Shr((ptr - base) / MIN_BLOCK, l) in alloc[l]
  {
    hide Shr, Shl, BlockSize, Aligned;
    var x, p := (q - base) / MIN_BLOCK, (ptr - base) / MIN_BLOCK;
    ShlShr(x, l);
    ShlStep(0, l);
    PagesOfBlock(p, l, Shr(x, l));
    ShrBound(x, l);
    ShrBound(p, l);
  }

  lemma GaveAtStart(before: Bitmaps, after: Bitmaps, base: nat, ptr: nat, l: nat)
    requires Gave(before, after, base, ptr, l)
    ensures Gave(before, after, base, BlockStart(base, ptr, l), l)
  {
    hide Shr, Shl;
    var p := (ptr - base) / MIN_BLOCK;
    StartFacts(p, l);
    assert (BlockStart(base, ptr, l) - base) / MIN_BLOCK == StartOf(p, l);
  }

  lemma OneLevel(buddy: Buddy, ptr: nat, l: nat, m: nat)
    requires buddy.Valid() && buddy.Covers(ptr, l) && buddy.Covers(ptr, m)
    ensures l == m
  {
    LeafUnique(buddy.alloc, buddy.split, (ptr - buddy.base) / MIN_BLOCK, l, m);
  }

  /** An arena in use is sound, and drained exactly while it has no allocated block. */
  ghost predicate SlotOk(s: Slot)
    reads s.buddy
  {
    && (s.drained ==> s.inUse)
    && (s.inUse ==> s.buddy.Valid() && (s.drained <==> Empty(s.buddy.alloc)))
  }

  lemma Revived(s: Slot, ptr: nat, l: nat)
    requires s.inUse && s.buddy.Valid() && s.buddy.Holds(ptr, l)
    ensures SlotOk(s.(drained := false, idle := 0))
  {}

  class Pool {
    var slots: seq<Slot>

    ghost function Arenas(): set<object>
      reads this
    {
      set i | 0 <= i < |slots| :: slots[i].buddy
    }

    ghost predicate Valid()
      reads this, Arenas()
    {
      && |slots| == MAX_ARENAS
      && (forall i, j :: 0 <= i < |slots| && 0 <= j < |slots| && i != j && slots[i].inUse ==> slots[i].buddy != slots[j].buddy)
      && (forall i, j :: 0 <= i < j < |slots| && slots[i].inUse && slots[j].inUse ==> slots[i].buddy.base != slots[j].buddy.base)
      && (forall i :: 0 <= i < |slots| ==> SlotOk(slots[i]))
    }

    /** No arena in use has stranded or unmerged blocks. */
    ghost predicate AllCoalesced()
      reads this, Arenas()
    {
      forall i :: 0 <= i < |slots| && slots[i].inUse ==> slots[i].buddy.Complete() && slots[i].buddy.Coalesced()
    }

    /** No arena in use has stranded blocks. */
    ghost predicate AllComplete()
      reads this, Arenas()
    {
      forall i :: 0 <= i < |slots| && slots[i].inUse ==> slots[i].buddy.Complete()
    }

    /** Every arena in use fails the request. */
    ghost predicate AllExhausted(size: nat)
      reads this, Arenas()
    {
      forall i :: 0 <= i < |slots| && slots[i].inUse ==> slots[i].buddy.Exhausted(size)
    }

    ghost function View(): (view: seq<ArenaView>)
      reads this, Arenas()
      ensures |view| == |slots|
    {
      seq(|slots|, i requires 0 <= i < |slots| reads this, Arenas() =>
        ArenaView(slots[i].inUse, slots[i].buddy.base, slots[i].buddy.alloc))
    }

    ghost predicate IsLive(ptr: nat, l: nat)
      reads this, Arenas()
    {
      LiveIn(View(), ptr, l)
    }

    constructor ()
      ensures Valid() && AllCoalesced()
      ensures forall p, l :: !IsLive(p, l)
    {
      var unused := new Buddy(MAX_BLOCK);
      slots := seq(MAX_ARENAS, i => Slot(unused, false, false, 0));
    }

    /** Ask the arenas in use one after the other. */
    method FirstServer(size: nat) returns (ptr: nat, k: nat)
      requires Valid() && 0 < size <= MAX_BLOCK
      modifies Arenas()
      ensures k <= |slots|
      ensures forall i :: 0 <= i < k && slots[i].inUse ==> slots[i].buddy.Exhausted(size)
      ensures forall i :: 0 <= i < |slots| && i != k ==> unchanged(slots[i].buddy)
      ensures ptr == 0 ==> k == |slots|
      ensures ptr != 0 ==>
                && k < |slots| && slots[k].inUse && !old(slots[k].buddy.Exhausted(size))
                && slots[k].buddy.Valid() && slots[k].buddy.base == old(slots[k].buddy.base)
                && (old(slots[k].buddy.Complete()) ==> slots[k].buddy.Complete())
                && (old(slots[k].buddy.Coalesced()) ==> slots[k].buddy.Coalesced())
                && SizeToLevel(size) <= TOP && slots[k].buddy.Holds(ptr, SizeToLevel(size))
                && Took(old(slots[k].buddy.alloc), slots[k].buddy.alloc, slots[k].buddy.base, ptr, SizeToLevel(size))
    {
      hide Buddy.Core, Buddy.Complete, Buddy.Coalesced, Buddy.Holds, SizeToLevel, Buddy.Exhausted, Buddy.Full, Took;
      ptr, k := 0, 0;
      while k < MAX_ARENAS
        invariant ptr == 0 && k <= MAX_ARENAS
        invariant forall i :: 0 <= i < |slots| ==> unchanged(slots[i].buddy)
        invariant forall i :: 0 <= i < k && slots[i].inUse ==> slots[i].buddy.Exhausted(size)
      {
        if slots[k].inUse {
          var obj, from := slots[k].buddy.Alloc(size, None);
          if obj != 0 {
            return obj, k;
          }
        }
        k := k + 1;
      }
    }

    /** First fit over the arenas in use; a hit revives a drained arena. */
    method TryExisting(size: nat) returns (ptr: nat, ghost k: nat)
      requires Valid() && 0 < size <= MAX_BLOCK
      modifies this, Arenas()
      ensures Valid()
      ensures old(AllCoalesced()) ==> AllCoalesced()
      ensures ptr == 0 && old(AllComplete()) ==> AllComplete()
      ensures ptr == 0 <==> old(AllExhausted(size))
      ensures ptr == 0 ==> View() == old(View()) && AllExhausted(size) && slots == old(slots)
      ensures ptr != 0 ==>
                && k < |old(slots)| && old(slots)[k].inUse && old(View())[k].inUse
                && (forall i :: 0 <= i < k && old(slots)[i].inUse ==> slots[i].buddy.Exhausted(size))
                && slots == old(slots)[k := old(slots)[k].(drained := false, idle := 0)]
                && View() == old(View())[k := old(View())[k].(alloc := View()[k].alloc)]
                && Took(old(View())[k].alloc, View()[k].alloc, View()[k].base, ptr, SizeToLevel(size))
                && BlockAt(View()[k].base, View()[k].alloc, ptr, SizeToLevel(size))
    {
      hide Buddy.Core, Buddy.Complete, Buddy.Coalesced, Buddy.Valid, SizeToLevel, Buddy.Exhausted, Took, BlockAt, Empty, SlotOk;
      var i;
      ptr, i := FirstServer(size);
      k := i;
      if ptr != 0 {
        Revive(i, ptr, SizeToLevel(size));
      }
    }

    /** The arena that served is in use again, whatever its slot said. */
    method Revive(i: nat, ghost ptr: nat, ghost l: nat)
      requires |slots| == MAX_ARENAS && i < |slots| && slots[i].inUse && slots[i].buddy.Valid() && slots[i].buddy.Holds(ptr, l)
      requires forall j, k :: 0 <= j < |slots| && 0 <= k < |slots| && j != k && slots[j].inUse ==> slots[j].buddy != slots[k].buddy
      requires forall j, k :: 0 <= j < k < |slots| && slots[j].inUse && slots[k].inUse ==> slots[j].buddy.base != slots[k].buddy.base
      requires forall j :: 0 <= j < |slots| && j != i ==> SlotOk(slots[j])
      modifies this
      ensures Valid() && View() == old(View())
      ensures old(AllCoalesced()) ==> AllCoalesced()
      ensures slots == old(slots)[i := old(slots)[i].(drained := false, idle := 0)]
    {
      hide Buddy.Core, Buddy.Complete, Buddy.Coalesced, Buddy.Valid, BlockAt, Empty, SlotOk;
      Revived(slots[i], ptr, l);
      slots := slots[i := slots[i].(drained := false, idle := 0)];
    }

    /** Two live blocks are one and the same or share no byte, whatever modes the run went through. */
    lemma LiveDisjoint(p: nat, l: nat, q: nat, m: nat)
      requires Valid() && IsLive(p, l) && IsLive(q, m) && p <= q
      ensures (p == q && l == m) || p + BlockSize(l) <= q
    {
      hide BlockSize, Aligned, Shr, TreeInv;
      var view := View();
      var i :| 0 <= i < |view| && view[i].inUse && BlockAt(view[i].base, view[i].alloc, p, l);
      var j :| 0 <= j < |view| && view[j].inUse && BlockAt(view[j].base, view[j].alloc, q, m);
      var b, c := slots[i].buddy, slots[j].buddy;
      if i == j {
        BlocksDisjoint(b.alloc, b.split, b.base, p, l, q, m);
      } else {
        BlockShape(b.alloc, b.base, p, l);
        ArenasApart(b.base, c.base, p, q);
      }
    }

    /** Put a fresh arena in the first unused slot and serve the request from it. */
    method AcquireFresh(size: nat, region: nat) returns (ptr: nat, ghost k: nat)
      requires Valid() && 0 < size <= MAX_BLOCK
      requires region == 0 || Unused(View(), region)
      modifies this
      ensures Valid()
      ensures old(AllCoalesced()) ==> AllCoalesced()
      ensures ptr == 0 && old(AllComplete()) ==> AllComplete()
      ensures ptr == 0 <==> region == 0 || forall i :: 0 <= i < |old(slots)| ==> old(slots)[i].inUse
      ensures ptr == 0 ==> slots == old(slots) && View() == old(View())
      ensures ptr == 0 && old(AllExhausted(size)) ==> AllExhausted(size)
      ensures ptr != 0 ==>
                && k < |old(slots)| && !old(slots)[k].inUse && !old(View())[k].inUse
                && slots == old(slots)[k := Slot(slots[k].buddy, true, false, 0)]
                && View() == old(View())[k := View()[k]] && View()[k].inUse && View()[k].base == region
                && BlockAt(region, View()[k].alloc, ptr, SizeToLevel(size))
                && (forall q, l :: BlockAt(region, View()[k].alloc, q, l) ==> q == ptr && l == SizeToLevel(size))
    {
      hide Buddy.Core, Buddy.Complete, Buddy.Coalesced, Buddy.Valid, Buddy.Exhausted, SizeToLevel, BlockAt, Empty;
      ptr, k := 0, 0;
      ghost var view := View();
      var i := FirstUnused();
      if i < MAX_ARENAS && region != 0 {
        var buddy, obj := FreshArena(size, region);
        assert View() == view;
        BlockNotEmpty(buddy.base, buddy.alloc, obj, SizeToLevel(size));
        Install(i, buddy);
        ptr, k := obj, i;
      }
    }

    method Install(i: nat, buddy: Buddy)
      requires Valid() && i < MAX_ARENAS && !slots[i].inUse
      requires buddy.Valid() && buddy.Complete() && buddy.Coalesced() && !Empty(buddy.alloc)
      requires buddy !in Arenas() && Unused(View(), buddy.base)
      modifies this
      ensures Valid()
      ensures old(AllCoalesced()) ==> AllCoalesced()
      ensures slots == old(slots)[i := Slot(buddy, true, false, 0)]
      ensures View() == old(View())[i := ArenaView(true, buddy.base, buddy.alloc)]
    {
      hide Buddy.Core, Buddy.Complete, Buddy.Coalesced, Buddy.Valid, BlockAt, Empty;
      ghost var view := View();
      assert forall j :: 0 <= j < |slots| ==> view[j].inUse == slots[j].inUse && view[j].base == slots[j].buddy.base;
      assert forall j :: 0 <= j < |slots| ==> slots[j].buddy != buddy;
      slots := slots[i := Slot(buddy, true, false, 0)];
    }

    method FirstUnused() returns (k: nat)
      requires |slots| == MAX_ARENAS
      ensures k <= MAX_ARENAS && (k < MAX_ARENAS ==> !slots[k].inUse)
      ensures forall i :: 0 <= i < k ==> slots[i].inUse
    {
      k := 0;
      while k < MAX_ARENAS && slots[k].inUse
        invariant k <= MAX_ARENAS
        invariant forall i :: 0 <= i < k ==> slots[i].inUse
      {
        k := k + 1;
      }
    }

    /** While coalescing is immediate, the pool fails a request only when no arena has a place for it. */
    lemma FailureIsFullness(size: nat)
      requires Valid() && AllCoalesced() && SizeToLevel(size) <= TOP
      ensures AllExhausted(size) <==> forall i :: 0 <= i < |slots| && slots[i].inUse ==> slots[i].buddy.Full(size)
    {
      hide Buddy.Core, Buddy.Complete, Buddy.Coalesced, Buddy.Valid, SizeToLevel, Buddy.Exhausted, Buddy.Full;
      forall i | 0 <= i < |slots| && slots[i].inUse
        ensures slots[i].buddy.Exhausted(size) <==> slots[i].buddy.Full(size)
      {
        slots[i].buddy.ExhaustedIsFull(size);
      }
    }

    lemma ViewApart()
      requires Valid()
      ensures Apart(View()) && |slots| == MAX_ARENAS
    {}

    /** Merge every free pair in every arena in use; `any` tells whether there was one. */
    method MergeArenas() returns (any: bool)
      requires Valid()
      modifies Arenas()
      ensures forall j :: 0 <= j < |slots| ==> Merged(slots[j].buddy, any)
      ensures forall j :: 0 <= j < |slots| && slots[j].inUse && old(slots[j].buddy.Complete()) ==>
                slots[j].buddy.Complete() && slots[j].buddy.Coalesced()
    {
      hide Buddy.Core, Buddy.Complete, Buddy.Coalesced, Buddy.Valid, BlockAt, Empty, SizeToLevel;
      any := false;
      for i := 0 to MAX_ARENAS
        invariant forall j :: 0 <= j < |slots| ==> Merged(slots[j].buddy, any)
        invariant forall j :: i <= j < |slots| ==> unchanged(slots[j].buddy)
        invariant forall j :: 0 <= j < i && slots[j].inUse && old(slots[j].buddy.Complete()) ==> slots[j].buddy.Complete() && slots[j].buddy.Coalesced()
      {
        if slots[i].inUse {
          var merges := slots[i].buddy.CoalesceAll();
          if merges > 0 {
            any := true;
          }
        }
      }
    }

    /** The same for the pool as a whole: no live block changes. */
    method CoalesceArenas() returns (any: bool)
      requires Valid()
      modifies Arenas()
      ensures Valid() && View() == old(View())
      ensures old(AllComplete()) ==> AllCoalesced()
      ensures old(AllCoalesced()) ==> AllCoalesced()
      ensures forall size :: !any && old(AllExhausted(size)) ==> AllExhausted(size)
    {
      hide Buddy.Core, Buddy.Complete, Buddy.Coalesced, Buddy.Valid, BlockAt, Empty, SizeToLevel;
      any := MergeArenas();
    }

    /**
     Serve a request from an arena in use, else from a fresh one, else, when
     merging is deferred, from the arenas in use after merging them.
     */
    method Alloc(size: nat, region: nat, deferred: bool) returns (ptr: nat, ghost k: nat)
      requires Valid()
      requires region == 0 || Unused(View(), region)
      modifies this, Arenas()
      ensures Valid()
      ensures old(AllCoalesced()) ==> AllCoalesced()
      ensures ptr == 0 ==> View() == old(View())
      ensures size == 0 || size > MAX_BLOCK ==> ptr == 0
      ensures ptr == 0 && 0 < size <= MAX_BLOCK ==>
                AllExhausted(size) && (region == 0 || forall i :: 0 <= i < |slots| ==> slots[i].inUse)
      ensures ptr == 0 && 0 < size <= MAX_BLOCK && deferred && old(AllComplete()) ==> AllCoalesced()
      ensures ptr != 0 ==> |slots| == |old(slots)| == |View()| && k < |slots| && View()[k].base <= ptr < View()[k].base + MAX_BLOCK
      ensures ptr != 0 && !old(AllExhausted(size)) ==>
                && old(slots)[k].inUse && slots == old(slots)[k := old(slots)[k].(drained := false, idle := 0)]
                && (forall i :: 0 <= i < k && old(slots)[i].inUse ==> slots[i].buddy.Exhausted(size))
      ensures ptr != 0 && old(AllExhausted(size)) && region != 0 && (exists i :: 0 <= i < |old(slots)| && !old(slots)[i].inUse) ==>
                !old(slots)[k].inUse && View()[k].base == region
      ensures ptr != 0 ==>
                && SizeToLevel(size) <= TOP && !old(IsLive(ptr, SizeToLevel(size)))
                && forall q, l :: IsLive(q, l) <==> old(IsLive(q, l)) || (q == ptr && l == SizeToLevel(size))
    {
      hide Buddy.Core, Buddy.Complete, Buddy.Coalesced, Buddy.Valid, SizeToLevel, Buddy.Exhausted, Took, BlockAt, LiveIn, Unused, Apart;
      hide View, Valid, AllCoalesced, AllComplete, AllExhausted;
      ptr, k := 0, 0;
      if size == 0 || size > MAX_BLOCK {
        return;
      }
      ghost var view := View();
      ViewApart();
      TopIsMax(size);
      ptr, k := TryExisting(size);
      if ptr == 0 {
        ptr, k := AcquireFresh(size, region);
        if ptr != 0 {
          LiveNew(view, k, View()[k], ptr, SizeToLevel(size));
          BlockInside(View()[k].base, View()[k].alloc, ptr, SizeToLevel(size));
          return;
        }
      }
      if ptr == 0 && deferred {
        var any := CoalesceArenas();
        if any {
          ptr, k := TryExisting(size);
        }
      }
      if ptr != 0 {
        LiveTake(view, k, View()[k].alloc, ptr, SizeToLevel(size));
        BlockInside(View()[k].base, View()[k].alloc, ptr, SizeToLevel(size));
      }
    }

    /** The slot whose arena contains `ptr`, or `MAX_ARENAS`. */
    method FindOwning(ptr: nat) returns (k: nat)
      requires |slots| == MAX_ARENAS
      ensures k <= MAX_ARENAS
      ensures k < MAX_ARENAS ==> slots[k].inUse && slots[k].buddy.base <= ptr < slots[k].buddy.base + MAX_BLOCK
      ensures forall i :: 0 <= i < k && slots[i].inUse ==> !(slots[i].buddy.base <= ptr < slots[i].buddy.base + MAX_BLOCK)
    {
      k := 0;
      while k < MAX_ARENAS
        invariant k <= MAX_ARENAS
        invariant forall i :: 0 <= i < k && slots[i].inUse ==> !(slots[i].buddy.base <= ptr < slots[i].buddy.base + MAX_BLOCK)
      {
        if slots[k].inUse && slots[k].buddy.base <= ptr < slots[k].buddy.base + MAX_BLOCK {
          return;
        }
        k := k + 1;
      }
    }

    /** `ptr` lies in some page of a live block of level `l`. */
    ghost predicate Within(ptr: nat, l: nat)
      reads this, Arenas()
    {
      WithinIn(View(), ptr, l)
    }

    /** Owning slot of `ptr` and size of the live block around it. */
    method Locate(ptr: nat) returns (i: nat, size: nat)
      requires Valid()
      ensures size == 0 <==> forall l :: !Within(ptr, l)
      ensures forall l :: Within(ptr, l) ==> size == BlockSize(l)
      ensures size > 0 ==> i < |slots| && View()[i].inUse && View()[i].base <= ptr < View()[i].base + MAX_BLOCK
    {
      hide Buddy.Core, Buddy.Valid, BlockSize, Shr, Apart, WithinIn, Empty;
      size := 0;
      ViewApart();
      ghost var view := View();
      i := FindOwning(ptr);
      if i < MAX_ARENAS {
        size := slots[i].buddy.BlockSizeOf(ptr);
        WithinOwner(view, i, ptr);
        assert view[i].base == slots[i].buddy.base && view[i].alloc == slots[i].buddy.alloc;
        assert size != 0 <==> exists l: nat :: WithinIn(view, ptr, l);
      } else {
        NotOwned(view, ptr);
      }
      assert View() == view;
      if size != 0 {
        ghost var l: nat :| WithinIn(view, ptr, l);
        assert Within(ptr, l);
      }
    }

    /** Size of the live block around `ptr`. */
    method BlockSizeOf(ptr: nat) returns (size: nat)
      requires Valid()
      ensures size == 0 <==> forall l :: !Within(ptr, l)
      ensures forall l :: Within(ptr, l) ==> size == BlockSize(l)
    {
      var k;
      k, size := Locate(ptr);
    }

    /** The arena around `ptr`, if any, will list the block at its start. */
    ghost predicate ListedRight(ptr: nat, deferred: bool)
      reads this, Arenas()
    {
      forall i, l :: 0 <= i < |slots| && slots[i].inUse && slots[i].buddy.Covers(ptr, l) ==>
        Accounted(slots[i].buddy.alloc, slots[i].buddy.split, slots[i].buddy.base, ptr, l, deferred)
    }

    /**
     That is so for pointers to the start of a live block and for pointers
     into none, and when merging is deferred for no others.
     */
    lemma StartsListRight(ptr: nat, deferred: bool)
      requires Valid()
      ensures (forall l :: Within(ptr, l) ==> IsLive(ptr, l)) ==> ListedRight(ptr, deferred)
      ensures deferred ==> (ListedRight(ptr, deferred) <==> forall l :: Within(ptr, l) ==> IsLive(ptr, l))
    {
      hide Buddy.Core, Shr, Accounted, BlockAt, Empty;
      var view := View();
      ViewApart();
      hide Apart;
      forall i, l | 0 <= i < |slots| && slots[i].inUse && slots[i].buddy.Covers(ptr, l)
        ensures Within(ptr, l)
        ensures var b := slots[i].buddy;
                && (IsLive(ptr, l) ==> Accounted(b.alloc, b.split, b.base, ptr, l, deferred))
                && (deferred ==> (IsLive(ptr, l) <==> Accounted(b.alloc, b.split, b.base, ptr, l, deferred)))
      {
        assert view[i].inUse && view[i].base == slots[i].buddy.base && view[i].alloc == slots[i].buddy.alloc;
        LiveOwner(view, i, ptr, l);
        StartIsAccounted(slots[i].buddy.alloc, slots[i].buddy.split, slots[i].buddy.base, ptr, l, deferred);
      }
      hide LiveIn, WithinIn;
      if forall l :: Within(ptr, l) ==> IsLive(ptr, l) {
        forall i, l | 0 <= i < |slots| && slots[i].inUse && slots[i].buddy.Covers(ptr, l)
          ensures Accounted(slots[i].buddy.alloc, slots[i].buddy.split, slots[i].buddy.base, ptr, l, deferred)
        {
          assert Within(ptr, l);
        }
      }
      if deferred && ListedRight(ptr, deferred) {
        forall l: nat | Within(ptr, l)
          ensures IsLive(ptr, l)
        {
          var i := Owner(view, ptr, l);
          assert slots[i].buddy.Covers(ptr, l);
        }
      }
    }

    /**
     Return the live block around `ptr`. When the arena empties, its pages
     are dropped and it is kept as drained. Any pointer is accepted; the pool
     stays sound exactly when the arena lists the block at its start.
     */
    method Free(ptr: nat, deferred: bool, debug: bool) returns (freed: bool)
      requires Valid()
      modifies this, Arenas()
      ensures Valid() <==> old(ListedRight(ptr, deferred))
      ensures freed <==> exists l :: old(Within(ptr, l))
      ensures !freed ==> View() == old(View()) && slots == old(slots)
      ensures |slots| == |old(slots)| == |old(View())|
      ensures forall i :: 0 <= i < |slots| ==>
                slots[i] == if OwnsIn(old(View()), i, ptr) then Settled(old(slots)[i], Empty(slots[i].buddy.alloc)) else old(slots)[i]
      ensures forall i :: 0 <= i < |slots| && OwnsIn(old(View()), i, ptr) && Empty(slots[i].buddy.alloc) && !debug ==>
                slots[i].buddy.next == Zeroed() && slots[i].buddy.prev == Zeroed()
      ensures old(AllCoalesced()) && !deferred && Valid() ==> AllCoalesced()
      ensures forall q, l :: IsLive(q, l) <==> old(IsLive(q, l)) && !Spans(q, l, ptr)
    {
      hide Buddy.Core, Buddy.Complete, Buddy.Coalesced, Buddy.Valid, BlockSize, Shr, Gave, LiveIn, BlockAt, WithinIn, Valid, Accounted, Apart;
      freed := false;
      ghost var view := View();
      ViewApart();
      if ptr == 0 {
        NullIsNowhere();
        NotWithin(ptr, deferred);
        assert forall l :: Within(ptr, l) <==> WithinIn(view, ptr, l);
        NobodyOwns(view, ptr);
        return;
      }
      var k, size := Locate(ptr);
      assert View() == view;
      if size == 0 {
        NotWithin(ptr, deferred);
        assert forall l :: Within(ptr, l) <==> WithinIn(view, ptr, l);
        NobodyOwns(view, ptr);
        return;
      }
      ghost var l :| Within(ptr, l);
      OnlyArena(k, ptr, l, deferred);
      ghost var s := BlockStart(view[k].base, ptr, l);
      BlockAround(k, ptr, l);
      FreeOwned(k, ptr, l, size, deferred, debug);
      ghost var after := View();
      GaveAtStart(view[k].alloc, after[k].alloc, view[k].base, ptr, l);
      LiveGive(view, k, after[k].alloc, s, l);
      freed := true;
    }

    lemma NullIsNowhere()
      requires Valid()
      ensures forall l :: !Within(0, l)
    {
      NotOwned(View(), 0);
    }

    lemma SpannedIsWithin(q: nat, l: nat, ptr: nat)
      requires IsLive(q, l) && Spans(q, l, ptr)
      ensures Within(ptr, l)
    {
      hide Shr, BlockAt, BlockSize;
      var view := View();
      var i :| 0 <= i < |view| && view[i].inUse && BlockAt(view[i].base, view[i].alloc, q, l);
      BlockHolds(view[i].base, view[i].alloc, q, l, ptr);
    }

    lemma CoveredIsWithin(i: nat, ptr: nat, l: nat)
      requires i < |slots| && slots[i].inUse && slots[i].buddy.Covers(ptr, l)
      ensures Within(ptr, l)
    {
      hide Shr;
      var view := View();
      assert view[i].inUse && view[i].base == slots[i].buddy.base && view[i].alloc == slots[i].buddy.alloc;
    }

    lemma NotWithin(ptr: nat, deferred: bool)
      requires Valid() && forall l :: !Within(ptr, l)
      ensures ListedRight(ptr, deferred)
      ensures forall q, l :: IsLive(q, l) ==> !Spans(q, l, ptr)
    {
      hide Valid, Spans, Within, IsLive, Accounted;
      forall q, l | IsLive(q, l)
        ensures !Spans(q, l, ptr)
      {
        if Spans(q, l, ptr) {
          SpannedIsWithin(q, l, ptr);
        }
      }
      forall i, l | 0 <= i < |slots| && slots[i].inUse && slots[i].buddy.Covers(ptr, l)
        ensures false
      {
        CoveredIsWithin(i, ptr, l);
      }
    }

    /** The arena found is the only one concerned. */
    lemma OnlyArena(k: nat, ptr: nat, l: nat, deferred: bool)
      requires Valid() && Within(ptr, l)
      requires k < |slots| && View()[k].inUse && View()[k].base <= ptr < View()[k].base + MAX_BLOCK
      ensures slots[k].inUse && slots[k].buddy.Covers(ptr, l) && View()[k].base == slots[k].buddy.base
      ensures forall i :: OwnsIn(View(), i, ptr) <==> i == k
      ensures ListedRight(ptr, deferred)
              <==> Accounted(slots[k].buddy.alloc, slots[k].buddy.split, slots[k].buddy.base, ptr, l, deferred)
    {
      hide Buddy.Core, Shr, Accounted, Empty;
      var view := View();
      ViewApart();
      WithinOwner(view, k, ptr);
      OneOwns(view, k, ptr, l);
      var b := slots[k].buddy;
      assert b.Valid() && b.Covers(ptr, l);
      forall i, m | 0 <= i < |slots| && slots[i].inUse && slots[i].buddy.Covers(ptr, m)
        ensures i == k && m == l
      {
        assert view[i].inUse && view[i].base == slots[i].buddy.base;
        OneOwner(view, i, k, ptr);
        OneLevel(b, ptr, l, m);
      }
    }

    /** The live block around `ptr` is the one that starts where its level says. */
    lemma BlockAround(k: nat, ptr: nat, l: nat)
      requires Valid() && k < |slots| && slots[k].inUse && slots[k].buddy.Covers(ptr, l)
      ensures BlockAt(View()[k].base, View()[k].alloc, BlockStart(View()[k].base, ptr, l), l)
      ensures forall q, m :: IsLive(q, m) ==>
                (Spans(q, m, ptr) <==> q == BlockStart(View()[k].base, ptr, l) && m == l)
    {
      hide Buddy.Core, Buddy.Valid, BlockAt, BlockSize, Empty;
      var view := View();
      assert view[k].inUse && view[k].base == slots[k].buddy.base && view[k].alloc == slots[k].buddy.alloc;
      var s := BlockStart(view[k].base, ptr, l);
      StartHolds(view[k].base, view[k].alloc, ptr, l);
      assert IsLive(s, l);
      forall q: nat, m: nat | IsLive(q, m)
        ensures Spans(q, m, ptr) <==> q == s && m == l
      {
        if q <= s {
          LiveDisjoint(q, m, s, l);
        } else {
          LiveDisjoint(s, l, q, m);
        }
      }
    }

    lemma NotDrained(k: nat, ptr: nat, l: nat)
      requires Valid() && k < |slots| && slots[k].buddy.Covers(ptr, l)
      ensures !slots[k].drained
    {}

    /** The part of a free that changes the pool. */
    method FreeOwned(k: nat, ptr: nat, ghost l: nat, size: nat, deferred: bool, debug: bool)
      requires Valid() && ptr != 0 && k < |slots| && slots[k].inUse && slots[k].buddy.Covers(ptr, l) && size == BlockSize(l)
      modifies this, slots[k].buddy
      ensures |slots| == |old(slots)|
      ensures slots == old(slots)[k := Settled(old(slots)[k], Empty(slots[k].buddy.alloc))]
      ensures Valid() <==> old(Accounted(slots[k].buddy.alloc, slots[k].buddy.split, slots[k].buddy.base, ptr, l, deferred))
      ensures old(AllCoalesced()) && !deferred && Valid() ==> AllCoalesced()
      ensures View() == old(View())[k := old(View())[k].(alloc := View()[k].alloc)]
      ensures Gave(old(View())[k].alloc, View()[k].alloc, View()[k].base, ptr, l)
      ensures Empty(slots[k].buddy.alloc) && !debug ==> slots[k].buddy.next == Zeroed() && slots[k].buddy.prev == Zeroed()
    {
      hide Buddy.Core, Buddy.Complete, Buddy.Coalesced, Buddy.Valid, BlockSize, Shr, Gave, Accounted, HasStray, Empty;
      NotDrained(k, ptr, l);
      var empty := FreeInArena(slots[k].buddy, ptr, l, size, deferred, debug);
      if empty {
        slots := slots[k := slots[k].(drained := true, idle := 0)];
      }
      assert Valid() ==> slots[k].inUse && slots[k].buddy.Valid();
    }

    /** Age the drained slots, taking those that reach the limit out of use. */
    method AgeSlots(maxIdle: nat) returns (released: nat)
      requires |slots| == MAX_ARENAS
      modifies this
      ensures |slots| == MAX_ARENAS && forall i :: 0 <= i < |slots| ==> slots[i] == SweepSlot(old(slots)[i], maxIdle)
      ensures released == Released(old(slots), MAX_ARENAS, maxIdle)
    {
      released := 0;
      for i := 0 to MAX_ARENAS
        invariant |slots| == MAX_ARENAS
        invariant forall j :: 0 <= j < i ==> slots[j] == SweepSlot(old(slots)[j], maxIdle)
        invariant forall j :: i <= j < MAX_ARENAS ==> slots[j] == old(slots)[j]
        invariant released == Released(old(slots), i, maxIdle)
      {
        if slots[i].inUse && slots[i].drained {
          if slots[i].idle < UINT32_MAX {
            slots := slots[i := slots[i].(idle := slots[i].idle + 1)];
          }
          if slots[i].idle >= maxIdle {
            slots := slots[i := slots[i].(inUse := false, drained := false, idle := 0)];
            released := released + 1;
          }
        }
      }
    }

    /**
     One background tick: drained arenas age, and those that reach the limit
     are returned to the page heap. No live block disappears.
     */
    method SweepIdle(maxIdle: nat) returns (released: nat)
      requires Valid()
      modifies this
      ensures Valid()
      ensures old(AllCoalesced()) ==> AllCoalesced()
      ensures |slots| == |old(slots)| && forall i :: 0 <= i < |slots| ==> slots[i] == SweepSlot(old(slots)[i], maxIdle)
      ensures forall i :: 0 <= i < |slots| && old(slots)[i].inUse && !slots[i].inUse ==> Empty(slots[i].buddy.alloc)
      ensures forall q, l :: IsLive(q, l) <==> old(IsLive(q, l))
      ensures released == Released(old(slots), MAX_ARENAS, maxIdle)
    {
      hide Buddy.Core, Buddy.Complete, Buddy.Coalesced, Buddy.Valid, Empty, BlockAt, LiveIn, Released;
      ghost var view := View();
      released := AgeSlots(maxIdle);
      EmptiesLeave(view, View());
    }
  }
}
