/**
 Aligned allocation: which backend serves a request for `size` bytes at a
 power-of-two alignment, and why the address it returns is aligned, large
 enough, and leads back to its header.
 */
module Aligned {
  import opened Basics
  import opened Bits
  import opened SizeClass
  import opened Slab
  import BT = BuddyTree
  import BA = BuddyArena
  import L = Large

  const NATURAL: nat := 16
  const BUDDY_MAX: nat := 262144

  datatype Route =
    | Plain(size: nat)                      // no more than natural alignment
    | Refused
    | FromSlab(cls: nat)
    | FromBuddy(size: nat)
    | FromLarge(size: nat, alignment: nat)

  ghost predicate IsPow2(a: nat) {
    exists k: nat :: a == Pow2(k)
  }

  function Effective(size: nat, alignment: nat): nat {
    if size > alignment then size else alignment
  }

  function Coerced(request: nat): nat {
    if request == 0 then 1 else request
  }

  /** `c` is the first class from `from` on whose objects are multiples of `alignment`. */
  ghost predicate FirstFit(c: nat, from: nat, alignment: nat)
    requires alignment > 0
  {
    && from <= c < MEDIUM_FIRST && SizeOf(c) % alignment == 0
    && (forall d :: from <= d < c ==> SizeOf(d) % alignment != 0)
  }

  lemma Pow2At(a: nat, k: nat)
    requires IsPow2(a) && (a <= Pow2(k) || k == 0)
    ensures a <= Pow2(k) ==> Pow2(k) % a == 0
  {
    var j: nat :| a == Pow2(j);
    if a <= Pow2(k) {
      if j > k {
        Pow2Mono(k + 1, j);
      }
      Pow2Divides(j, k);
    }
  }

  lemma Known()
    ensures Pow2(11) == 2048 && Pow2(12) == 4096 && Pow2(16) == 65536 && Pow2(18) == 262144
  {}

  /** Up to 2048 an alignment divides the header, the page and the largest small class. */
  lemma Divisors(a: nat)
    requires IsPow2(a) && a <= HEADER
    ensures a > 0 && HEADER % a == 0 && 4096 % a == 0 && PAGE_SIZE % a == 0
  {
    Known();
    hide Pow2;
    assert a > 0 by { Positive(a); }
    Pow2At(a, 11);
    Pow2At(a, 12);
    Pow2At(a, 16);
  }

  lemma Positive(a: nat)
    requires IsPow2(a)
    ensures a > 0
  {}

  /** The backend for a request; the conditions exclude each other and leave nothing out. */
  ghost predicate Routed(request: nat, alignment: nat, route: Route) {
    var n := if request == 0 then 1 else request;
    var e := if n > alignment then n else alignment;
    match route
    case Plain(size) => alignment <= NATURAL && size == n
    case Refused => alignment > BUDDY_MAX
    case FromSlab(c) => NATURAL < alignment <= HEADER && e <= 4096 && FirstFit(c, ClassOf(e), alignment)
    case FromBuddy(size) =>
      NATURAL < alignment <= BUDDY_MAX && size == e <= BUDDY_MAX && (alignment > HEADER || e > 4096)
    case FromLarge(size, a) =>
      NATURAL < alignment <= BUDDY_MAX && a == alignment && size == n && e > BUDDY_MAX
  }

  method Dispatch(request: nat, alignment: nat) returns (route: Route)
    requires IsPow2(alignment)
    ensures Routed(request, alignment, route)
    ensures route.Plain? <==> alignment <= NATURAL
    ensures route.Refused? <==> alignment > BUDDY_MAX
    ensures route.FromSlab? <==>
      NATURAL < alignment <= HEADER && Effective(Coerced(request), alignment) <= 4096
  {
    var size := Coerced(request);
    Positive(alignment);
    if alignment <= NATURAL {
      return Plain(size);
    }
    if alignment > BUDDY_MAX {
      return Refused;
    }
    var effective := Effective(size, alignment);
    if alignment <= HEADER && effective <= 4096 {
      hide SizeOf, ClassOf;
      var c := ClassOf(effective);
      SlabClass(effective);
      Divisors(alignment);
      while c < MEDIUM_FIRST && SizeOf(c) % alignment != 0
        invariant ClassOf(effective) <= c < MEDIUM_FIRST
        invariant forall d :: ClassOf(effective) <= d < c ==> SizeOf(d) % alignment != 0
      {
        LastClass();
        c := c + 1;
      }
      return FromSlab(c);
    }
    if effective <= BUDDY_MAX {
      return FromBuddy(effective);
    }
    return FromLarge(size, alignment);
  }

  lemma LastClass()
    ensures SizeOf(31) == 4096
  {}

  lemma SlabClass(size: nat)
    requires size <= 4096
    ensures ClassOf(size) < MEDIUM_FIRST && size <= SizeOf(ClassOf(size))
  {
    hide SizeOf, ClassOf;
    ClassIsLeast(size);
    LastClass();
  }

  // ---------------------------------------------------------------------
  // What each backend returns
  // ---------------------------------------------------------------------

  /** Every slot of the class chosen is aligned, fits the request, and lies in the page its header heads. */
  lemma SlabServes(request: nat, alignment: nat, c: nat, page: nat, i: nat)
    requires IsPow2(alignment) && alignment <= HEADER && Effective(Coerced(request), alignment) <= 4096
    requires alignment > 0 && FirstFit(c, ClassOf(Effective(Coerced(request), alignment)), alignment)
    requires page % PAGE_SIZE == 0 && i < Capacity(c)
    ensures var x := page + SlotOffset(c, i);
            x % alignment == 0 && SizeOf(c) >= request && PageOf(x) == page && x + SizeOf(c) <= page + PAGE_SIZE
  {
    hide SizeOf, ClassOf, Capacity, DataOffset, SlotOffset, IsPow2;
    var e := Effective(Coerced(request), alignment);
    SlabClass(e);
    if ClassOf(e) < c {
      Increasing(ClassOf(e), c);
    }
    SlotInPage(c, i);
    Masked(page, SlotOffset(c, i));
    SlotAligned(c, i, page, alignment);
  }

  lemma SlotAligned(c: nat, i: nat, page: nat, alignment: nat)
    requires c < MEDIUM_FIRST && IsPow2(alignment) && 0 < alignment <= HEADER && SizeOf(c) % alignment == 0
    requires page % PAGE_SIZE == 0
    ensures (page + SlotOffset(c, i)) % alignment == 0
  {
    hide SizeOf, DataOffset, IsPow2;
    Divisors(alignment);
    OffsetAligned(c, alignment);
    ModProduct(SizeOf(c), i, alignment);
    ModSum(DataOffset(c), i * SizeOf(c), alignment);
    ModTrans(page, PAGE_SIZE, alignment);
    ModSum(page, SlotOffset(c, i), alignment);
  }

  lemma OffsetAligned(c: nat, alignment: nat)
    requires c < MEDIUM_FIRST && alignment > 0 && HEADER % alignment == 0 && SizeOf(c) % alignment == 0
    ensures DataOffset(c) % alignment == 0
  {}

  lemma {:induction false} BlockSizeIs(l: nat)
    ensures BT.BlockSize(l) == Pow2(12 + l)
  {
    if l == 0 {
      Known();
    } else {
      BlockSizeIs(l - 1);
    }
  }

  /** The block of the level chosen is aligned to its own size, which the alignment divides. */
  lemma BuddyServes(request: nat, alignment: nat, alloc: BT.Bitmaps, base: nat, p: nat)
    requires IsPow2(alignment) && base % BT.MAX_BLOCK == 0
    requires BA.BlockAt(base, alloc, p, BA.SizeToLevel(Effective(Coerced(request), alignment)))
    ensures p % alignment == 0 && BT.BlockSize(BA.SizeToLevel(Effective(Coerced(request), alignment))) >= request
  {
    var e := Effective(Coerced(request), alignment);
    hide BA.SizeToLevel, BA.BlockAt, BT.BlockSize, Pow2;
    var l := BA.SizeToLevel(e);
    BA.SizeToLevelIsLeast(e, l);
    BA.BlockShape(alloc, base, p, l);
    BlockSizeIs(l);
    Positive(alignment);
    Pow2At(alignment, 12 + l);
    ModTrans(p, BT.BlockSize(l), alignment);
  }

  /** A mapping of its own gives an aligned object as large as asked for, whose header the page mask finds. */
  lemma LargeServes(before: L.Metas, after: L.Metas, size: nat, alignment: nat, debug: bool, ptr: nat)
    requires IsPow2(alignment) && alignment < PAGE_SIZE
    requires L.Granted(before, after, size, L.ObjectOffset(alignment), debug, ptr)
    ensures ptr % alignment == 0 && PageOf(ptr) in after
    ensures after[PageOf(ptr)].mmapSize - ptr % PAGE_SIZE - after[PageOf(ptr)].guard >= size
  {
    var offset := L.ObjectOffset(alignment);
    var r := PageOf(ptr);
    Positive(alignment);
    if alignment <= HEADER {
      Divisors(alignment);
    } else {
      Known();
      Pow2At(alignment, 16);
      MultipleMod(alignment, 1);
    }
    ModTrans(r, PAGE_SIZE, alignment);
    ModSum(r, offset, alignment);
    Masked(r, offset);
  }

  // ---------------------------------------------------------------------
  // Whatever the route
  // ---------------------------------------------------------------------

  /** What a backend hands out: a slot of a page, a block of an arena, or a mapping of its own. */
  datatype Backing =
    | Slot(page: nat, index: nat)
    | Block(base: nat, alloc: BT.Bitmaps)
    | Mapping(before: L.Metas, after: L.Metas, debug: bool)

  /** The class, block size or offset the route asks its backend for. */
  function ClassFor(route: Route): nat {
    match route
    case FromSlab(c) => c
    case Plain(size) => ClassOf(size)
    case _ => HUGE
  }

  /** The backend chosen answers with `ptr`, keeping its own promises. */
  ghost predicate Delivers(route: Route, b: Backing, ptr: nat) {
    match b
    case Slot(page, i) =>
      && (route.FromSlab? || (route.Plain? && route.size <= 4096)) && ClassFor(route) < MEDIUM_FIRST
      && page % PAGE_SIZE == 0 && i < Capacity(ClassFor(route)) && ptr == page + SlotOffset(ClassFor(route), i)
    case Block(base, alloc) =>
      && (route.FromBuddy? || (route.Plain? && 4096 < route.size <= BUDDY_MAX))
      && base % BT.MAX_BLOCK == 0 && BA.BlockAt(base, alloc, ptr, BA.SizeToLevel(route.size))
    case Mapping(before, after, debug) =>
      && ((route.FromLarge? && route.alignment < PAGE_SIZE) || (route.Plain? && route.size > BUDDY_MAX))
      && L.Granted(before, after, route.size, if route.FromLarge? then L.ObjectOffset(route.alignment) else HEADER, debug, ptr)
  }

  /** Bytes the object may use. */
  ghost function Room(route: Route, b: Backing, ptr: nat): nat
    requires Delivers(route, b, ptr)
  {
    match b
    case Slot(page, i) => SizeOf(ClassFor(route))
    case Block(base, alloc) => BT.BlockSize(BA.SizeToLevel(route.size))
    case Mapping(before, after, debug) => L.Reach(after, ptr)
  }

  /** From the address alone: the page of the slot, the arena of the block, the header of the mapping. */
  ghost predicate FindsOwner(route: Route, b: Backing, ptr: nat)
    requires Delivers(route, b, ptr)
  {
    match b
    case Slot(page, i) => PageOf(ptr) == page && ptr + Room(route, b, ptr) <= page + PAGE_SIZE
    case Block(base, alloc) => base <= ptr && ptr + Room(route, b, ptr) <= base + BT.MAX_BLOCK
    case Mapping(before, after, debug) => PageOf(ptr) in after && PageOf(ptr) !in before
  }

  /**
   Any answer to an aligned request is large enough and leads back to its
   owner. It is aligned too, except that the delegated requests at 16 bytes
   may get a slot of one of the four classes that are not multiples of 16.
   */
  lemma AlignedServed(request: nat, alignment: nat, route: Route, b: Backing, ptr: nat)
    requires IsPow2(alignment) && Routed(request, alignment, route) && Delivers(route, b, ptr)
    ensures Room(route, b, ptr) >= request && FindsOwner(route, b, ptr)
    ensures !(route.Plain? && alignment == NATURAL && b.Slot? && ClassFor(route) in {0, 2, 4, 6}) ==> ptr % alignment == 0
  {
    hide IsPow2, SizeOf, ClassOf, Capacity, SlotOffset, FirstFit, BA.SizeToLevel, BA.BlockAt, BT.BlockSize, L.Granted;
    match b
    case Slot(page, i) =>
      if route.FromSlab? {
        Positive(alignment);
        SlabServes(request, alignment, ClassFor(route), page, i);
      } else {
        PlainSlot(request, alignment, page, i);
      }
    case Block(base, alloc) =>
      BuddyAnswer(request, alignment, alloc, base, ptr);
    case Mapping(before, after, debug) =>
      LargeAnswer(route.size, if route.Plain? then NATURAL else alignment, alignment, before, after, debug, ptr);
  }

  /** Classes are multiples of eight, and of sixteen but for four of them. */
  lemma PlainSlot(request: nat, alignment: nat, page: nat, i: nat)
    requires IsPow2(alignment) && alignment <= NATURAL && Coerced(request) <= 4096 && page % PAGE_SIZE == 0
    requires ClassOf(Coerced(request)) < MEDIUM_FIRST && i < Capacity(ClassOf(Coerced(request)))
    ensures var c := ClassOf(Coerced(request));
            var x := page + SlotOffset(c, i);
            && SizeOf(c) >= request && PageOf(x) == page && x + SizeOf(c) <= page + PAGE_SIZE
            && (!(alignment == NATURAL && c in {0, 2, 4, 6}) ==> x % alignment == 0)
  {
    var c := ClassOf(Coerced(request));
    hide SizeOf, ClassOf, Capacity, DataOffset, SlotOffset, IsPow2, ClassOf;
    SlabClass(Coerced(request));
    SlotInPage(c, i);
    Masked(page, SlotOffset(c, i));
    OddClasses(c);
    if !(alignment == NATURAL && c in {0, 2, 4, 6}) {
      SmallAlignment(alignment, SizeOf(c));
      SlotAligned(c, i, page, alignment);
    }
  }

  lemma SmallAlignment(a: nat, size: nat)
    requires IsPow2(a) && a <= NATURAL && (size % 16 == 0 || (size % 16 == 8 && a != NATURAL))
    ensures a > 0 && size % a == 0
  {
    SmallPowers();
    Positive(a);
    hide Pow2;
    if size % 16 == 0 {
      Pow2At(a, 4);
      ModTrans(size, 16, a);
    } else {
      EightOrLess(a);
      ModTrans(size, 8, a);
    }
  }

  /** A power of two below sixteen divides eight. */
  lemma EightOrLess(a: nat)
    requires IsPow2(a) && a < NATURAL
    ensures a > 0 && 8 % a == 0
  {
    SmallPowers();
    Positive(a);
    hide Pow2;
    var k: nat :| a == Pow2(k);
    if k >= 4 {
      Pow2Mono(4, k);
    }
    assert a <= 8;
    Pow2At(a, 3);
  }

  lemma BuddyAnswer(request: nat, alignment: nat, alloc: BT.Bitmaps, base: nat, p: nat)
    requires IsPow2(alignment) && base % BT.MAX_BLOCK == 0
    requires alignment <= NATURAL ==> Coerced(request) > 4096
    requires BA.BlockAt(base, alloc, p, BA.SizeToLevel(Effective(Coerced(request), alignment)))
    ensures p % alignment == 0
    ensures var size := BT.BlockSize(BA.SizeToLevel(Effective(Coerced(request), alignment)));
            size >= request && base <= p && p + size <= base + BT.MAX_BLOCK
  {
    hide IsPow2, BA.SizeToLevel, BT.BlockSize;
    BuddyServes(request, alignment, alloc, base, p);
    BA.BlockShape(alloc, base, p, BA.SizeToLevel(Effective(Coerced(request), alignment)));
  }

  lemma LargeAnswer(size: nat, offered: nat, alignment: nat, before: L.Metas, after: L.Metas, debug: bool, ptr: nat)
    requires IsPow2(alignment) && alignment < PAGE_SIZE && (offered == alignment || (offered == NATURAL && alignment <= NATURAL))
    requires L.Granted(before, after, size, L.ObjectOffset(offered), debug, ptr)
    ensures ptr % alignment == 0 && L.Reach(after, ptr) >= size && PageOf(ptr) in after && PageOf(ptr) !in before
  {
    LargeServes(before, after, size, alignment, debug, ptr);
  }

  // ---------------------------------------------------------------------
  // Natural alignment
  // ---------------------------------------------------------------------

  /**
   The delegated case counts on every slot being 16-byte aligned. That holds
   for the classes whose size is a multiple of 16, and only for those: the
   8, 24, 40 and 56 byte classes have slots that are not.
   */
  lemma NaturalExactly(c: nat, page: nat)
    requires c < MEDIUM_FIRST && page % PAGE_SIZE == 0
    ensures (forall i: nat :: i < Capacity(c) ==> (page + SlotOffset(c, i)) % NATURAL == 0) <==> c !in {0, 2, 4, 6}
  {
    OddClasses(c);
    CapacityAtLeast(c);
    hide SizeOf, Capacity;
    if c in {0, 2, 4, 6} {
      assert (page + SlotOffset(c, 1)) % NATURAL == 8 by {
        assert SlotOffset(c, 1) == HEADER + SizeOf(c);
      }
    } else {
      forall i: nat | i < Capacity(c)
        ensures (page + SlotOffset(c, i)) % NATURAL == 0
      {
        SixteenPow();
        SlotAligned(c, i, page, NATURAL);
      }
    }
  }

  lemma SixteenPow()
    ensures IsPow2(NATURAL)
  {
    SmallPowers();
    assert NATURAL == Pow2(4);
  }

  lemma OddClasses(c: nat)
    requires c < MEDIUM_FIRST
    ensures if c in {0, 2, 4, 6} then SizeOf(c) % 16 == 8 else SizeOf(c) % 16 == 0
  {}
}
