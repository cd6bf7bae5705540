/**
 What a slab page is to its users: a class, a number of equal slots, and the
 free slots in the order they will be handed out. Tiny pages hand out the
 lowest free slot, small pages the most recently freed one.
 */
module Slab {
  import opened Basics
  import opened Bits
  import opened SizeClass

  const HEADER: nat := 2048
  const BITMAP_BITS: nat := 8192

  datatype Page = Page(cls: nat, capacity: nat, free: seq<nat>)

  // ---------------------------------------------------------------------
  // Layout
  // ---------------------------------------------------------------------

  function TinyCapacity(size: nat): nat {
    if size == 0 then 0
    else
      var n := (PAGE_SIZE - HEADER) / size;
      if n > BITMAP_BITS then BITMAP_BITS else n
  }

  function SmallOffset(size: nat): nat {
    if size > HEADER then size else HEADER
  }

  function SmallCapacity(size: nat): nat {
    if size < 8 || SmallOffset(size) >= PAGE_SIZE then 0
    else (PAGE_SIZE - SmallOffset(size)) / size
  }

  function DataOffset(cls: nat): nat
    requires cls < MEDIUM_FIRST
  {
    if cls < SMALL_FIRST then HEADER else SmallOffset(SizeOf(cls))
  }

  function Capacity(cls: nat): nat
    requires cls < MEDIUM_FIRST
  {
    if cls < SMALL_FIRST then TinyCapacity(SizeOf(cls)) else SmallCapacity(SizeOf(cls))
  }

  /** Where slot `i` of a page of class `cls` starts, relative to the page. */
  function SlotOffset(cls: nat, i: nat): nat
    requires cls < MEDIUM_FIRST
  {
    DataOffset(cls) + i * SizeOf(cls)
  }

  lemma SlabSizes(cls: nat)
    requires cls < MEDIUM_FIRST
    ensures 8 <= SizeOf(cls) <= 4096
  {}

  /** Slots lie behind the header and inside the page. */
  lemma SlotInPage(cls: nat, i: nat)
    requires cls < MEDIUM_FIRST && i < Capacity(cls)
    ensures HEADER <= SlotOffset(cls, i) && SlotOffset(cls, i) + SizeOf(cls) <= PAGE_SIZE
  {
    SlabSizes(cls);
    var size, n := SizeOf(cls), Capacity(cls);
    assert n * size <= PAGE_SIZE - DataOffset(cls) by {
      Quotient(PAGE_SIZE - DataOffset(cls), size);
      if n < (PAGE_SIZE - DataOffset(cls)) / size {
        MulMono(n, (PAGE_SIZE - DataOffset(cls)) / size, size);
      }
    }
    MulMono(i + 1, n, size);
    assert (i + 1) * size == i * size + size;
  }

  lemma Quotient(x: nat, u: nat)
    requires u > 0
    ensures (x / u) * u <= x
  {}

  /** Distinct slots do not overlap. */
  lemma SlotsDisjoint(cls: nat, i: nat, j: nat)
    requires cls < MEDIUM_FIRST && i < j
    ensures SlotOffset(cls, i) + SizeOf(cls) <= SlotOffset(cls, j)
  {}

  /** Any address inside a slot names that slot again. */
  lemma SlotRecovered(size: nat, i: nat, k: nat)
    requires k < size
    ensures (i * size + k) / size == i
  {
    QuotientIs(i * size + k, size, i);
  }

  // ---------------------------------------------------------------------
  // Pages as queues of free slots
  // ---------------------------------------------------------------------

  ghost predicate Ascending(xs: seq<nat>) {
    forall j, k :: 0 <= j < k < |xs| ==> xs[j] < xs[k]
  }

  function Insert(xs: seq<nat>, x: nat): seq<nat> {
    if xs == [] || x < xs[0] then [x] + xs else [xs[0]] + Insert(xs[1..], x)
  }

  ghost predicate PageOk(p: Page) {
    && p.cls < MEDIUM_FIRST && p.capacity == Capacity(p.cls)
    && Distinct(p.free) && (forall k :: 0 <= k < |p.free| ==> p.free[k] < p.capacity)
    && (p.cls < SMALL_FIRST ==> Ascending(p.free))
  }

  ghost function Live(p: Page): set<nat> {
    set i | 0 <= i < p.capacity && i !in p.free
  }

  function Fresh(cls: nat): Page
    requires cls < MEDIUM_FIRST
  {
    Page(cls, Capacity(cls), seq(Capacity(cls), i => i))
  }

  function Take(p: Page): Page
    requires p.free != []
  {
    p.(free := p.free[1..])
  }

  function Put(p: Page, i: nat): Page {
    p.(free := if p.cls < SMALL_FIRST then Insert(p.free, i) else [i] + p.free)
  }

  lemma {:induction false} InsertMembers(xs: seq<nat>, x: nat)
    ensures |Insert(xs, x)| == |xs| + 1
    ensures forall y :: y in Insert(xs, x) <==> y in xs || y == x
    decreases |xs|
  {
    if xs != [] && x >= xs[0] {
      InsertMembers(xs[1..], x);
      assert xs == [xs[0]] + xs[1..];
    }
  }

  lemma {:induction false} InsertAscending(xs: seq<nat>, x: nat)
    requires Ascending(xs) && x !in xs
    ensures Ascending(Insert(xs, x))
    decreases |xs|
  {
    if xs != [] && x >= xs[0] {
      var rest := xs[1..];
      assert forall y :: y in rest ==> y in xs;
      InsertAscending(rest, x);
      InsertMembers(rest, x);
      var ys := Insert(rest, x);
      forall k | 0 <= k < |ys|
        ensures xs[0] < ys[k]
      {
        assert ys[k] in ys;
        assert ys[k] in rest || ys[k] == x;
      }
      assert Insert(xs, x) == [xs[0]] + ys;
    }
  }

  lemma AscendingDistinct(xs: seq<nat>)
    requires Ascending(xs)
    ensures Distinct(xs)
  {}

  lemma TakeOk(p: Page)
    requires PageOk(p) && p.free != []
    ensures PageOk(Take(p)) && p.free[0] < p.capacity
    ensures Live(Take(p)) == Live(p) + {p.free[0]} && p.free[0] !in Live(p)
  {}

  lemma PutOk(p: Page, i: nat)
    requires PageOk(p) && i in Live(p)
    ensures PageOk(Put(p, i)) && |Put(p, i).free| == |p.free| + 1
    ensures Live(Put(p, i)) == Live(p) - {i}
  {
    if p.cls < SMALL_FIRST {
      InsertMembers(p.free, i);
      InsertAscending(p.free, i);
      var ys := Insert(p.free, i);
      AscendingDistinct(ys);
      forall k | 0 <= k < |ys|
        ensures ys[k] < p.capacity
      {
        assert ys[k] in ys;
      }
    } else {
      var ys := [i] + p.free;
      assert forall y :: y in ys <==> y in p.free || y == i;
    }
  }

  lemma FreshOk(cls: nat)
    requires cls < MEDIUM_FIRST
    ensures PageOk(Fresh(cls)) && Live(Fresh(cls)) == {} && Capacity(cls) >= 15
  {
    hide SizeOf, Capacity;
    CapacityAtLeast(cls);
    var p := Fresh(cls);
    assert forall i :: 0 <= i < p.capacity ==> p.free[i] == i;
    forall i | 0 <= i < p.capacity
      ensures i in p.free
    {
      assert p.free[i] == i;
    }
  }

  /** A page just formatted, with its first slot handed out. */
  function Started(cls: nat): (p: Page)
    requires cls < MEDIUM_FIRST
    ensures PageOk(p) && Live(p) == {0} && p.cls == cls && p.free != []
  {
    FreshOk(cls);
    TakeOk(Fresh(cls));
    Take(Fresh(cls))
  }

  /** A page has as many slots as fit behind its header: one more would not. */
  lemma CapacityIsMost(cls: nat)
    requires cls < MEDIUM_FIRST
    ensures SlotOffset(cls, Capacity(cls)) <= PAGE_SIZE < SlotOffset(cls, Capacity(cls) + 1)
    ensures DataOffset(cls) == if SizeOf(cls) > 2048 then SizeOf(cls) else 2048
  {
    SlabSizes(cls);
    CapacityAtLeast(cls);
    hide SizeOf;
    var size, room := SizeOf(cls), PAGE_SIZE - DataOffset(cls);
    assert Capacity(cls) == room / size;
    hide Capacity;
    AsManyAsFit(room, size);
  }

  lemma AsManyAsFit(room: nat, size: nat)
    requires size > 0
    ensures (room / size) * size <= room < (room / size + 1) * size
  {}

  lemma CapacityAtLeast(cls: nat)
    requires cls < MEDIUM_FIRST
    ensures 15 <= Capacity(cls) <= 7936
  {
    SlabSizes(cls);
    hide SizeOf;
    var size := SizeOf(cls);
  }

  /** A page with a slot in use has fewer free slots than slots. */
  lemma FewerFree(free: seq<nat>, slot: nat, n: nat)
    requires Distinct(free) && (forall k :: 0 <= k < |free| ==> free[k] < n) && slot < n && slot !in free
    ensures |free| < n
  {
    BelowIs(n);
    DistinctCount(free);
    var some, all := Elements(free), Below(n);
    assert some <= all - {slot};
    SubsetCount(some, all - {slot});
  }
}
