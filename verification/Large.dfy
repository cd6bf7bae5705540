/**
 Allocations of their own: one mapping per object with the header at its
 start, and a cache of up to eight freed mappings that are handed out again
 to a request needing exactly the same mapping size.
 */
module Large {
  import opened Basics
  import opened Bits
  import opened SizeClass
  import opened Slab

  const CACHE_CAP: nat := 8
  const SIZE_MAX: nat := 0xFFFF_FFFF_FFFF_FFFF
  const HUGE_ALIGN: nat := 0x20_0000
  const GIGANTIC: nat := 0x4000_0000
  const LARGE_MAX: nat := 0x20_0000

  datatype Meta = Meta(mmapSize: nat, guard: nat, huge: bool)
  datatype Region = Region(start: nat, size: nat)

  function RoundUp(value: nat, multiple: nat): nat
    requires multiple > 0
  {
    ((value + multiple - 1) / multiple) * multiple
  }

  lemma RoundUpIs(value: nat, multiple: nat)
    requires multiple > 0
    ensures value <= RoundUp(value, multiple) < value + multiple && RoundUp(value, multiple) % multiple == 0
  {
    var q := (value + multiple - 1) / multiple;
    assert q * multiple <= value + multiple - 1 < q * multiple + multiple;
    MultipleMod(multiple, q);
  }

  // ---------------------------------------------------------------------
  // The recycle cache
  // ---------------------------------------------------------------------

  ghost predicate Entries(cache: seq<Region>) {
    && |cache| <= CACHE_CAP
    && (forall j, k :: 0 <= j < k < |cache| ==> cache[j].start != cache[k].start)
  }

  /** The first entry of the size asked for leaves, and the last entry takes its place. */
  method CacheTake(cache: seq<Region>, size: nat) returns (cache': seq<Region>, taken: Option<Region>)
    requires Entries(cache)
    ensures Entries(cache')
    ensures taken.None? <==> forall e :: e in cache ==> e.size != size
    ensures taken.None? ==> cache' == cache
    ensures taken.Some? ==>
      taken.value in cache && taken.value.size == size && forall e :: e in cache' <==> e in cache && e != taken.value
    ensures taken.Some? ==>
      exists i :: 0 <= i < |cache| && cache[i] == taken.value && forall k :: 0 <= k < i ==> cache[k].size != size
  {
    var i := 0;
    while i < |cache|
      invariant 0 <= i <= |cache| && forall k :: 0 <= k < i ==> cache[k].size != size
    {
      if cache[i].size == size {
        var last := |cache| - 1;
        cache' := if i < last then cache[..last][i := cache[last]] else cache[..last];
        Replaced(cache, i, cache');
        return cache', Some(cache[i]);
      }
      i := i + 1;
    }
    return cache, None;
  }

  lemma Replaced(cache: seq<Region>, i: nat, cache': seq<Region>)
    requires Entries(cache) && i < |cache|
    requires var last := |cache| - 1; cache' == if i < last then cache[..last][i := cache[last]] else cache[..last]
    ensures Entries(cache') && forall e :: e in cache' <==> e in cache && e != cache[i]
  {}

  /** The newest goes last; when there is no room the oldest leaves. */
  method CachePut(cache: seq<Region>, r: Region) returns (cache': seq<Region>, evicted: Option<Region>)
    requires Entries(cache) && forall k :: 0 <= k < |cache| ==> cache[k].start != r.start
    ensures Entries(cache')
    ensures |cache| < CACHE_CAP ==> evicted.None? && cache' == cache + [r]
    ensures |cache| == CACHE_CAP ==> evicted == Some(cache[0]) && cache' == cache[1..] + [r]
  {
    evicted := None;
    cache' := cache;
    if |cache| == CACHE_CAP {
      evicted := Some(cache[0]);
      cache' := cache[1..];
    }
    cache' := cache' + [r];
  }

  // ---------------------------------------------------------------------
  // The allocator
  // ---------------------------------------------------------------------

  type Metas = map<nat, Meta>

  ghost predicate StateOk(live: Metas, cache: seq<Region>) {
    && Entries(cache)
    && (forall e :: e in cache ==> Unused(live, e.start))
    && (forall r :: r in live ==> r > 0 && r % PAGE_SIZE == 0)
    && Disjoint(Mappings(live, cache))
  }

  predicate Apart(r: Region, q: Region) {
    r.start + r.size <= q.start || q.start + q.size <= r.start
  }

  ghost predicate ApartFrom(r: Region, held: set<Region>) {
    forall q :: q in held ==> Apart(r, q)
  }

  /** No two mappings share a byte. */
  ghost predicate Disjoint(held: set<Region>) {
    forall r, q :: r in held && q in held && r != q ==> Apart(r, q)
  }

  /** The bytes mapped for a request, a guard page included. */
  function MapSize(size: nat, offset: nat, alignment: nat, debug: bool): nat
    requires alignment > 0
  {
    RoundUp(offset + size, alignment) + if debug then PAGE_SIZE else 0
  }

  /** What a fresh mapping has to be: a page, and clear of everything held. */
  ghost predicate Available(live: Metas, cache: seq<Region>, r: Region) {
    Unused(live, r.start) && (forall e :: e in cache ==> e.start != r.start) && ApartFrom(r, Mappings(live, cache))
  }

  ghost predicate Unused(live: Metas, start: nat) {
    start > 0 && start % PAGE_SIZE == 0 && start !in live
  }

  ghost function Mappings(live: Metas, cache: seq<Region>): set<Region> {
    (set r | r in live :: Region(r, live[r].mmapSize)) + (set e | e in cache)
  }

  /** A mapping held by nobody becomes the mapping of a live object. */
  lemma Installed(live: Metas, cache: seq<Region>, start: nat, m: Meta)
    requires StateOk(live, cache) && Available(live, cache, Region(start, m.mmapSize))
    ensures StateOk(live[start := m], cache)
    ensures Mappings(live[start := m], cache) == Mappings(live, cache) + {Region(start, m.mmapSize)}
  {
    var live' := live[start := m];
    forall x
      ensures x in Mappings(live', cache) <==> x in Mappings(live, cache) || x == Region(start, m.mmapSize)
    {
      if x == Region(start, m.mmapSize) {
        assert start in live';
      }
      if r :| r in live && x == Region(r, live[r].mmapSize) {
        assert r in live' && live'[r] == live[r];
      }
      if r :| r in live' && x == Region(r, live'[r].mmapSize) && r != start {
        assert r in live && live'[r] == live[r];
      }
    }
  }

  lemma Removed(live: Metas, cache: seq<Region>, cache': seq<Region>, e: Region)
    requires StateOk(live, cache) && Entries(cache') && e in cache
    requires forall x :: x in cache' <==> x in cache && x != e
    ensures StateOk(live, cache') && Available(live, cache', e)
    ensures Mappings(live, cache') + {e} == Mappings(live, cache)
  {
    assert Mappings(live, cache') + {e} == Mappings(live, cache);
    forall x | x in Mappings(live, cache')
      ensures x.start != e.start && Apart(e, x)
    {
      if x in cache' {
        var j :| 0 <= j < |cache| && cache[j] == x;
        var k :| 0 <= k < |cache| && cache[k] == e;
      } else {
        assert Unused(live, e.start);
      }
    }
  }

  /** Exactly when a request fails, given what the page heap would map. */
  predicate Refuses(cache: seq<Region>, size: nat, offset: nat, alignment: nat, debug: bool, supply: Option<nat>, protects: bool)
    requires alignment > 0
  {
    || size > SIZE_MAX - offset - alignment
    || (debug && RoundUp(offset + size, alignment) > SIZE_MAX - PAGE_SIZE)
    || (supply.None? && (debug || forall e :: e in cache ==> e.size != RoundUp(offset + size, alignment)))
    || (debug && !protects)
  }

  /** The object's mapping came out of the cache, or is the one new mapping held. */
  ghost predicate Accounted(before: set<Region>, after: set<Region>, mapping: Region, supply: Option<nat>) {
    (after == before && mapping in before) || (supply == Some(mapping.start) && after == before + {mapping})
  }

  /** Objects of huge pages' sizes are mapped at huge-page granularity when that is enabled. */
  function MapAlignment(size: nat, hugePages: bool): (a: nat)
    ensures 0 < a <= GIGANTIC && a % PAGE_SIZE == 0
  {
    if !hugePages || size <= LARGE_MAX then PAGE_SIZE else if size >= GIGANTIC then GIGANTIC else HUGE_ALIGN
  }

  /** 64 KiB, but with huge pages 2 MiB above 2 MiB and 1 GiB from 1 GiB on. */
  lemma MapAlignmentIs(size: nat)
    ensures MapAlignment(size, false) == 65536
    ensures MapAlignment(size, true) ==
            if size <= 2097152 then 65536 else if size < 1073741824 then 2097152 else 1073741824
  {}

  function ObjectOffset(alignment: nat): nat {
    if alignment <= HEADER then HEADER else alignment
  }

  /** Bytes from an address to the end of its mapping, less a guard page. */
  function Reach(live: Metas, ptr: nat): int {
    if PageOf(ptr) in live then live[PageOf(ptr)].mmapSize - ptr % PAGE_SIZE - live[PageOf(ptr)].guard else 0
  }

  class Heap {
    var live: map<nat, Meta>
    var cache: seq<Region>

    ghost predicate Valid()
      reads this
    {
      StateOk(live, cache)
    }

    /** Every mapping held: those of live objects and those in the cache. */
    ghost function Mapped(): set<Region>
      reads this
    {
      Mappings(live, cache)
    }

    constructor ()
      ensures Valid() && live == map[] && cache == []
    {
      live, cache := map[], [];
    }

    /** `ptr` is an object handed out and not freed. */
    ghost predicate Object(ptr: nat)
      reads this
    {
      PageOf(ptr) in live && Reach(live, ptr) >= 0
    }

    function UsableSize(ptr: nat): nat
      requires Object(ptr)
      reads this
    {
      Reach(live, ptr)
    }

    /** A mapping of the size wanted: from the cache unless debugging, else from the page heap. */
    method FindRegion(size: nat, debug: bool, supply: Option<nat>) returns (region: Option<nat>)
      requires Valid()
      requires supply.Some? ==> Available(live, cache, Region(supply.value, size))
      modifies this`cache
      ensures Valid()
      ensures region.None? <==> supply.None? && (debug || forall e :: e in old(cache) ==> e.size != size)
      ensures region.None? || debug ==> cache == old(cache)
      ensures !debug && (exists e :: e in old(cache) && e.size == size) ==>
        region.Some? && Region(region.value, size) in old(cache) && Region(region.value, size) !in cache
      ensures region.Some? ==>
        && Available(live, cache, Region(region.value, size))
        && ((Mapped() + {Region(region.value, size)} == old(Mapped()))
            || (region == supply && Mapped() == old(Mapped())))
    {
      hide Entries, Mappings;
      region := None;
      if !debug {
        ghost var before := cache;
        var rest, taken := CacheTake(cache, size);
        if taken.Some? {
          Removed(live, cache, rest, taken.value);
          cache := rest;
          return Some(taken.value.start);
        }
      }
      return supply;
    }

    /**
     `supply` is what the page heap would map, `protects` whether a guard page
     can be protected. The mapping may come from the cache, in which case only
     its size is known to fit the request.
     */
    method AllocWithOffset(size: nat, offset: nat, alignment: nat, debug: bool, supply: Option<nat>, protects: bool)
      returns (ptr: Option<nat>)
      requires Valid() && HEADER <= offset < PAGE_SIZE && 0 < alignment <= GIGANTIC && alignment % PAGE_SIZE == 0
      requires supply.Some? ==> Available(live, cache, Region(supply.value, MapSize(size, offset, alignment, debug)))
      modifies this
      ensures Valid()
      ensures ptr.None? <==> Refuses(old(cache), size, offset, alignment, debug, supply, protects)
      ensures ptr.None? ==> Mapped() == old(Mapped()) && live == old(live)
      ensures ptr.Some? ==>
        && Granted(old(live), live, size, offset, debug, ptr.value)
        && Object(ptr.value) && UsableSize(ptr.value) >= size
        && live[PageOf(ptr.value)].mmapSize == MapSize(size, offset, alignment, debug)
        && Accounted(old(Mapped()), Mapped(), Region(PageOf(ptr.value), MapSize(size, offset, alignment, debug)), supply)
    {
      hide Mappings, Entries, StateOk;
      ptr := None;
      if size > SIZE_MAX - offset - alignment {
        return;
      }
      var total := offset + size;
      var mmapSize := RoundUp(total, alignment);
      RoundUpIs(total, alignment);
      hide RoundUp, PageOf, ClassOf, Available;
      var guard := 0;
      if debug {
        if mmapSize > SIZE_MAX - PAGE_SIZE {
          return;
        }
        guard := PAGE_SIZE;
        mmapSize := mmapSize + guard;
      }
      var region := FindRegion(mmapSize, debug, supply);
      if region.None? || (debug && !protects) {
        return;
      }
      var r := region.value;
      Masked(r, offset);
      var m := Meta(mmapSize, guard, ClassOf(size) == HUGE);
      Installed(live, cache, r, m);
      live := live[r := m];
      ptr := Some(r + offset);
    }

    method Alloc(size: nat, hugePages: bool, debug: bool, supply: Option<nat>, protects: bool) returns (ptr: Option<nat>)
      requires Valid()
      requires supply.Some? ==> Available(live, cache, Region(supply.value, MapSize(size, HEADER, MapAlignment(size, hugePages), debug)))
      modifies this
      ensures Valid()
      ensures ptr.None? <==> size == 0 || Refuses(old(cache), size, HEADER, MapAlignment(size, hugePages), debug, supply, protects)
      ensures ptr.None? ==> Mapped() == old(Mapped()) && live == old(live)
      ensures ptr.Some? ==>
        && Granted(old(live), live, size, HEADER, debug, ptr.value)
        && Object(ptr.value) && UsableSize(ptr.value) >= size
        && Accounted(old(Mapped()), Mapped(), Region(PageOf(ptr.value), MapSize(size, HEADER, MapAlignment(size, hugePages), debug)), supply)
    {
      if size == 0 {
        return None;
      }
      var alignment := PAGE_SIZE;
      if hugePages {
        if size >= GIGANTIC {
          alignment := GIGANTIC;
        } else if size > LARGE_MAX {
          alignment := HUGE_ALIGN;
        }
      }
      hide StateOk, Granted, Available, Mappings, Refuses, MapSize;
      ptr := AllocWithOffset(size, HEADER, alignment, debug, supply, protects);
    }

    /** Alignments of a page and more cannot be served: the header would not be found again. */
    method AllocAligned(size: nat, alignment: nat, debug: bool, supply: Option<nat>, protects: bool)
      returns (ptr: Option<nat>)
      requires Valid()
      requires supply.Some? ==> Available(live, cache, Region(supply.value, MapSize(size, ObjectOffset(alignment), PAGE_SIZE, debug)))
      modifies this
      ensures Valid()
      ensures ptr.None? <==>
        size == 0 || alignment >= PAGE_SIZE || Refuses(old(cache), size, ObjectOffset(alignment), PAGE_SIZE, debug, supply, protects)
      ensures ptr.None? ==> Mapped() == old(Mapped()) && live == old(live)
      ensures ptr.Some? ==>
        && Granted(old(live), live, size, ObjectOffset(alignment), debug, ptr.value)
        && Object(ptr.value) && UsableSize(ptr.value) >= size
        && Accounted(old(Mapped()), Mapped(), Region(PageOf(ptr.value), MapSize(size, ObjectOffset(alignment), PAGE_SIZE, debug)), supply)
    {
      if size == 0 {
        return None;
      }
      hide StateOk, Granted, Available, Mappings, Refuses, MapSize;
      if alignment <= HEADER {
        ptr := AllocWithOffset(size, HEADER, PAGE_SIZE, debug, supply, protects);
        return;
      }
      if alignment >= PAGE_SIZE {
        return None;
      }
      ptr := AllocWithOffset(size, alignment, PAGE_SIZE, debug, supply, protects);
    }

    /** Two live objects never share a byte, nor does either reach into a guard page. */
    lemma ObjectsApart(p: nat, q: nat)
      requires Valid() && Object(p) && Object(q) && PageOf(p) != PageOf(q)
      ensures p + UsableSize(p) <= q || q + UsableSize(q) <= p
      ensures p + UsableSize(p) + live[PageOf(p)].guard == PageOf(p) + live[PageOf(p)].mmapSize
    {
      hide Entries, Unused;
      var a, b := PageOf(p), PageOf(q);
      var ra, rb := Region(a, live[a].mmapSize), Region(b, live[b].mmapSize);
      assert ra in Mapped() && rb in Mapped();
      assert Apart(ra, rb);
    }

    /** The mapping goes to the cache, or back to the page heap if it carries a guard page. */
    method Free(ptr: nat) returns (returned: Option<Region>)
      requires Valid() && PageOf(ptr) in live
      modifies this
      ensures Valid() && live == old(live) - {PageOf(ptr)}
      ensures Mapped() == old(Mapped()) - (if returned.Some? then {returned.value} else {})
      ensures returned.Some? ==> returned.value in old(Mapped())
      ensures var m := old(live)[PageOf(ptr)];
              returned == if m.guard != 0 then Some(Region(PageOf(ptr), m.mmapSize))
                          else if |old(cache)| == CACHE_CAP then Some(old(cache)[0])
                          else None
    {
      var r := PageOf(ptr);
      var m := live[r];
      var region := Region(r, m.mmapSize);
      Uninstalled(live, cache, r);
      hide PageOf, Mappings;
      live := live - {r};
      if m.guard != 0 {
        return Some(region);
      }
      ghost var before := cache;
      assert forall k :: 0 <= k < |cache| ==> cache[k] in cache;
      cache, returned := CachePut(cache, region);
      Recycled(live, before, region, cache, returned);
    }

    /** Every cached mapping goes back to the page heap. */
    method Drain() returns (returned: seq<Region>)
      requires Valid()
      modifies this`cache
      ensures Valid() && cache == [] && returned == old(cache)
      ensures Mapped() == old(Mapped()) - (set e | e in old(cache))
    {
      returned := cache;
      Emptied(live, cache);
      cache := [];
    }
  }

  lemma Emptied(live: Metas, cache: seq<Region>)
    requires StateOk(live, cache)
    ensures StateOk(live, []) && Mappings(live, []) == Mappings(live, cache) - (set e | e in cache)
  {}

  lemma Uninstalled(live: Metas, cache: seq<Region>, r: nat)
    requires StateOk(live, cache) && r in live
    ensures StateOk(live - {r}, cache) && Available(live - {r}, cache, Region(r, live[r].mmapSize))
    ensures Region(r, live[r].mmapSize) in Mappings(live, cache)
    ensures Mappings(live - {r}, cache) == Mappings(live, cache) - {Region(r, live[r].mmapSize)}
  {
    var live' := live - {r};
    forall e | e in cache
      ensures e.start != r
    {
      assert Unused(live, e.start);
    }
    forall x
      ensures x in Mappings(live', cache) <==> x in Mappings(live, cache) && x != Region(r, live[r].mmapSize)
    {
      if q :| q in live && x == Region(q, live[q].mmapSize) && q != r {
        assert q in live' && live'[q] == live[q];
      }
      if q :| q in live' && x == Region(q, live'[q].mmapSize) {
        assert q in live && live'[q] == live[q];
      }
    }
  }

  lemma Recycled(live: Metas, cache: seq<Region>, r: Region, cache': seq<Region>, evicted: Option<Region>)
    requires StateOk(live, cache) && Available(live, cache, r) && Entries(cache')
    requires |cache| < CACHE_CAP ==> evicted.None? && cache' == cache + [r]
    requires |cache| == CACHE_CAP ==> evicted == Some(cache[0]) && cache' == cache[1..] + [r]
    ensures StateOk(live, cache')
    ensures Mappings(live, cache') == Mappings(live, cache) + {r} - (if evicted.Some? then {evicted.value} else {})
    ensures evicted.Some? ==> evicted.value in Mappings(live, cache)
  {}

  /** The object at `ptr` is new, at the offset asked for, and as large as asked for; nothing else changed. */
  ghost predicate Granted(before: Metas, after: Metas, size: nat, offset: nat, debug: bool, ptr: nat) {
    var r := PageOf(ptr);
    && r !in before && r in after && after == before[r := after[r]]
    && r % PAGE_SIZE == 0 && ptr == r + offset
    && after[r].mmapSize >= offset + size + after[r].guard
    && after[r].guard == (if debug then PAGE_SIZE else 0)
    && after[r].huge == (ClassOf(size) == HUGE)
  }
}
