/**
 The pool of slab pages: per class one current page, a list of partial pages,
 and full pages on no list at all; plus a small cache of drained pages whose
 memory has been given back but whose mapping is kept. Pages are known by
 address, and their contents are the queues of free slots of `Slab`.
 */
module SlabPool {
  import opened Basics
  import opened SizeClass
  import opened Slab

  const DRAINED_CAP: nat := 8
  const SCAN_BUDGET: nat := 4

  type Pages = map<nat, Page>

  datatype Slot = Slot(page: nat, index: nat)

  // ---------------------------------------------------------------------
  // What the lists mean
  // ---------------------------------------------------------------------

  /** Every page serves some slab class and has at least one slot in use. */
  ghost predicate PagesOk(pages: Pages) {
    forall a :: a in pages ==> PageOk(pages[a]) && |pages[a].free| < pages[a].capacity
  }

  ghost predicate InClass(pages: Pages, a: nat, c: nat) {
    a in pages && pages[a].cls == c
  }

  /**
   The lists of class `c`: partials are distinct pages of the class with room,
   the current page is not among them, and any other page of the class is full.
   */
  ghost predicate Listed(pages: Pages, c: nat, cur: Option<nat>, parts: seq<nat>) {
    && (cur.Some? ==> InClass(pages, cur.value, c) && cur.value !in parts)
    && Distinct(parts)
    && (forall k :: 0 <= k < |parts| ==> InClass(pages, parts[k], c) && pages[parts[k]].free != [])
    && (forall a :: InClass(pages, a, c) && a !in parts && cur != Some(a) ==> pages[a].free == [])
  }

  ghost function LiveSlots(pages: Pages): set<Slot> {
    set a, i | a in pages && i in Live(pages[a]) :: Slot(a, i)
  }

  ghost predicate HasRoom(pages: Pages, c: nat) {
    exists a :: InClass(pages, a, c) && pages[a].free != []
  }

  ghost predicate SameClass(pages: Pages, pages': Pages, c: nat) {
    && (forall a :: InClass(pages, a, c) ==> InClass(pages', a, c) && pages'[a] == pages[a])
    && (forall a :: InClass(pages', a, c) ==> InClass(pages, a, c))
  }

  lemma ListedFrame(pages: Pages, pages': Pages, c: nat, cur: Option<nat>, parts: seq<nat>)
    requires Listed(pages, c, cur, parts) && SameClass(pages, pages', c)
    ensures Listed(pages', c, cur, parts)
  {}

  lemma TakeLive(pages: Pages, a: nat)
    requires PagesOk(pages) && a in pages && pages[a].free != []
    ensures var pages' := pages[a := Take(pages[a])];
            && PagesOk(pages')
            && LiveSlots(pages') == LiveSlots(pages) + {Slot(a, pages[a].free[0])}
            && Slot(a, pages[a].free[0]) !in LiveSlots(pages)
  {
    var pages' := pages[a := Take(pages[a])];
    TakeOk(pages[a]);
    forall x
      ensures x in LiveSlots(pages') <==> x in LiveSlots(pages) + {Slot(a, pages[a].free[0])}
    {
    }
  }

  lemma FreshLive(pages: Pages, a: nat, c: nat)
    requires PagesOk(pages) && a !in pages && c < MEDIUM_FIRST
    ensures var pages' := pages[a := Started(c)];
            && PagesOk(pages')
            && LiveSlots(pages') == LiveSlots(pages) + {Slot(a, 0)} && Slot(a, 0) !in LiveSlots(pages)
  {}

  lemma PutLive(pages: Pages, a: nat, i: nat)
    requires PagesOk(pages) && a in pages && i in Live(pages[a])
    ensures var p := Put(pages[a], i);
            && LiveSlots(pages[a := p]) == LiveSlots(pages) - {Slot(a, i)}
            && (|p.free| < p.capacity ==> PagesOk(pages[a := p]))
            && (|p.free| >= p.capacity ==> Live(p) == {} && PagesOk(pages - {a})
                                           && LiveSlots(pages - {a}) == LiveSlots(pages) - {Slot(a, i)})
  {
    var p := Put(pages[a], i);
    PutOk(pages[a], i);
    if |p.free| >= p.capacity {
      NoneLive(p);
    }
  }

  lemma NoneLive(p: Page)
    requires PageOk(p) && |p.free| >= p.capacity
    ensures Live(p) == {}
  {
    if i :| i in Live(p) {
      FewerFree(p.free, i, p.capacity);
    }
  }

  // ---------------------------------------------------------------------
  // How the lists of one class move
  // ---------------------------------------------------------------------

  lemma TakeCurrentListed(pages: Pages, c: nat, a: nat, parts: seq<nat>)
    requires Listed(pages, c, Some(a), parts) && pages[a].free != []
    ensures Listed(pages[a := Take(pages[a])], c, Some(a), parts)
  {}

  lemma DropCurrentListed(pages: Pages, c: nat, a: nat, parts: seq<nat>)
    requires Listed(pages, c, Some(a), parts) && pages[a].free == []
    ensures Listed(pages, c, None, parts)
  {}

  lemma PromoteListed(pages: Pages, c: nat, parts: seq<nat>, k: nat)
    requires Listed(pages, c, None, parts) && k < |parts|
    ensures Listed(pages[parts[k] := Take(pages[parts[k]])], c, Some(parts[k]), Without(parts, k))
  {}

  lemma InstallListed(pages: Pages, c: nat, a: nat)
    requires c < MEDIUM_FIRST && Listed(pages, c, None, []) && a !in pages
    ensures Listed(pages[a := Started(c)], c, Some(a), [])
  {}

  lemma PutListed(pages: Pages, c: nat, cur: Option<nat>, parts: seq<nat>, a: nat, p: Page)
    requires Listed(pages, c, cur, parts) && InClass(pages, a, c) && p.cls == c && p.free != []
    ensures pages[a].free != [] || cur == Some(a) ==> Listed(pages[a := p], c, cur, parts)
    ensures pages[a].free == [] && cur != Some(a) ==> Listed(pages[a := p], c, cur, [a] + parts)
  {}

  lemma DrainCurrentListed(pages: Pages, c: nat, a: nat, parts: seq<nat>)
    requires Listed(pages, c, Some(a), parts)
    ensures Listed(pages - {a}, c, None, parts)
  {}

  lemma DrainPartialListed(pages: Pages, c: nat, cur: Option<nat>, parts: seq<nat>, k: nat)
    requires Listed(pages, c, cur, parts) && k < |parts|
    ensures Listed(pages - {parts[k]}, c, cur, Without(parts, k))
  {}

  lemma DrainUnlistedListed(pages: Pages, c: nat, cur: Option<nat>, parts: seq<nat>, a: nat)
    requires Listed(pages, c, cur, parts) && cur != Some(a) && a !in parts
    ensures Listed(pages - {a}, c, cur, parts)
  {}

  /** A class has room exactly when its current page has, or some page is partial. */
  lemma RoomIs(pages: Pages, c: nat, cur: Option<nat>, parts: seq<nat>)
    requires Listed(pages, c, cur, parts)
    ensures HasRoom(pages, c) <==> parts != [] || (cur.Some? && pages[cur.value].free != [])
  {
    if parts != [] {
      assert InClass(pages, parts[0], c);
    }
  }

  ghost predicate AllListed(pages: Pages, current: seq<Option<nat>>, partials: seq<seq<nat>>) {
    && |current| == |partials| == MEDIUM_FIRST
    && (forall c :: 0 <= c < MEDIUM_FIRST ==> Listed(pages, c, current[c], partials[c]))
  }

  lemma RelistClass(pages: Pages, current: seq<Option<nat>>, partials: seq<seq<nat>>,
                    pages': Pages, c: nat, cur: Option<nat>, parts: seq<nat>)
    requires AllListed(pages, current, partials) && c < MEDIUM_FIRST && Listed(pages', c, cur, parts)
    requires forall d :: 0 <= d < MEDIUM_FIRST && d != c ==> SameClass(pages, pages', d)
    ensures AllListed(pages', current[c := cur], partials[c := parts])
  {
    hide Listed, SameClass;
    forall d | 0 <= d < MEDIUM_FIRST && d != c
      ensures Listed(pages', d, current[d], partials[d])
    {
      ListedFrame(pages, pages', d, current[d], partials[d]);
    }
  }

  lemma OneClassChanged(pages: Pages, a: nat, p: Page, pages': Pages)
    requires a in pages ==> pages[a].cls == p.cls
    requires pages' == pages[a := p] || pages' == pages - {a}
    ensures forall d :: 0 <= d < MEDIUM_FIRST && d != p.cls ==> SameClass(pages, pages', d)
  {}

  // ---------------------------------------------------------------------
  // The pool
  // ---------------------------------------------------------------------

  /** Slots in use of a page. */
  function InUseOf(pages: Pages, a: nat): int {
    if a in pages then pages[a].capacity - |pages[a].free| else 0
  }

  /** Of the first four pages of the list none has more slots in use, and none behind it as many. */
  ghost predicate Fullest(pages: Pages, parts: seq<nat>, best: nat) {
    && best < |parts| && best < 4
    && (forall k :: 0 <= k < |parts| && k < 4 ==> InUseOf(pages, parts[k]) <= InUseOf(pages, parts[best]))
    && (forall k :: best < k < |parts| && k < 4 ==> InUseOf(pages, parts[k]) < InUseOf(pages, parts[best]))
  }

  // ---------------------------------------------------------------------
  // Chains of slots
  // ---------------------------------------------------------------------

  function FirstSlot(chain: seq<Slot>): Option<Slot> {
    if chain == [] then None else Some(chain[0])
  }

  function LastSlot(chain: seq<Slot>): Option<Slot> {
    if chain == [] then None else Some(chain[|chain| - 1])
  }

  /** Each slot's first word names the next slot, and the last one's is NULL. */
  ghost predicate SpellsChain(words: map<Slot, Option<Slot>>, chain: seq<Slot>) {
    && words.Keys == (set x | x in chain)
    && (forall k :: 0 <= k < |chain| ==> chain[k] in words && words[chain[k]] == FirstSlot(chain[k + 1..]))
  }

  /** Exactly the slots of the chain, all of one class, became live. */
  ghost predicate Took(before: Pages, after: Pages, c: nat, chain: seq<Slot>) {
    && (forall j, k :: 0 <= j < k < |chain| ==> chain[j] != chain[k])
    && (forall k :: 0 <= k < |chain| ==> chain[k] !in LiveSlots(before) && InClass(after, chain[k].page, c))
    && LiveSlots(after) == LiveSlots(before) + (set x | x in chain)
  }

  lemma TookNothing(pages: Pages, c: nat)
    ensures Took(pages, pages, c, [])
  {
    hide LiveSlots;
  }

  lemma TookOneMore(before: Pages, pages: Pages, pages': Pages, c: nat, chain: seq<Slot>, x: Slot)
    requires Took(before, pages, c, chain) && x !in LiveSlots(pages) && LiveSlots(pages') == LiveSlots(pages) + {x}
    requires InClass(pages', x.page, c) && forall a :: InClass(pages, a, c) ==> InClass(pages', a, c)
    ensures Took(before, pages', c, [x] + chain) && x !in chain
  {
    hide LiveSlots, InClass;
    var longer := [x] + chain;
    assert forall y :: y in longer <==> y == x || y in chain;
    assert x !in chain;
  }

  lemma EmptyChain()
    ensures SpellsChain(map[], [])
  {}

  lemma ChainPrepended(words: map<Slot, Option<Slot>>, chain: seq<Slot>, x: Slot)
    requires SpellsChain(words, chain) && x !in chain
    ensures SpellsChain(words[x := FirstSlot(chain)], [x] + chain)
  {
    var longer := [x] + chain;
    forall k | 0 <= k < |longer|
      ensures longer[k] in words[x := FirstSlot(chain)] && words[x := FirstSlot(chain)][longer[k]] == FirstSlot(longer[k + 1..])
    {
      if k > 0 {
        assert longer[k] == chain[k - 1] && longer[k + 1..] == chain[k..];
        assert chain[k - 1] in chain;
      } else {
        assert longer[1..] == chain;
      }
    }
  }

  class Pool {
    var pages: Pages
    var current: seq<Option<nat>>
    var partials: seq<seq<nat>>
    var drained: seq<nat>
    var idle: seq<nat>

    ghost predicate Valid()
      reads this
    {
      && PagesOk(pages) && AllListed(pages, current, partials)
      && |drained| == |idle| <= DRAINED_CAP && Distinct(drained)
      && (forall k :: 0 <= k < |drained| ==> drained[k] !in pages)
    }

    constructor ()
      ensures Valid() && pages == map[] && drained == []
    {
      pages := map[];
      current := seq(MEDIUM_FIRST, _ => None);
      partials := seq(MEDIUM_FIRST, _ => []);
      drained, idle := [], [];
    }

    /** Allocates from the current page, or drops it when it has filled. */
    method TryCurrent(c: nat) returns (obj: Option<Slot>)
      requires Valid() && c < MEDIUM_FIRST
      modifies this
      ensures Valid() && drained == old(drained) && idle == old(idle)
      ensures obj.None? ==> pages == old(pages) && current == old(current)[c := None] && partials == old(partials)
      ensures obj.None? && old(current[c]).Some? ==> InClass(pages, old(current[c]).value, c) && pages[old(current[c]).value].free == []
      ensures obj.Some? ==>
        && old(current[c]) == Some(obj.value.page) && InClass(old(pages), obj.value.page, c)
        && current == old(current) && partials == old(partials)
        && old(pages)[obj.value.page].free != [] && obj.value.index == old(pages)[obj.value.page].free[0]
        && pages == old(pages)[obj.value.page := Take(old(pages)[obj.value.page])]
    {
      hide Listed, SameClass, LiveSlots;
      if current[c].None? {
        assert current[c := None] == current;
        return None;
      }
      var a := current[c].value;
      ListedCurrent(pages, c, current[c], partials[c]);
      if pages[a].free == [] {
        DropCurrentListed(pages, c, a, partials[c]);
        OneClassUnchanged(pages);
        RelistClass(pages, current, partials, pages, c, None, partials[c]);
        current := current[c := None];
        return None;
      }
      obj := Some(Slot(a, pages[a].free[0]));
      TakeCurrentListed(pages, c, a, partials[c]);
      TakeLive(pages, a);
      ghost var before := pages;
      pages := pages[a := Take(pages[a])];
      OneClassChanged(before, a, pages[a], pages);
      RelistClass(before, current, partials, pages, c, current[c], partials[c]);
      assert current[c := current[c]] == current && partials[c := partials[c]] == partials;
    }

    function UsedOf(a: nat): nat
      reads this
      requires a in pages && |pages[a].free| <= pages[a].capacity
    {
      pages[a].capacity - |pages[a].free|
    }

    /** Of the first four partial pages the fullest, and of equals the last. */
    method FullestPartial(c: nat) returns (best: nat)
      requires Valid() && c < MEDIUM_FIRST && partials[c] != []
      ensures best < |partials[c]| && best < SCAN_BUDGET
      ensures forall k :: 0 <= k < |partials[c]| && k < SCAN_BUDGET ==>
        && partials[c][k] in pages && partials[c][best] in pages
        && |pages[partials[c][best]].free| < pages[partials[c][best]].capacity
        && |pages[partials[c][k]].free| < pages[partials[c][k]].capacity
        && (if k <= best then UsedOf(partials[c][k]) <= UsedOf(partials[c][best])
            else UsedOf(partials[c][k]) < UsedOf(partials[c][best]))
      ensures Fullest(pages, partials[c], best)
    {
      var parts := partials[c];
      assert Listed(pages, c, current[c], parts);
      best := 0;
      var bestUsed := 0;
      var scanned := 0;
      while scanned < |parts| && scanned < SCAN_BUDGET
        invariant scanned <= |parts| && scanned <= SCAN_BUDGET
        invariant best < |parts| && (scanned > 0 ==> best < scanned && bestUsed == UsedOf(parts[best]))
        invariant scanned == 0 ==> best == 0 && bestUsed == 0
        invariant forall k :: 0 <= k < scanned ==>
          if k <= best then UsedOf(parts[k]) <= bestUsed else UsedOf(parts[k]) < bestUsed
      {
        var used := UsedOf(parts[scanned]);
        if used >= bestUsed {
          bestUsed := used;
          best := scanned;
        }
        scanned := scanned + 1;
      }
    }

    /** Promotes the fullest of the first partial pages to current and allocates from it. */
    method TryPartials(c: nat) returns (obj: Option<Slot>, ghost best: nat)
      requires Valid() && c < MEDIUM_FIRST && current[c].None?
      modifies this
      ensures Valid() && drained == old(drained) && idle == old(idle)
      ensures obj.None? <==> old(partials[c]) == []
      ensures obj.None? ==> pages == old(pages) && current == old(current) && partials == old(partials)
      ensures obj.Some? ==>
        && Fullest(old(pages), old(partials[c]), best) && obj.value.page == old(partials[c])[best]
        && partials == old(partials)[c := Without(old(partials[c]), best)]
        && InClass(old(pages), obj.value.page, c) && current == old(current)[c := Some(obj.value.page)]
        && old(pages)[obj.value.page].free != [] && obj.value.index == old(pages)[obj.value.page].free[0]
        && pages == old(pages)[obj.value.page := Take(old(pages)[obj.value.page])]
    {
      hide Listed, SameClass, LiveSlots;
      best := 0;
      if partials[c] == [] {
        return None, 0;
      }
      var k := FullestPartial(c);
      best := k;
      var a := partials[c][k];
      ListedCurrent(pages, c, current[c], partials[c]);
      obj := Some(Slot(a, pages[a].free[0]));
      PromoteListed(pages, c, partials[c], k);
      TakeLive(pages, a);
      ghost var before := pages;
      pages := pages[a := Take(pages[a])];
      OneClassChanged(before, a, pages[a], pages);
      RelistClass(before, current, partials, pages, c, Some(a), Without(partials[c], k));
      partials := partials[c := Without(partials[c], k)];
      current := current[c := Some(a)];
    }

    /** The most recently drained page, or else what the page source has to offer. */
    method AcquirePage(supply: Option<nat>) returns (page: Option<nat>)
      requires |drained| == |idle|
      modifies this`drained, this`idle
      ensures |drained| == |idle|
      ensures old(drained) == [] ==> page == supply && drained == [] && idle == old(idle)
      ensures old(drained) != [] ==>
        page == Some(old(drained)[|old(drained)| - 1]) && drained == old(drained)[..|old(drained)| - 1]
        && idle == old(idle)[..|old(drained)| - 1]
    {
      if drained == [] {
        return supply;
      }
      var n := |drained| - 1;
      page := Some(drained[n]);
      drained, idle := drained[..n], idle[..n];
    }

    /** What an allocation may draw on besides the pages it has: a page nobody uses. */
    ghost predicate Unused(supply: Option<nat>)
      reads this
    {
      supply.Some? ==> supply.value !in pages && supply.value !in drained
    }

    method AcquireFresh(c: nat, supply: Option<nat>) returns (obj: Option<Slot>)
      requires Valid() && c < MEDIUM_FIRST && current[c].None? && partials[c] == [] && Unused(supply)
      modifies this
      ensures Valid()
      ensures obj.None? <==> old(drained) == [] && supply.None?
      ensures obj.None? ==> pages == old(pages) && drained == old(drained) && idle == old(idle)
      ensures obj.Some? ==>
        && obj.value == Slot(NextPage(old(drained), supply), 0) && obj.value.page !in old(pages)
        && pages == old(pages)[obj.value.page := Started(c)]
        && drained == (if old(drained) == [] then [] else old(drained)[..|old(drained)| - 1])
      ensures |drained| <= |old(idle)| && idle == old(idle)[..|drained|]
    {
      hide Listed, SameClass, LiveSlots, Capacity, Started;
      var page := AcquirePage(supply);
      if page.None? {
        return None;
      }
      var a := page.value;
      assert a !in pages && a !in drained;
      FreshLive(pages, a, c);
      InstallListed(pages, c, a);
      obj := Some(Slot(a, 0));
      ghost var before := pages;
      pages := pages[a := Started(c)];
      OneClassChanged(before, a, pages[a], pages);
      RelistClass(before, current, partials, pages, c, Some(a), []);
      current := current[c := Some(a)];
      assert partials[c := []] == partials;
    }

    /**
     A slot comes from a page of the class that has room if there is one; a
     page is taken only when every page of the class is full, and NULL is
     returned only when there is none to take.
     */
    method Alloc(c: nat, supply: Option<nat>) returns (obj: Option<Slot>)
      requires Valid() && Unused(supply)
      modifies this
      ensures Valid()
      ensures obj.None? <==> c >= MEDIUM_FIRST || (!HasRoom(old(pages), c) && old(drained) == [] && supply.None?)
      ensures obj.None? ==> pages == old(pages) && drained == old(drained)
      ensures |drained| <= |old(idle)| && idle == old(idle)[..|drained|]
      ensures
        (c < MEDIUM_FIRST && old(current[c]).Some? && old(current[c]).value in old(pages)
         && old(pages)[old(current[c]).value].free != [])
        ==> obj.Some? && Some(obj.value.page) == old(current[c])
      ensures
        (c < MEDIUM_FIRST && old(partials[c]) != []
         && (old(current[c]).None? || (old(current[c]).value in old(pages) && old(pages)[old(current[c]).value].free == [])))
        ==> obj.Some? && exists best: nat :: Fullest(old(pages), old(partials[c]), best) && obj.value.page == old(partials[c])[best]
      ensures obj.Some? ==> Granted(old(pages), old(drained), c, supply, obj.value, pages, drained)
      ensures obj.Some? ==> LiveSlots(pages) == LiveSlots(old(pages)) + {obj.value} && obj.value !in LiveSlots(old(pages))
    {
      hide Listed, SameClass, LiveSlots, Capacity;
      if c >= MEDIUM_FIRST {
        return None;
      }
      RoomIs(pages, c, current[c], partials[c]);
      obj := TryCurrent(c);
      if obj.None? {
        ghost var best;
        obj, best := TryPartials(c);
      }
      if obj.Some? {
        RoomHas(old(pages), obj.value.page, c);
        TakeLive(old(pages), obj.value.page);
      } else {
        obj := AcquireFresh(c, supply);
        if obj.Some? {
          FreshLive(old(pages), obj.value.page, c);
        }
      }
    }

    /** Takes a page off whichever list of its class holds it, if any does. */
    method Unlink(c: nat, a: nat)
      requires c < |current| == |partials|
      modifies this`current, this`partials
      ensures |current| == |partials| == |old(current)|
      ensures old(current[c]) == Some(a) ==> current == old(current)[c := None] && partials == old(partials)
      ensures old(current[c]) != Some(a) && a !in old(partials[c]) ==> current == old(current) && partials == old(partials)
      ensures old(current[c]) != Some(a) && a in old(partials[c]) ==>
        current == old(current) && exists k :: FirstAt(old(partials[c]), a, k) && partials == old(partials)[c := Without(old(partials[c]), k)]
    {
      if current[c] == Some(a) {
        current := current[c := None];
        return;
      }
      var parts := partials[c];
      var k := 0;
      while k < |parts|
        invariant k <= |parts| && current == old(current) && partials == old(partials)
        invariant forall j :: 0 <= j < k ==> parts[j] != a
      {
        if parts[k] == a {
          partials := partials[c := Without(parts, k)];
          assert FirstAt(parts, a, k);
          return;
        }
        k := k + 1;
      }
    }

    /** Parks an empty page, or gives it up when the cache is full. */
    method ReleasePage(a: nat) returns (released: Option<nat>)
      requires |drained| == |idle|
      modifies this`drained, this`idle
      ensures |drained| == |idle|
      ensures |old(drained)| >= DRAINED_CAP ==> released == Some(a) && drained == old(drained) && idle == old(idle)
      ensures |old(drained)| < DRAINED_CAP ==> released == None && drained == old(drained) + [a] && idle == old(idle) + [0]
    {
      if |drained| >= DRAINED_CAP {
        return Some(a);
      }
      drained, idle := drained + [a], idle + [0];
      return None;
    }

    /** The page leaves the pool exactly when its last slot in use comes back. */
    method Free(a: nat, i: nat) returns (empty: bool, released: Option<nat>)
      requires Valid() && Slot(a, i) in LiveSlots(pages)
      modifies this
      ensures Valid() && LiveSlots(pages) == LiveSlots(old(pages)) - {Slot(a, i)}
      ensures a in old(pages)
      ensures empty <==> Live(old(pages)[a]) == {i}
      ensures !empty ==> pages == old(pages)[a := Put(old(pages)[a], i)] && released.None? && drained == old(drained) && idle == old(idle)
      ensures !empty ==> current == old(current) && old(pages)[a].cls < |old(current)| == |old(partials)|
      ensures !empty ==>
        var c := old(pages)[a].cls;
        partials == if old(pages)[a].free == [] && old(current)[c] != Some(a)
                    then old(partials)[c := [a] + old(partials)[c]] else old(partials)
      ensures empty ==> pages == old(pages) - {a}
      ensures empty ==> if |old(drained)| < DRAINED_CAP then drained == old(drained) + [a] && idle == old(idle) + [0] && released.None?
                        else drained == old(drained) && idle == old(idle) && released == Some(a)
    {
      hide Listed, SameClass, Capacity;
      released := None;
      var c, wasFull := pages[a].cls, pages[a].free == [];
      var p := Put(pages[a], i);
      PutLive(pages, a, i);
      PutOk(pages[a], i);
      LastOne(pages[a], i);
      empty := |p.free| == p.capacity;
      hide LiveSlots, Put;
      ghost var before := pages;
      if empty {
        Unlink(c, a);
        Unlinked(before, old(current), old(partials), c, a, current, partials);
        pages := pages - {a};
        released := ReleasePage(a);
      } else {
        pages := pages[a := p];
        OneClassChanged(before, a, p, pages);
        PutListed(before, c, current[c], partials[c], a, p);
        if wasFull && current[c] != Some(a) {
          RelistClass(before, current, partials, pages, c, current[c], [a] + partials[c]);
          partials := partials[c := [a] + partials[c]];
          assert current[c := current[c]] == current;
        } else {
          RelistClass(before, current, partials, pages, c, current[c], partials[c]);
          assert current[c := current[c]] == current && partials[c := partials[c]] == partials;
        }
      }
    }

    /**
     Up to `max` slots under one lock, chained newest first through their
     first words. `supplies` are the pages the page source would hand out, in
     order; the rest of them stay unused.
     */
    method AllocBatch(c: nat, max: nat, supplies: seq<nat>)
      returns (head: Option<Slot>, tail: Option<Slot>, count: nat, words: map<Slot, Option<Slot>>, taken: nat, ghost chain: seq<Slot>)
      requires Valid() && Distinct(supplies)
      requires forall k :: 0 <= k < |supplies| ==> Unused(Some(supplies[k]))
      modifies this
      ensures Valid() && count == |chain| <= max && taken <= |supplies|
      ensures head == FirstSlot(chain) && tail == LastSlot(chain) && SpellsChain(words, chain)
      ensures Took(old(pages), pages, c, chain)
      ensures count < max ==>
        c >= MEDIUM_FIRST || (!HasRoom(pages, c) && drained == [] && taken == |supplies|)
    {
      hide Listed, LiveSlots, HasRoom, AllListed, PagesOk, SpellsChain, Took;
      head, tail, count, words, taken, chain := None, None, 0, map[], 0, [];
      EmptyChain();
      TookNothing(pages, c);
      if c >= MEDIUM_FIRST {
        return;
      }
      while count < max
        invariant Valid() && count == |chain| <= max && taken <= |supplies|
        invariant head == FirstSlot(chain) && tail == LastSlot(chain) && SpellsChain(words, chain)
        invariant forall k :: taken <= k < |supplies| ==> Unused(Some(supplies[k]))
        invariant Took(old(pages), pages, c, chain)
      {
        var supply := if taken < |supplies| then Some(supplies[taken]) else None;
        ghost var before, parked := pages, drained;
        var obj := Alloc(c, supply);
        if obj.None? {
          return;
        }
        GrantedMoves(before, parked, c, supply, obj.value, pages, drained);
        if supply == Some(obj.value.page) {
          taken := taken + 1;
        }
        TookOneMore(old(pages), before, pages, c, chain, obj.value);
        ChainPrepended(words, chain, obj.value);
        words := words[obj.value := head];
        head := obj;
        if tail.None? {
          tail := obj;
        }
        count := count + 1;
        chain := [obj.value] + chain;
      }
    }

    /** Ages the drained pages by one tick and gives up those that have aged enough. */
    method SweepIdle(maxTicks: nat) returns (released: seq<nat>)
      requires Valid()
      modifies this`drained, this`idle
      ensures Valid()
      ensures drained == Kept(old(drained), old(idle), maxTicks)
      ensures idle == KeptTicks(old(drained), old(idle), maxTicks)
      ensures released == Evicted(old(drained), old(idle), maxTicks)
    {
      var n := |drained|;
      var keptPages: seq<nat>, keptTicks: seq<nat> := [], [];
      released := [];
      var read := 0;
      while read < n
        invariant read <= n && |keptPages| == |keptTicks|
        invariant drained == old(drained) && idle == old(idle)
        invariant keptPages == Kept(drained[..read], idle[..read], maxTicks)
        invariant keptTicks == KeptTicks(drained[..read], idle[..read], maxTicks)
        invariant released == Evicted(drained[..read], idle[..read], maxTicks)
      {
        var ticks := Aged(idle[read]);
        assert drained[..read + 1][..read] == drained[..read] && idle[..read + 1][..read] == idle[..read];
        if ticks >= maxTicks {
          released := released + [drained[read]];
        } else {
          keptPages := keptPages + [drained[read]];
          keptTicks := keptTicks + [ticks];
        }
        read := read + 1;
      }
      assert drained[..n] == drained && idle[..n] == idle;
      SweepParts(drained, idle, maxTicks);
      forall k | 0 <= k < |keptPages|
        ensures keptPages[k] !in pages
      {
        assert keptPages[k] in keptPages;
      }
      drained, idle := keptPages, keptTicks;
    }
  }

  function Aged(ticks: nat): nat {
    if ticks < 0xffff_ffff then ticks + 1 else ticks
  }

  function Kept(pages: seq<nat>, ticks: seq<nat>, maxTicks: nat): seq<nat>
    requires |pages| == |ticks|
    decreases |pages|
  {
    if pages == [] then []
    else
      var n := |pages| - 1;
      Kept(pages[..n], ticks[..n], maxTicks) + (if Aged(ticks[n]) >= maxTicks then [] else [pages[n]])
  }

  function KeptTicks(pages: seq<nat>, ticks: seq<nat>, maxTicks: nat): seq<nat>
    requires |pages| == |ticks|
    decreases |pages|
  {
    if pages == [] then []
    else
      var n := |pages| - 1;
      KeptTicks(pages[..n], ticks[..n], maxTicks) + (if Aged(ticks[n]) >= maxTicks then [] else [Aged(ticks[n])])
  }

  function Evicted(pages: seq<nat>, ticks: seq<nat>, maxTicks: nat): seq<nat>
    requires |pages| == |ticks|
    decreases |pages|
  {
    if pages == [] then []
    else
      var n := |pages| - 1;
      Evicted(pages[..n], ticks[..n], maxTicks) + (if Aged(ticks[n]) >= maxTicks then [pages[n]] else [])
  }

  /** A sweep parts the cache: each drained page is kept or given up, never both or neither. */
  lemma {:induction false} SweepParts(pages: seq<nat>, ticks: seq<nat>, maxTicks: nat)
    requires |pages| == |ticks| && Distinct(pages)
    ensures var kept, gone := Kept(pages, ticks, maxTicks), Evicted(pages, ticks, maxTicks);
            && |kept| + |gone| == |pages| && Distinct(kept) && Distinct(gone)
            && (forall x :: x in pages <==> x in kept || x in gone)
            && (forall x :: x in kept ==> x !in gone)
    decreases |pages|
  {
    if pages != [] {
      var n := |pages| - 1;
      SweepParts(pages[..n], ticks[..n], maxTicks);
      assert pages == pages[..n] + [pages[n]];
      assert pages[n] !in pages[..n];
    }
  }

  /** Page `x` is in the cache and has been there for `t` ticks. */
  ghost predicate AgeIs(pages: seq<nat>, ticks: seq<nat>, x: nat, t: nat)
    requires |pages| == |ticks|
  {
    exists k :: 0 <= k < |pages| && pages[k] == x && ticks[k] == t
  }

  lemma {:induction false} KeptLength(pages: seq<nat>, ticks: seq<nat>, maxTicks: nat)
    requires |pages| == |ticks|
    ensures |Kept(pages, ticks, maxTicks)| == |KeptTicks(pages, ticks, maxTicks)|
    ensures forall x :: x in Kept(pages, ticks, maxTicks) ==> x in pages
    decreases |pages|
  {
    if pages != [] {
      var n := |pages| - 1;
      KeptLength(pages[..n], ticks[..n], maxTicks);
    }
  }

  /** One sweep: the page is a tick older, or gone once its age reaches the limit. */
  lemma {:induction false} SweepAges(pages: seq<nat>, ticks: seq<nat>, maxTicks: nat, k: nat)
    requires |pages| == |ticks| && Distinct(pages) && k < |pages|
    ensures |Kept(pages, ticks, maxTicks)| == |KeptTicks(pages, ticks, maxTicks)|
    ensures Aged(ticks[k]) < maxTicks ==>
      AgeIs(Kept(pages, ticks, maxTicks), KeptTicks(pages, ticks, maxTicks), pages[k], Aged(ticks[k]))
    ensures Aged(ticks[k]) >= maxTicks ==> pages[k] !in Kept(pages, ticks, maxTicks)
    decreases |pages|
  {
    hide Aged;
    var n := |pages| - 1;
    var ps, ts := pages[..n], ticks[..n];
    KeptLength(pages, ticks, maxTicks);
    KeptLength(ps, ts, maxTicks);
    var kept, keptTicks := Kept(pages, ticks, maxTicks), KeptTicks(pages, ticks, maxTicks);
    var front, frontTicks := Kept(ps, ts, maxTicks), KeptTicks(ps, ts, maxTicks);
    assert front <= kept && frontTicks <= keptTicks;
    if k < n {
      SweepAges(ps, ts, maxTicks, k);
      assert pages[k] != pages[n];
      if Aged(ticks[k]) < maxTicks {
        var j :| 0 <= j < |front| && front[j] == pages[k] && frontTicks[j] == Aged(ticks[k]);
        assert kept[j] == pages[k] && keptTicks[j] == Aged(ticks[k]);
      }
    } else if Aged(ticks[n]) < maxTicks {
      assert kept[|front|] == pages[n] && keptTicks[|front|] == Aged(ticks[n]);
    } else {
      assert kept == front && pages[n] !in ps;
    }
  }

  /** The cache after `n` sweeps with nothing parked or taken in between. */
  ghost function SweptTimes(pages: seq<nat>, ticks: seq<nat>, maxTicks: nat, n: nat): (r: (seq<nat>, seq<nat>))
    requires |pages| == |ticks|
    ensures |r.0| == |r.1|
  {
    if n == 0 then (pages, ticks)
    else
      var r := SweptTimes(pages, ticks, maxTicks, n - 1);
      KeptLength(r.0, r.1, maxTicks);
      (Kept(r.0, r.1, maxTicks), KeptTicks(r.0, r.1, maxTicks))
  }

  lemma {:induction false} SweptDistinct(pages: seq<nat>, ticks: seq<nat>, maxTicks: nat, n: nat)
    requires |pages| == |ticks| && Distinct(pages)
    ensures Distinct(SweptTimes(pages, ticks, maxTicks, n).0)
    ensures forall x :: x in SweptTimes(pages, ticks, maxTicks, n).0 ==> x in pages
  {
    if n > 0 {
      SweptDistinct(pages, ticks, maxTicks, n - 1);
      var r := SweptTimes(pages, ticks, maxTicks, n - 1);
      SweepParts(r.0, r.1, maxTicks);
      KeptLength(r.0, r.1, maxTicks);
    }
  }

  /**
   A page parked and left alone is kept, one tick older at each sweep, until
   its age reaches the limit; at that sweep, and at the first one if the
   limit is zero, it is given up.
   */
  lemma {:induction false} GivenUpOnTime(pages: seq<nat>, ticks: seq<nat>, maxTicks: nat, k: nat, n: nat)
    requires |pages| == |ticks| && Distinct(pages) && k < |pages| && maxTicks <= 0xffff_ffff
    ensures var due := if ticks[k] + 1 >= maxTicks then 1 else maxTicks - ticks[k];
            var r := SweptTimes(pages, ticks, maxTicks, n);
            if n < due then AgeIs(r.0, r.1, pages[k], ticks[k] + n) else pages[k] !in r.0
    decreases n
  {
    hide Kept, KeptTicks;
    if n > 0 {
      GivenUpOnTime(pages, ticks, maxTicks, k, n - 1);
      SweptDistinct(pages, ticks, maxTicks, n - 1);
      var due := if ticks[k] + 1 >= maxTicks then 1 else maxTicks - ticks[k];
      var r := SweptTimes(pages, ticks, maxTicks, n - 1);
      KeptLength(r.0, r.1, maxTicks);
      if n - 1 < due {
        var j :| 0 <= j < |r.0| && r.0[j] == pages[k] && r.1[j] == ticks[k] + (n - 1);
        SweepAges(r.0, r.1, maxTicks, j);
      }
    }
  }

  /** A grant uses at most the page supplied, never a later one. */
  lemma GrantedMoves(pages: Pages, drained: seq<nat>, c: nat, supply: Option<nat>, x: Slot, pages': Pages, drained': seq<nat>)
    requires Granted(pages, drained, c, supply, x, pages', drained') && (supply.Some? ==> supply.value !in pages && supply.value !in drained)
    ensures InClass(pages', x.page, c)
    ensures forall a :: InClass(pages, a, c) ==> InClass(pages', a, c)
    ensures forall a :: a in pages' ==> a in pages || a in drained || supply == Some(a)
    ensures forall a :: a in drained' ==> a in drained
    ensures supply != Some(x.page) && supply.Some? ==> supply.value !in pages'
  {}

  ghost predicate FirstAt(xs: seq<nat>, x: nat, k: nat) {
    k < |xs| && xs[k] == x && forall j :: 0 <= j < k ==> xs[j] != x
  }

  /** The last slot in use is the one whose return makes every slot free. */
  lemma LastOne(p: Page, i: nat)
    requires PageOk(p) && i in Live(p)
    ensures |Put(p, i).free| <= p.capacity
    ensures |Put(p, i).free| == p.capacity <==> Live(p) == {i}
  {
    PutOk(p, i);
    var q := Put(p, i);
    FreeAndLive(q);
    assert Live(p) == Live(q) + {i};
  }

  lemma FreeAndLive(p: Page)
    requires PageOk(p)
    ensures |p.free| + |Live(p)| == p.capacity
  {
    DistinctCount(p.free);
    BelowIs(p.capacity);
    forall x
      ensures x in Below(p.capacity) <==> x in Elements(p.free) || x in Live(p)
    {
      if x in p.free {
        var k :| 0 <= k < |p.free| && p.free[k] == x;
      }
    }
    assert Below(p.capacity) == Elements(p.free) + Live(p);
    assert Elements(p.free) !! Live(p);
  }

  lemma Unlinked(pages: Pages, current: seq<Option<nat>>, partials: seq<seq<nat>>, c: nat, a: nat,
                 current': seq<Option<nat>>, partials': seq<seq<nat>>)
    requires AllListed(pages, current, partials) && InClass(pages, a, c) && c < MEDIUM_FIRST
    requires current[c] == Some(a) ==> current' == current[c := None] && partials' == partials
    requires current[c] != Some(a) && a !in partials[c] ==> current' == current && partials' == partials
    requires current[c] != Some(a) && a in partials[c] ==>
      current' == current && exists k :: FirstAt(partials[c], a, k) && partials' == partials[c := Without(partials[c], k)]
    ensures AllListed(pages - {a}, current', partials')
  {
    hide Listed, SameClass;
    var pages' := pages - {a};
    OneClassChanged(pages, a, pages[a], pages');
    if current[c] == Some(a) {
      DrainCurrentListed(pages, c, a, partials[c]);
      RelistClass(pages, current, partials, pages', c, None, partials[c]);
      assert partials[c := partials[c]] == partials;
    } else if a in partials[c] {
      var k :| FirstAt(partials[c], a, k) && partials' == partials[c := Without(partials[c], k)];
      DrainPartialListed(pages, c, current[c], partials[c], k);
      RelistClass(pages, current, partials, pages', c, current[c], Without(partials[c], k));
      assert current[c := current[c]] == current;
    } else {
      DrainUnlistedListed(pages, c, current[c], partials[c], a);
      RelistClass(pages, current, partials, pages', c, current[c], partials[c]);
      assert current[c := current[c]] == current && partials[c := partials[c]] == partials;
    }
  }

  function NextPage(drained: seq<nat>, supply: Option<nat>): nat
    requires drained != [] || supply.Some?
  {
    if drained == [] then supply.value else drained[|drained| - 1]
  }

  /** The one slot handed out and the one page it came from; everything else as before. */
  ghost predicate Granted(pages: Pages, drained: seq<nat>, c: nat, supply: Option<nat>, x: Slot, pages': Pages, drained': seq<nat>) {
    c < MEDIUM_FIRST &&
    if HasRoom(pages, c) then
      && InClass(pages, x.page, c) && pages[x.page].free != [] && x.index == pages[x.page].free[0]
      && pages' == pages[x.page := Take(pages[x.page])] && drained' == drained
    else
      && (drained != [] || supply.Some?)
      && x == Slot(NextPage(drained, supply), 0) && x.page !in pages
      && pages' == pages[x.page := Started(c)]
      && drained' == (if drained == [] then [] else drained[..|drained| - 1])
  }

  lemma RoomHas(pages: Pages, a: nat, c: nat)
    requires InClass(pages, a, c) && pages[a].free != []
    ensures HasRoom(pages, c)
  {}

  lemma ListedCurrent(pages: Pages, c: nat, cur: Option<nat>, parts: seq<nat>)
    requires Listed(pages, c, cur, parts)
    ensures cur.Some? ==> cur.value in pages && pages[cur.value].cls == c
    ensures forall k :: 0 <= k < |parts| ==> parts[k] in pages && pages[parts[k]].cls == c && pages[parts[k]].free != []
  {}

  lemma OneClassUnchanged(pages: Pages)
    ensures forall d :: 0 <= d < MEDIUM_FIRST ==> SameClass(pages, pages, d)
  {}
}
