/**
 The slab side of the dispatcher as one machine: slots travel between the
 application, the bins of thread caches, chains in the hands of a thread, the
 per-core stacks and the pages of the pool, in steps that are atomic because
 they touch one thread's cache only, are one exchange on a stack, or hold the
 pool's lock.
 */
module Dispatch {
  import opened Basics
  import opened SizeClass
  import opened Slab
  import opened SlabPool

  // ---------------------------------------------------------------------
  // Addresses of slots
  // ---------------------------------------------------------------------

  function SlotAddr(a: nat, c: nat, i: nat): nat
    requires c < MEDIUM_FIRST
  {
    a + SlotOffset(c, i)
  }

  function IndexOf(c: nat, offset: nat): nat
    requires c < MEDIUM_FIRST
  {
    SlabSizes(c);
    if offset < DataOffset(c) then 0 else (offset - DataOffset(c)) / SizeOf(c)
  }

  /** `x` is the start of a slot in use. */
  ghost predicate InUse(pages: Pages, x: nat) {
    var a := PageOf(x);
    a in pages && pages[a].cls < MEDIUM_FIRST &&
    var i := IndexOf(pages[a].cls, x - a);
    i in Live(pages[a]) && x == SlotAddr(a, pages[a].cls, i)
  }

  /** Masking an object's address finds its page, and its offset finds its slot. */
  lemma SlotFound(a: nat, c: nat, i: nat)
    requires a % PAGE_SIZE == 0 && c < MEDIUM_FIRST && i < Capacity(c)
    ensures PageOf(SlotAddr(a, c, i)) == a && IndexOf(c, SlotAddr(a, c, i) - a) == i
  {
    SlotInPage(c, i);
    SlabSizes(c);
    hide SizeOf, Capacity;
    SlotRecovered(SizeOf(c), i, 0);
    Masked(a, SlotOffset(c, i));
  }

  ghost predicate Aligned(pages: Pages) {
    forall a :: a in pages ==> a % PAGE_SIZE == 0
  }

  lemma InUseIs(pages: Pages, a: nat, i: nat)
    requires PagesOk(pages) && Aligned(pages) && a in pages && i < pages[a].capacity
    ensures InUse(pages, SlotAddr(a, pages[a].cls, i)) <==> i in Live(pages[a])
  {
    hide Capacity, SizeOf;
    SlotFound(a, pages[a].cls, i);
  }

  /** Objects in use never share a byte. */
  lemma ObjectsDisjoint(pages: Pages, x: nat, y: nat)
    requires PagesOk(pages) && Aligned(pages) && InUse(pages, x) && InUse(pages, y) && x < y
    ensures x + SizeOf(pages[PageOf(x)].cls) <= y
    ensures x + SizeOf(pages[PageOf(x)].cls) <= PageOf(x) + PAGE_SIZE
  {
    var a, b := PageOf(x), PageOf(y);
    var c := pages[a].cls;
    var i, j := IndexOf(c, x - a), IndexOf(pages[b].cls, y - b);
    hide Capacity, SizeOf, IndexOf;
    SlotInPage(c, i);
    if a == b {
      if i < j {
        SlotsDisjoint(c, i, j);
      } else if j < i {
        SlotsDisjoint(c, j, i);
      }
    } else {
      NextPageBeyond(x, y);
    }
  }

  lemma NextPageBeyond(x: nat, y: nat)
    requires x < y && PageOf(x) != PageOf(y)
    ensures PageOf(x) + PAGE_SIZE <= y
  {}

  // ---------------------------------------------------------------------
  // Places that hold slots
  // ---------------------------------------------------------------------

  datatype Place =
    | User
    | Bin(t: nat, c: nat)
    | Chain(t: nat, c: nat)
    | Stack(cpu: nat, c: nat)

  type Held = map<Place, seq<nat>>
  type Where = map<nat, Place>

  function At(held: Held, p: Place): seq<nat> {
    if p in held then held[p] else []
  }

  /** `where` names the one place of every slot held, and each place holds a slot once. */
  ghost predicate Sound(held: Held, where: Where) {
    && (forall p, x :: x in At(held, p) <==> x in where && where[x] == p)
    && (forall p :: Distinct(At(held, p)))
  }

  /** The first `n` slots of a place leave it. */
  function Drop(held: Held, p: Place, n: nat): Held
    requires n <= |At(held, p)|
  {
    held[p := At(held, p)[n..]]
  }

  /** One slot leaves its place, wherever it stands there. */
  function Pluck(held: Held, p: Place, k: nat): Held
    requires k < |At(held, p)|
  {
    held[p := Without(At(held, p), k)]
  }

  function Prepend(held: Held, p: Place, xs: seq<nat>): Held {
    held[p := xs + At(held, p)]
  }

  function Append(held: Held, p: Place, xs: seq<nat>): Held {
    held[p := At(held, p) + xs]
  }

  ghost function Forget(where: Where, xs: seq<nat>): Where {
    where - Elements(xs)
  }

  ghost function Learn(where: Where, xs: seq<nat>, p: Place): Where {
    map x | x in where.Keys + Elements(xs) :: if x in xs then p else where[x]
  }

  lemma Halves(ys: seq<nat>, n: nat)
    requires Distinct(ys) && n <= |ys|
    ensures Distinct(ys[..n]) && Distinct(ys[n..])
    ensures forall x :: x in ys[n..] <==> x in ys && x !in ys[..n]
  {}

  lemma DropSound(held: Held, where: Where, p: Place, n: nat)
    requires Sound(held, where) && n <= |At(held, p)|
    ensures Sound(Drop(held, p, n), Forget(where, At(held, p)[..n]))
    ensures Distinct(At(held, p)[..n])
    ensures forall x :: x in At(held, p)[..n] ==> x in where && where[x] == p
  {
    var ys := At(held, p);
    var xs, rest := ys[..n], ys[n..];
    Halves(ys, n);
    assert forall x :: x in xs ==> x in ys;
    hide Distinct;
    var held' := Drop(held, p, n);
    var where' := Forget(where, xs);
    forall q, x
      ensures x in At(held', q) <==> x in where' && where'[x] == q
    {
      assert At(held', q) == if q == p then rest else At(held, q);
      assert x in ys ==> x in where && where[x] == p;
    }
    forall q
      ensures Distinct(At(held', q))
    {
      assert q != p ==> At(held', q) == At(held, q);
    }
  }

  lemma PluckSound(held: Held, where: Where, p: Place, k: nat)
    requires Sound(held, where) && k < |At(held, p)|
    ensures Sound(Pluck(held, p, k), Forget(where, [At(held, p)[k]]))
    ensures At(held, p)[k] in where && where[At(held, p)[k]] == p
  {
    var ys := At(held, p);
    assert ys[k] in ys;
    WithoutIs(ys, k);
    var held' := Pluck(held, p, k);
    var where' := Forget(where, [ys[k]]);
    forall q, x
      ensures x in At(held', q) <==> x in where' && where'[x] == q
    {
      assert At(held', q) == if q == p then Without(ys, k) else At(held, q);
      assert x in ys ==> x in where && where[x] == p;
    }
    forall q
      ensures Distinct(At(held', q))
    {
      assert q != p ==> At(held', q) == At(held, q);
    }
  }

  lemma DistinctConcat(xs: seq<nat>, ys: seq<nat>)
    requires Distinct(xs) && Distinct(ys) && forall x :: x in xs ==> x !in ys
    ensures Distinct(xs + ys)
  {
    var zs := xs + ys;
    forall j, k | 0 <= j < k < |zs|
      ensures zs[j] != zs[k]
    {
      if j < |xs| <= k {
        assert xs[j] in xs;
        assert ys[k - |xs|] in ys;
      }
    }
  }

  /** Slots held nowhere may be put anywhere. */
  lemma AddSound(held: Held, where: Where, p: Place, xs: seq<nat>, held': Held)
    requires Sound(held, where) && Distinct(xs) && forall x :: x in xs ==> x !in where
    requires held' == Prepend(held, p, xs) || held' == Append(held, p, xs)
    ensures Sound(held', Learn(where, xs, p))
  {
    var ys := At(held, p);
    forall x | x in xs
      ensures x !in ys
    {
    }
    DistinctConcat(xs, ys);
    DistinctConcat(ys, xs);
    forall q
      ensures Distinct(At(held', q))
    {
      assert q != p ==> At(held', q) == At(held, q);
    }
    var where' := Learn(where, xs, p);
    forall q, x
      ensures x in At(held', q) <==> x in where' && where'[x] == q
    {
      if q == p {
        assert x in At(held', p) <==> x in xs || x in ys;
      } else {
        assert At(held', q) == At(held, q);
      }
    }
  }

  // ---------------------------------------------------------------------
  // The machine
  // ---------------------------------------------------------------------

  datatype State = State(pages: Pages, drained: seq<nat>, held: Held, where: Where)

  datatype Event =
    | ServeFromBin(t: nat, c: nat)                               // a bin hit
    | FreeToBin(t: nat, k: nat)                                  // the k-th object of the application
    | ChainOut(t: nat, c: nat)                                   // one slot of an overflowing bin
    | PushBatch(t: nat, c: nat, cpu: nat)
    | PopToChain(t: nat, c: nat, cpu: nat)                       // one pop of a batch, local or stolen
    | Install(t: nat, c: nat)
    | PoolToChain(t: nat, c: nat, supply: Option<nat>, x: Slot)  // one slot of a pool batch
    | PoolToUser(c: nat, supply: Option<nat>, x: Slot)
    | BinToPool(t: nat, c: nat)                                  // one object of a half flush
    | ChainToPool(t: nat, c: nat)                                // one object of a drained stack
    | UserToPool(k: nat)                                         // a free without a thread cache
    | Sweep(kept: seq<nat>)

  function ClassAt(pages: Pages, x: nat): nat {
    if PageOf(x) in pages then pages[PageOf(x)].cls else MEDIUM_FIRST
  }

  function PagesAfterAlloc(pages: Pages, c: nat, x: Slot): Pages
    requires c < MEDIUM_FIRST
  {
    if x.page in pages then
      if pages[x.page].free == [] then pages else pages[x.page := Take(pages[x.page])]
    else pages[x.page := Started(c)]
  }

  ghost function DrainedAfterAlloc(pages: Pages, drained: seq<nat>, c: nat): seq<nat> {
    if HasRoom(pages, c) || drained == [] then drained else drained[..|drained| - 1]
  }

  /** What the pool may answer to a request of class `c`. */
  ghost predicate PoolGrants(pages: Pages, drained: seq<nat>, c: nat, supply: Option<nat>, x: Slot) {
    && c < MEDIUM_FIRST
    && (supply.Some? ==> supply.value % PAGE_SIZE == 0 && supply.value !in pages && supply.value !in drained)
    && Granted(pages, drained, c, supply, x, PagesAfterAlloc(pages, c, x), DrainedAfterAlloc(pages, drained, c))
  }

  ghost function PagesAfterFree(pages: Pages, x: nat): Pages {
    var a := PageOf(x);
    if a !in pages || pages[a].cls >= MEDIUM_FIRST then pages
    else
      var i := IndexOf(pages[a].cls, x - a);
      if Live(pages[a]) == {i} then pages - {a} else pages[a := Put(pages[a], i)]
  }

  ghost function DrainedAfterFree(pages: Pages, drained: seq<nat>, x: nat): seq<nat> {
    if PageOf(x) in pages && PageOf(x) !in PagesAfterFree(pages, x) && |drained| < DRAINED_CAP then drained + [PageOf(x)]
    else drained
  }

  ghost predicate Enabled(s: State, e: Event) {
    match e
    case ServeFromBin(t, c) => At(s.held, Bin(t, c)) != []
    case FreeToBin(t, k) => k < |At(s.held, User)| && ClassAt(s.pages, At(s.held, User)[k]) < MEDIUM_FIRST
    case ChainOut(t, c) => At(s.held, Bin(t, c)) != []
    case PushBatch(t, c, cpu) => At(s.held, Chain(t, c)) != []
    case PopToChain(t, c, cpu) => At(s.held, Stack(cpu, c)) != []
    case Install(t, c) => At(s.held, Chain(t, c)) != []
    case PoolToChain(t, c, supply, x) => PoolGrants(s.pages, s.drained, c, supply, x)
    case PoolToUser(c, supply, x) => PoolGrants(s.pages, s.drained, c, supply, x)
    case BinToPool(t, c) => At(s.held, Bin(t, c)) != []
    case ChainToPool(t, c) => At(s.held, Chain(t, c)) != []
    case UserToPool(k) => k < |At(s.held, User)|
    case Sweep(kept) => Distinct(kept) && forall x :: x in kept ==> x in s.drained
  }

  /** The first `n` slots of one place move to another, in order. */
  ghost function Move(s: State, from: Place, n: nat, to: Place, front: bool): State
    requires n <= |At(s.held, from)|
  {
    var xs := At(s.held, from)[..n];
    var held := Drop(s.held, from, n);
    s.(held := if front then Prepend(held, to, xs) else Append(held, to, xs),
       where := Learn(Forget(s.where, xs), xs, to))
  }

  ghost function PoolTake(s: State, c: nat, x: Slot, to: Place): State
    requires c < MEDIUM_FIRST
  {
    var xs := [SlotAddr(x.page, c, x.index)];
    s.(pages := PagesAfterAlloc(s.pages, c, x), drained := DrainedAfterAlloc(s.pages, s.drained, c),
       held := Prepend(s.held, to, xs), where := Learn(s.where, xs, to))
  }

  ghost function PoolPut(s: State, from: Place, k: nat): State
    requires k < |At(s.held, from)|
  {
    var x := At(s.held, from)[k];
    s.(pages := PagesAfterFree(s.pages, x), drained := DrainedAfterFree(s.pages, s.drained, x),
       held := Pluck(s.held, from, k), where := Forget(s.where, [x]))
  }

  ghost function Next(s: State, e: Event): State
    requires Enabled(s, e)
  {
    match e
    case ServeFromBin(t, c) => Move(s, Bin(t, c), 1, User, true)
    case FreeToBin(t, k) =>
      var x := At(s.held, User)[k];
      var to := Bin(t, ClassAt(s.pages, x));
      s.(held := Prepend(Pluck(s.held, User, k), to, [x]), where := Learn(Forget(s.where, [x]), [x], to))
    case ChainOut(t, c) => Move(s, Bin(t, c), 1, Chain(t, c), false)
    case PushBatch(t, c, cpu) => Move(s, Chain(t, c), |At(s.held, Chain(t, c))|, Stack(cpu, c), true)
    case PopToChain(t, c, cpu) => Move(s, Stack(cpu, c), 1, Chain(t, c), false)
    case Install(t, c) => Move(s, Chain(t, c), |At(s.held, Chain(t, c))|, Bin(t, c), true)
    case PoolToChain(t, c, supply, x) => PoolTake(s, c, x, Chain(t, c))
    case PoolToUser(c, supply, x) => PoolTake(s, c, x, User)
    case BinToPool(t, c) => PoolPut(s, Bin(t, c), 0)
    case ChainToPool(t, c) => PoolPut(s, Chain(t, c), 0)
    case UserToPool(k) => PoolPut(s, User, k)
    case Sweep(kept) => s.(drained := kept)
  }

  // ---------------------------------------------------------------------
  // The invariant
  // ---------------------------------------------------------------------

  ghost predicate PoolOk(pages: Pages, drained: seq<nat>) {
    && PagesOk(pages) && Aligned(pages) && Distinct(drained)
    && (forall a :: a in drained ==> a !in pages && a % PAGE_SIZE == 0)
  }

  /** Bins, chains and stacks hold slots of their own class. */
  ghost predicate Classed(pages: Pages, where: Where) {
    forall x :: x in where && !where[x].User? ==> ClassAt(pages, x) == where[x].c
  }

  /** The slots held anywhere are exactly the slots in use. */
  ghost predicate Inv(s: State) {
    && PoolOk(s.pages, s.drained)
    && Sound(s.held, s.where)
    && (forall x :: x in s.where <==> InUse(s.pages, x))
    && Classed(s.pages, s.where)
  }

  // ---------------------------------------------------------------------
  // Steps between caches
  // ---------------------------------------------------------------------

  predicate Accepts(to: Place, from: Place) {
    to.User? || (!from.User? && to.c == from.c)
  }

  lemma MoveKeeps(s: State, from: Place, n: nat, to: Place, front: bool)
    requires Inv(s) && n <= |At(s.held, from)| && from != to && Accepts(to, from)
    ensures Inv(Move(s, from, n, to, front))
  {
    hide PoolOk, InUse, Distinct;
    var xs := At(s.held, from)[..n];
    DropSound(s.held, s.where, from, n);
    var held1, where1 := Drop(s.held, from, n), Forget(s.where, xs);
    var s' := Move(s, from, n, to, front);
    AddSound(held1, where1, to, xs, s'.held);
    hide Sound;
    forall x
      ensures x in s'.where <==> x in s.where
    {
    }
  }

  lemma FreeToBinKeeps(s: State, t: nat, k: nat)
    requires Inv(s) && Enabled(s, FreeToBin(t, k))
    ensures Inv(Next(s, FreeToBin(t, k)))
  {
    hide PoolOk, InUse;
    var x := At(s.held, User)[k];
    PluckSound(s.held, s.where, User, k);
    var held1, where1 := Pluck(s.held, User, k), Forget(s.where, [x]);
    var s' := Next(s, FreeToBin(t, k));
    AddSound(held1, where1, Bin(t, ClassAt(s.pages, x)), [x], s'.held);
    hide Sound;
    forall y
      ensures y in s'.where <==> y in s.where
    {
    }
  }

  // ---------------------------------------------------------------------
  // Steps of the pool
  // ---------------------------------------------------------------------

  lemma TakeInUse(pages: Pages, a: nat, y: nat)
    requires PagesOk(pages) && Aligned(pages) && a in pages && pages[a].free != []
    ensures var x := SlotAddr(a, pages[a].cls, pages[a].free[0]);
            && (InUse(pages[a := Take(pages[a])], y) <==> InUse(pages, y) || y == x)
            && !InUse(pages, x)
  {
    hide Capacity, SizeOf, IndexOf, DataOffset;
    var p := pages[a];
    TakeOk(p);
    SlotFound(a, p.cls, p.free[0]);
    InUseIs(pages, a, p.free[0]);
  }

  lemma StartInUse(pages: Pages, a: nat, c: nat, y: nat)
    requires PagesOk(pages) && Aligned(pages) && a !in pages && a % PAGE_SIZE == 0 && c < MEDIUM_FIRST
    ensures InUse(pages[a := Started(c)], y) <==> InUse(pages, y) || y == SlotAddr(a, c, 0)
    ensures !InUse(pages, SlotAddr(a, c, 0))
  {
    hide Capacity, SizeOf, IndexOf, Started;
    CapacityAtLeast(c);
    SlotFound(a, c, 0);
  }

  lemma PutInUse(pages: Pages, x: nat, y: nat)
    requires PagesOk(pages) && Aligned(pages) && InUse(pages, x)
    ensures InUse(PagesAfterFree(pages, x), y) <==> InUse(pages, y) && y != x
  {
    hide Capacity, SizeOf, IndexOf, Put, DataOffset;
    var a := PageOf(x);
    var p := pages[a];
    var i := IndexOf(p.cls, x - a);
    PutOk(p, i);
    PutShape(p, i);
  }

  lemma GrantDrained(pages: Pages, drained: seq<nat>, c: nat, supply: Option<nat>, x: Slot)
    requires PoolOk(pages, drained) && PoolGrants(pages, drained, c, supply, x)
    ensures Distinct(DrainedAfterAlloc(pages, drained, c)) && x.page % PAGE_SIZE == 0
    ensures forall b :: b in DrainedAfterAlloc(pages, drained, c) ==> b in drained && b != x.page
  {}

  lemma GrantPool(pages: Pages, drained: seq<nat>, c: nat, supply: Option<nat>, x: Slot)
    requires PoolOk(pages, drained) && PoolGrants(pages, drained, c, supply, x)
    ensures PoolOk(PagesAfterAlloc(pages, c, x), DrainedAfterAlloc(pages, drained, c))
    ensures forall y :: InUse(PagesAfterAlloc(pages, c, x), y) <==> InUse(pages, y) || y == SlotAddr(x.page, c, x.index)
    ensures !InUse(pages, SlotAddr(x.page, c, x.index))
    ensures forall y :: InUse(pages, y) ==> ClassAt(PagesAfterAlloc(pages, c, x), y) == ClassAt(pages, y)
    ensures ClassAt(PagesAfterAlloc(pages, c, x), SlotAddr(x.page, c, x.index)) == c
  {
    hide InUse, Started, Take, SlotAddr, LiveSlots, Distinct;
    GrantDrained(pages, drained, c, supply, x);
    var a := x.page;
    var pages' := PagesAfterAlloc(pages, c, x);
    if HasRoom(pages, c) {
      TakeLive(pages, a);
      TakeFacts(pages[a]);
      forall y
        ensures InUse(pages', y) <==> InUse(pages, y) || y == SlotAddr(a, c, x.index)
      {
        TakeInUse(pages, a, y);
      }
      TakeInUse(pages, a, 0);
      PageOfSlot(pages', a, x.index);
    } else {
      FreshLive(pages, a, c);
      forall y
        ensures InUse(pages', y) <==> InUse(pages, y) || y == SlotAddr(a, c, 0)
      {
        StartInUse(pages, a, c, y);
      }
      StartInUse(pages, a, c, 0);
      PageOfSlot(pages', a, 0);
    }
    forall y | InUse(pages, y)
      ensures ClassAt(pages', y) == ClassAt(pages, y)
    {
      UsedPage(pages, y);
    }
  }

  lemma UsedPage(pages: Pages, y: nat)
    requires InUse(pages, y)
    ensures PageOf(y) in pages && pages[PageOf(y)].cls < MEDIUM_FIRST
  {}

  lemma TakeFacts(p: Page)
    requires p.free != []
    ensures Take(p).cls == p.cls && Take(p).capacity == p.capacity
  {}

  lemma PageOfSlot(pages: Pages, a: nat, i: nat)
    requires PagesOk(pages) && Aligned(pages) && a in pages && i < pages[a].capacity
    ensures ClassAt(pages, SlotAddr(a, pages[a].cls, i)) == pages[a].cls
  {
    hide Capacity, SizeOf, IndexOf;
    SlotFound(a, pages[a].cls, i);
  }

  lemma GrantClass(pages: Pages, drained: seq<nat>, c: nat, supply: Option<nat>, x: Slot)
    requires PoolGrants(pages, drained, c, supply, x)
    ensures c < MEDIUM_FIRST
  {}

  /** What the pool's allocation promises is what the machine lets it answer. */
  lemma PoolAnswers(pages: Pages, drained: seq<nat>, c: nat, supply: Option<nat>, x: Slot, pages': Pages, drained': seq<nat>)
    requires Granted(pages, drained, c, supply, x, pages', drained')
    ensures pages' == PagesAfterAlloc(pages, c, x) && drained' == DrainedAfterAlloc(pages, drained, c)
  {}

  /** And what its free does to the pages is what the machine does for the slot's address. */
  lemma PoolTakesBack(pages: Pages, a: nat, i: nat)
    requires PagesOk(pages) && Aligned(pages) && Slot(a, i) in LiveSlots(pages)
    ensures PagesAfterFree(pages, SlotAddr(a, pages[a].cls, i))
            == if Live(pages[a]) == {i} then pages - {a} else pages[a := Put(pages[a], i)]
    ensures forall drained ::
      DrainedAfterFree(pages, drained, SlotAddr(a, pages[a].cls, i))
      == (if Live(pages[a]) == {i} && |drained| < DRAINED_CAP then drained + [a] else drained)
  {
    hide Capacity, SizeOf, IndexOf, Put;
    SlotFound(a, pages[a].cls, i);
  }

  /** A sweep of the pool, whatever the ages, is a step of the machine: it leaves the pages that stay parked. */
  lemma PoolSweeps(s: State, idle: seq<nat>, maxTicks: nat)
    requires Inv(s) && |s.drained| == |idle|
    ensures var kept := Kept(s.drained, idle, maxTicks);
            Enabled(s, Sweep(kept)) && Next(s, Sweep(kept)) == State(s.pages, kept, s.held, s.where)
  {
    hide PagesOk, Aligned, Sound, Classed, InUse;
    SweepParts(s.drained, idle, maxTicks);
  }

  lemma PoolTakeKeeps(s: State, c: nat, supply: Option<nat>, x: Slot, to: Place)
    requires Inv(s) && PoolGrants(s.pages, s.drained, c, supply, x) && (to.User? || to.c == c)
    ensures Inv(PoolTake(s, c, x, to))
  {
    hide PoolOk, InUse, PoolGrants, PagesAfterAlloc, DrainedAfterAlloc, SlotAddr;
    assert c < MEDIUM_FIRST by { GrantClass(s.pages, s.drained, c, supply, x); }
    GrantPool(s.pages, s.drained, c, supply, x);
    var addr := SlotAddr(x.page, c, x.index);
    var s' := PoolTake(s, c, x, to);
    assert addr !in s.where;
    AddSound(s.held, s.where, to, [addr], s'.held);
    hide Sound;
    assert forall y :: y in s'.where <==> y in s.where || y == addr;
  }

  lemma PutPool(pages: Pages, drained: seq<nat>, x: nat)
    requires PoolOk(pages, drained) && InUse(pages, x)
    ensures PoolOk(PagesAfterFree(pages, x), DrainedAfterFree(pages, drained, x))
    ensures forall y :: InUse(PagesAfterFree(pages, x), y) <==> InUse(pages, y) && y != x
    ensures forall y :: InUse(PagesAfterFree(pages, x), y) ==> ClassAt(PagesAfterFree(pages, x), y) == ClassAt(pages, y)
  {
    hide InUse, LiveSlots, Put, IndexOf, Live, PageOf, Distinct;
    UsedSlot(pages, x);
    var a := PageOf(x);
    var p := pages[a];
    var i := IndexOf(p.cls, x - a);
    PutLive(pages, a, i);
    LastOne(p, i);
    PutShape(p, i);
    var pages' := PagesAfterFree(pages, x);
    forall y
      ensures InUse(pages', y) <==> InUse(pages, y) && y != x
    {
      PutInUse(pages, x, y);
    }
    forall y | InUse(pages', y)
      ensures ClassAt(pages', y) == ClassAt(pages, y)
    {
      UsedPage(pages, y);
      UsedPage(pages', y);
    }
    PutDrained(pages, drained, a);
  }

  lemma UsedSlot(pages: Pages, x: nat)
    requires PagesOk(pages) && InUse(pages, x)
    ensures PageOf(x) in pages && pages[PageOf(x)].cls < MEDIUM_FIRST && PageOf(x) <= x
    ensures IndexOf(pages[PageOf(x)].cls, x - PageOf(x)) in Live(pages[PageOf(x)])
  {}

  lemma PutDrained(pages: Pages, drained: seq<nat>, a: nat)
    requires PoolOk(pages, drained) && a in pages
    ensures Distinct(drained + [a]) && a % PAGE_SIZE == 0
    ensures forall b :: b in drained + [a] ==> b !in pages - {a} && b % PAGE_SIZE == 0
  {}

  lemma PutShape(p: Page, i: nat)
    ensures Put(p, i).cls == p.cls && Put(p, i).capacity == p.capacity
  {}

  lemma PoolPutKeeps(s: State, from: Place, k: nat)
    requires Inv(s) && k < |At(s.held, from)|
    ensures Inv(PoolPut(s, from, k))
  {
    hide PoolOk, InUse, PagesAfterFree, DrainedAfterFree;
    var x := At(s.held, from)[k];
    PluckSound(s.held, s.where, from, k);
    PutPool(s.pages, s.drained, x);
    hide Sound;
    var s' := PoolPut(s, from, k);
    assert forall y :: y in s'.where <==> y in s.where && y != x;
  }

  /** Every step of the allocator keeps every slot in exactly one place. */
  lemma StepKeeps(s: State, e: Event)
    requires Inv(s) && Enabled(s, e)
    ensures Inv(Next(s, e))
  {
    hide Inv, Move, PoolTake, PoolPut, PoolGrants;
    match e
    case ServeFromBin(t, c) => MoveKeeps(s, Bin(t, c), 1, User, true);
    case FreeToBin(t, k) => FreeToBinKeeps(s, t, k);
    case ChainOut(t, c) => MoveKeeps(s, Bin(t, c), 1, Chain(t, c), false);
    case PushBatch(t, c, cpu) => MoveKeeps(s, Chain(t, c), |At(s.held, Chain(t, c))|, Stack(cpu, c), true);
    case PopToChain(t, c, cpu) => MoveKeeps(s, Stack(cpu, c), 1, Chain(t, c), false);
    case Install(t, c) => MoveKeeps(s, Chain(t, c), |At(s.held, Chain(t, c))|, Bin(t, c), true);
    case PoolToChain(t, c, supply, x) => PoolTakeKeeps(s, c, supply, x, Chain(t, c));
    case PoolToUser(c, supply, x) => PoolTakeKeeps(s, c, supply, x, User);
    case BinToPool(t, c) => PoolPutKeeps(s, Bin(t, c), 0);
    case ChainToPool(t, c) => PoolPutKeeps(s, Chain(t, c), 0);
    case UserToPool(k) => PoolPutKeeps(s, User, k);
    case Sweep(kept) => SweepKeeps(s, kept);
  }

  lemma SweepKeeps(s: State, kept: seq<nat>)
    requires Inv(s) && Enabled(s, Sweep(kept))
    ensures Inv(Next(s, Sweep(kept)))
  {}

  // ---------------------------------------------------------------------
  // Whole runs
  // ---------------------------------------------------------------------

  ghost predicate Run(s: State, es: seq<Event>)
    decreases |es|
  {
    es == [] || (Enabled(s, es[0]) && Run(Next(s, es[0]), es[1..]))
  }

  ghost function Outcome(s: State, es: seq<Event>): State
    requires Run(s, es)
    decreases |es|
  {
    if es == [] then s else Outcome(Next(s, es[0]), es[1..])
  }

  lemma {:induction false} RunKeeps(s: State, es: seq<Event>)
    requires Inv(s) && Run(s, es)
    ensures Inv(Outcome(s, es))
    decreases |es|
  {
    if es != [] {
      StepKeeps(s, es[0]);
      RunKeeps(Next(s, es[0]), es[1..]);
    }
  }

  const EMPTY: State := State(map[], [], map[], map[])

  lemma StartInv()
    ensures Inv(EMPTY)
  {}

  /** Positions of held slots: place and index. */
  ghost predicate HeldAt(s: State, p: Place, k: nat, x: nat) {
    k < |At(s.held, p)| && At(s.held, p)[k] == x
  }

  lemma OnePlace(s: State, p: Place, k: nat, q: Place, l: nat, x: nat)
    requires Inv(s) && HeldAt(s, p, k, x)
    ensures InUse(s.pages, x)
    ensures HeldAt(s, q, l, x) ==> p == q && k == l
  {
    hide InUse, PoolOk;
    assert x in At(s.held, p);
    if HeldAt(s, q, l, x) {
      assert x in At(s.held, q);
    }
  }

  lemma RunInv(es: seq<Event>)
    requires Run(EMPTY, es)
    ensures Inv(Outcome(EMPTY, es))
  {
    StartInv();
    RunKeeps(EMPTY, es);
  }

  /**
   In every run from the empty allocator: the slots in use are exactly those
   held somewhere, each at one position of one place, so nothing is handed
   out twice or lost.
   */
  lemma EverySlotInOnePlace(es: seq<Event>, p: Place, k: nat, q: Place, l: nat, x: nat)
    requires Run(EMPTY, es) && HeldAt(Outcome(EMPTY, es), p, k, x)
    ensures InUse(Outcome(EMPTY, es).pages, x)
    ensures HeldAt(Outcome(EMPTY, es), q, l, x) ==> p == q && k == l
  {
    hide Inv, Run, Outcome, InUse, HeldAt;
    RunInv(es);
    OnePlace(Outcome(EMPTY, es), p, k, q, l, x);
  }

  lemma NothingLost(es: seq<Event>, x: nat) returns (p: Place, k: nat)
    requires Run(EMPTY, es) && InUse(Outcome(EMPTY, es).pages, x)
    ensures HeldAt(Outcome(EMPTY, es), p, k, x)
  {
    RunInv(es);
    hide InUse, PoolOk, Run, Outcome;
    var s := Outcome(EMPTY, es);
    p := s.where[x];
    assert x in At(s.held, p);
    k :| 0 <= k < |At(s.held, p)| && At(s.held, p)[k] == x;
  }

  ghost predicate Apart(pages: Pages, x: nat, y: nat) {
    && ClassAt(pages, x) < MEDIUM_FIRST && ClassAt(pages, y) < MEDIUM_FIRST
    && (x + SizeOf(ClassAt(pages, x)) <= y || y + SizeOf(ClassAt(pages, y)) <= x)
  }

  lemma InUseApart(pages: Pages, x: nat, y: nat)
    requires PagesOk(pages) && Aligned(pages) && InUse(pages, x) && InUse(pages, y) && x != y
    ensures Apart(pages, x, y)
  {
    hide InUse, PagesOk, SizeOf;
    UsedPage(pages, x);
    UsedPage(pages, y);
    if x < y {
      ObjectsDisjoint(pages, x, y);
    } else {
      ObjectsDisjoint(pages, y, x);
    }
  }

  lemma UsersApart(s: State, j: nat, k: nat)
    requires Inv(s) && j < |At(s.held, User)| && k < |At(s.held, User)| && j != k
    ensures Apart(s.pages, At(s.held, User)[j], At(s.held, User)[k])
  {
    hide InUse, Apart, PagesOk, Aligned, Classed;
    var x, y := At(s.held, User)[j], At(s.held, User)[k];
    OnePlace(s, User, j, User, k, x);
    OnePlace(s, User, k, User, j, y);
    InUseApart(s.pages, x, y);
  }

  /** No two objects of the application share a byte. */
  lemma UsersNeverOverlap(es: seq<Event>, j: nat, k: nat)
    requires Run(EMPTY, es)
    requires j < |At(Outcome(EMPTY, es).held, User)| && k < |At(Outcome(EMPTY, es).held, User)| && j != k
    ensures var s := Outcome(EMPTY, es);
            Apart(s.pages, At(s.held, User)[j], At(s.held, User)[k])
  {
    hide Run, Outcome, Inv, Apart;
    RunInv(es);
    UsersApart(Outcome(EMPTY, es), j, k);
  }

  /** A request served from a bin gets a slot at least as large as it asked for. */
  lemma ServedIsLargeEnough(es: seq<Event>, t: nat, request: nat)
    requires Run(EMPTY, es) && request <= 4096
    requires At(Outcome(EMPTY, es).held, Bin(t, ClassOf(request))) != []
    ensures var s := Outcome(EMPTY, es);
            var x := At(s.held, Bin(t, ClassOf(request)))[0];
            ClassAt(s.pages, x) == ClassOf(request) < CLASSES && SizeOf(ClassOf(request)) >= request
  {
    hide SizeOf, ClassOf, Run, Outcome, InUse, PoolOk;
    RunInv(es);
    ClassIsLeast(request);
    var s := Outcome(EMPTY, es);
    var p := Bin(t, ClassOf(request));
    assert At(s.held, p)[0] in At(s.held, p);
  }

  /**
   A page leaves the pool only in the step that frees its last slot in use:
   no other slot of the page is held by the application or cached anywhere.
   */
  lemma PageReleasedWhenUnheld(s: State, e: Event, a: nat)
    requires Inv(s) && Enabled(s, e) && a in s.pages && a !in Next(s, e).pages
    ensures e.BinToPool? || e.ChainToPool? || e.UserToPool?
    ensures forall p, k, x :: HeldAt(Next(s, e), p, k, x) ==> PageOf(x) != a
  {
    hide Enabled, InUse, Sound, PoolOk, Classed;
    StepKeeps(s, e);
    var s' := Next(s, e);
    forall p, k, x | HeldAt(s', p, k, x)
      ensures PageOf(x) != a
    {
      OnePlace(s', p, k, p, k, x);
      UsedPage(s'.pages, x);
    }
  }
}
