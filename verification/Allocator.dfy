/**
 The dispatcher on top of the lock-free stacks, word by word. Bins and chains
 are lists threaded through the first words of the slots, the per-core stacks
 are the packed head words of the core cache, and the steps of any number of
 threads interleave at the level of single loads, stores and exchanges.

 Every slot belongs to one party at a time: a thread whose bin or chain holds
 it, the application, or the pool; or to nobody while it is on a stack.
 */
module Allocator {
  import opened Basics
  import opened SlotLists
  import opened SizeClass
  import opened Slab
  import opened SlabPool
  import CC = CoreCache
  import D = Dispatch

  const CORES: nat := 4096

  // ---------------------------------------------------------------------
  // Which party owns which slot
  // ---------------------------------------------------------------------

  /** Threads are parties 0 to n - 1; then come the application and the pool. */
  function Application(n: nat): nat {
    n
  }

  function ThePool(n: nat): nat {
    n + 1
  }

  function Nobody(n: nat): nat {
    n + 2
  }

  function PlaceOf(where: D.Where, x: nat): Option<D.Place> {
    if x in where then Some(where[x]) else None
  }

  function PartyOf(p: Option<D.Place>, n: nat): nat {
    match p
    case None => ThePool(n)
    case Some(User) => Application(n)
    case Some(Bin(t, c)) => t
    case Some(Chain(t, c)) => t
    case Some(Stack(cpu, c)) => Nobody(n)
  }

  /** The stack of a class on a core, in the order of the core-cache table. */
  function Ix(cpu: nat, c: nat): nat {
    cpu * CLASSES + c
  }

  ghost predicate StacksAgree(held: D.Held, stacks: seq<seq<nat>>) {
    && |stacks| == CORES * CLASSES
    && (forall cpu, c :: 0 <= cpu < CORES && 0 <= c < CLASSES ==> stacks[Ix(cpu, c)] == D.At(held, D.Stack(cpu, c)))
  }

  ghost predicate OwnersAgree(where: D.Where, owned: seq<set<nat>>, n: nat) {
    && |owned| == n + 2
    && (forall q, x :: 0 <= q < n + 2 ==> (x in owned[q] <==> CC.GoodAddr(x) && PartyOf(PlaceOf(where, x), n) == q))
  }

  predicate RealPlace(p: D.Place, n: nat) {
    match p
    case User => true
    case Bin(t, c) => t < n
    case Chain(t, c) => t < n
    case Stack(cpu, c) => cpu < CORES && c < CLASSES
  }

  ghost predicate Placed(where: D.Where, n: nat) {
    forall x :: x in where ==> CC.GoodAddr(x) && RealPlace(where[x], n)
  }

  /**
   All stacks and all parties together: the core cache's stacks are those of
   the dispatcher, the slots of bins and chains belong to their threads,
   those handed out to the application, and every other address to the pool.
   */
  ghost predicate Related(d: D.State, a: CC.Abs, n: nat) {
    && StacksAgree(d.held, a.stacks)
    && OwnersAgree(d.where, a.owned, n)
    && Placed(d.where, n)
  }

  // ---------------------------------------------------------------------
  // Every step of the dispatcher moves slots between two places
  // ---------------------------------------------------------------------

  /** `None` stands for the pages of the pool. */
  datatype Transfer = Transfer(xs: seq<nat>, from: Option<D.Place>, to: Option<D.Place>)

  ghost function TransferOf(d: D.State, e: D.Event): Transfer
    requires D.Enabled(d, e)
  {
    match e
    case ServeFromBin(t, c) => Transfer([D.At(d.held, D.Bin(t, c))[0]], Some(D.Bin(t, c)), Some(D.User))
    case FreeToBin(t, k) =>
      var x := D.At(d.held, D.User)[k];
      Transfer([x], Some(D.User), Some(D.Bin(t, D.ClassAt(d.pages, x))))
    case ChainOut(t, c) => Transfer([D.At(d.held, D.Bin(t, c))[0]], Some(D.Bin(t, c)), Some(D.Chain(t, c)))
    case PushBatch(t, c, cpu) => Transfer(D.At(d.held, D.Chain(t, c)), Some(D.Chain(t, c)), Some(D.Stack(cpu, c)))
    case PopToChain(t, c, cpu) => Transfer([D.At(d.held, D.Stack(cpu, c))[0]], Some(D.Stack(cpu, c)), Some(D.Chain(t, c)))
    case Install(t, c) => Transfer(D.At(d.held, D.Chain(t, c)), Some(D.Chain(t, c)), Some(D.Bin(t, c)))
    case PoolToChain(t, c, supply, x) => Transfer([D.SlotAddr(x.page, c, x.index)], None, Some(D.Chain(t, c)))
    case PoolToUser(c, supply, x) => Transfer([D.SlotAddr(x.page, c, x.index)], None, Some(D.User))
    case BinToPool(t, c) => Transfer([D.At(d.held, D.Bin(t, c))[0]], Some(D.Bin(t, c)), None)
    case ChainToPool(t, c) => Transfer([D.At(d.held, D.Chain(t, c))[0]], Some(D.Chain(t, c)), None)
    case UserToPool(k) => Transfer([D.At(d.held, D.User)[k]], Some(D.User), None)
    case Sweep(kept) => Transfer([], None, None)
  }

  /** The slots named go from the one place to the other, and nothing else changes place. */
  ghost predicate Carries(d: D.State, tr: Transfer, d': D.State) {
    && Distinct(tr.xs)
    && (forall x :: x in tr.xs ==> PlaceOf(d.where, x) == tr.from && PlaceOf(d'.where, x) == tr.to)
    && (forall x :: x !in tr.xs ==> PlaceOf(d'.where, x) == PlaceOf(d.where, x))
    && (forall p :: Some(p) != tr.from && Some(p) != tr.to ==> D.At(d'.held, p) == D.At(d.held, p))
  }

  lemma MoveCarries(d: D.State, from: D.Place, k: nat, to: D.Place, front: bool)
    requires D.Sound(d.held, d.where) && k <= |D.At(d.held, from)| && from != to
    ensures Carries(d, Transfer(D.At(d.held, from)[..k], Some(from), Some(to)), D.Move(d, from, k, to, front))
  {
    D.DropSound(d.held, d.where, from, k);
  }

  lemma PutCarries(d: D.State, from: D.Place, k: nat)
    requires D.Sound(d.held, d.where) && k < |D.At(d.held, from)|
    ensures Carries(d, Transfer([D.At(d.held, from)[k]], Some(from), None), D.PoolPut(d, from, k))
  {
    hide D.PagesAfterFree, D.DrainedAfterFree;
    D.PluckSound(d.held, d.where, from, k);
  }

  lemma TakeCarries(d: D.State, c: nat, supply: Option<nat>, x: Slot, to: D.Place)
    requires D.Inv(d) && D.PoolGrants(d.pages, d.drained, c, supply, x)
    ensures c < MEDIUM_FIRST
    ensures Carries(d, Transfer([D.SlotAddr(x.page, c, x.index)], None, Some(to)), D.PoolTake(d, c, x, to))
    ensures D.InUse(D.PagesAfterAlloc(d.pages, c, x), D.SlotAddr(x.page, c, x.index))
  {
    hide D.PoolOk, D.InUse, D.PoolGrants, D.PagesAfterAlloc, D.DrainedAfterAlloc, D.SlotAddr;
    D.GrantClass(d.pages, d.drained, c, supply, x);
    D.GrantPool(d.pages, d.drained, c, supply, x);
  }

  lemma FreeCarries(d: D.State, t: nat, k: nat)
    requires D.Sound(d.held, d.where) && D.Enabled(d, D.FreeToBin(t, k))
    ensures Carries(d, TransferOf(d, D.FreeToBin(t, k)), D.Next(d, D.FreeToBin(t, k)))
  {
    D.PluckSound(d.held, d.where, D.User, k);
  }

  lemma FirstOne(xs: seq<nat>)
    ensures xs != [] ==> xs[..1] == [xs[0]]
    ensures xs[..|xs|] == xs
  {}

  lemma StepCarries(d: D.State, e: D.Event)
    requires D.Inv(d) && D.Enabled(d, e)
    ensures Carries(d, TransferOf(d, e), D.Next(d, e))
  {
    hide Carries, D.Sound, D.PoolOk, D.Classed, D.InUse, D.PoolGrants, D.Move, D.PoolPut, D.PoolTake, D.SlotAddr;
    match e
    case ServeFromBin(t, c) =>
      FirstOne(D.At(d.held, D.Bin(t, c)));
      MoveCarries(d, D.Bin(t, c), 1, D.User, true);
    case FreeToBin(t, k) => FreeCarries(d, t, k);
    case ChainOut(t, c) =>
      FirstOne(D.At(d.held, D.Bin(t, c)));
      MoveCarries(d, D.Bin(t, c), 1, D.Chain(t, c), false);
    case PushBatch(t, c, cpu) =>
      FirstOne(D.At(d.held, D.Chain(t, c)));
      MoveCarries(d, D.Chain(t, c), |D.At(d.held, D.Chain(t, c))|, D.Stack(cpu, c), true);
    case PopToChain(t, c, cpu) =>
      FirstOne(D.At(d.held, D.Stack(cpu, c)));
      MoveCarries(d, D.Stack(cpu, c), 1, D.Chain(t, c), false);
    case Install(t, c) =>
      FirstOne(D.At(d.held, D.Chain(t, c)));
      MoveCarries(d, D.Chain(t, c), |D.At(d.held, D.Chain(t, c))|, D.Bin(t, c), true);
    case PoolToChain(t, c, supply, x) => TakeCarries(d, c, supply, x, D.Chain(t, c));
    case PoolToUser(c, supply, x) => TakeCarries(d, c, supply, x, D.User);
    case BinToPool(t, c) => PutCarries(d, D.Bin(t, c), 0);
    case ChainToPool(t, c) => PutCarries(d, D.Chain(t, c), 0);
    case UserToPool(k) => PutCarries(d, D.User, k);
    case Sweep(kept) => SweepCarries(d, kept);
  }

  lemma SweepCarries(d: D.State, kept: seq<nat>)
    requires D.Enabled(d, D.Sweep(kept))
    ensures Carries(d, Transfer([], None, None), D.Next(d, D.Sweep(kept)))
  {}

  // ---------------------------------------------------------------------
  // And every such transfer is an action the core cache allows
  // ---------------------------------------------------------------------

  /** What the core cache sees of a transfer. */
  function ActionOf(tr: Transfer, n: nat): CC.Action {
    var q, r := PartyOf(tr.from, n), PartyOf(tr.to, n);
    if tr.xs == [] || q == r then CC.Silent
    else
      match (tr.from, tr.to)
      case (_, Some(Stack(cpu, c))) => CC.Pushes(q, Ix(cpu, c), tr.xs)
      case (Some(Stack(cpu, c)), _) => CC.Pops(r, Ix(cpu, c), tr.xs[0])
      case _ => CC.Gives(q, r, tr.xs[0])
  }

  ghost predicate RealTransfer(tr: Transfer, n: nat) {
    && (tr.from.Some? ==> RealPlace(tr.from.value, n))
    && (tr.to.Some? ==> RealPlace(tr.to.value, n))
    && (forall x :: x in tr.xs ==> CC.GoodAddr(x))
  }

  lemma OwnersFollow(d: D.State, tr: Transfer, d': D.State, owned: seq<set<nat>>, owned': seq<set<nat>>, n: nat)
    requires Carries(d, tr, d') && RealTransfer(tr, n) && OwnersAgree(d.where, owned, n) && |owned'| == n + 2
    requires forall q, x :: 0 <= q < n + 2 ==>
      (x in owned'[q] <==> if x in tr.xs then q == PartyOf(tr.to, n) else x in owned[q])
    ensures OwnersAgree(d'.where, owned', n)
  {
    forall q, x | 0 <= q < n + 2
      ensures x in owned'[q] <==> CC.GoodAddr(x) && PartyOf(PlaceOf(d'.where, x), n) == q
    {
      if x in tr.xs {
        assert PlaceOf(d'.where, x) == tr.to;
      } else {
        assert PlaceOf(d'.where, x) == PlaceOf(d.where, x);
        assert x in owned[q] <==> CC.GoodAddr(x) && PartyOf(PlaceOf(d.where, x), n) == q;
      }
    }
  }

  lemma PlacesFollow(d: D.State, tr: Transfer, d': D.State, n: nat)
    requires Carries(d, tr, d') && RealTransfer(tr, n) && Placed(d.where, n)
    ensures Placed(d'.where, n)
  {
    forall x | x in d'.where
      ensures CC.GoodAddr(x) && RealPlace(d'.where[x], n)
    {
      assert x in tr.xs ==> PlaceOf(d'.where, x) == tr.to;
      assert x !in tr.xs ==> PlaceOf(d'.where, x) == PlaceOf(d.where, x);
    }
  }

  /** What the owners must become for the parties to follow the slots. */
  ghost predicate Reowned(tr: Transfer, owned: seq<set<nat>>, owned': seq<set<nat>>, n: nat) {
    && |owned| == |owned'| == n + 2
    && (forall q, x :: 0 <= q < n + 2 ==>
          (x in owned'[q] <==> if x in tr.xs then q == PartyOf(tr.to, n) else x in owned[q]))
  }

  lemma OwnedBy(d: D.State, tr: Transfer, d': D.State, a: CC.Abs, n: nat)
    requires Carries(d, tr, d') && RealTransfer(tr, n) && OwnersAgree(d.where, a.owned, n)
    ensures forall q, x :: 0 <= q < n + 2 && x in tr.xs ==> (x in a.owned[q] <==> q == PartyOf(tr.from, n))
  {}

  /** Handing over one slot, or none. */
  lemma GiveReowns(d: D.State, tr: Transfer, d': D.State, a: CC.Abs, n: nat)
    requires Carries(d, tr, d') && RealTransfer(tr, n) && OwnersAgree(d.where, a.owned, n)
    requires (tr.from.Some? ==> !tr.from.value.Stack?) && (tr.to.Some? ==> !tr.to.value.Stack?)
    requires |tr.xs| <= 1 || PartyOf(tr.from, n) == PartyOf(tr.to, n)
    ensures CC.Legal(a, ActionOf(tr, n)) && Reowned(tr, a.owned, CC.Apply(a, ActionOf(tr, n)).owned, n)
    ensures CC.Apply(a, ActionOf(tr, n)).stacks == a.stacks
  {
    OwnedBy(d, tr, d', a, n);
    assert |a.owned| == n + 2;
    hide Carries, OwnersAgree;
    var q, r := PartyOf(tr.from, n), PartyOf(tr.to, n);
    if tr.xs != [] && q != r {
      assert tr.xs == [tr.xs[0]];
      assert tr.xs[0] in tr.xs && tr.xs[0] in a.owned[q];
      assert ActionOf(tr, n) == CC.Gives(q, r, tr.xs[0]);
    }
  }

  lemma PushReowns(d: D.State, tr: Transfer, d': D.State, a: CC.Abs, n: nat, t: nat, c: nat, cpu: nat)
    requires Carries(d, tr, d') && RealTransfer(tr, n) && Related(d, a, n) && |a.done| == |a.stacks|
    requires tr.xs != [] && tr.from == Some(D.Chain(t, c)) && tr.to == Some(D.Stack(cpu, c))
    ensures ActionOf(tr, n) == CC.Pushes(t, Ix(cpu, c), tr.xs) && CC.Legal(a, ActionOf(tr, n))
    ensures Reowned(tr, a.owned, CC.Apply(a, ActionOf(tr, n)).owned, n)
  {
    OwnedBy(d, tr, d', a, n);
    assert forall k :: 0 <= k < |tr.xs| ==> tr.xs[k] in tr.xs;
  }

  lemma PopReowns(d: D.State, tr: Transfer, d': D.State, a: CC.Abs, n: nat, t: nat, c: nat, cpu: nat)
    requires Carries(d, tr, d') && RealTransfer(tr, n) && Related(d, a, n) && |a.done| == |a.stacks|
    requires D.At(d.held, D.Stack(cpu, c)) != [] && tr.xs == [D.At(d.held, D.Stack(cpu, c))[0]]
    requires tr.from == Some(D.Stack(cpu, c)) && tr.to == Some(D.Chain(t, c))
    ensures ActionOf(tr, n) == CC.Pops(t, Ix(cpu, c), tr.xs[0]) && CC.Legal(a, ActionOf(tr, n))
    ensures Reowned(tr, a.owned, CC.Apply(a, ActionOf(tr, n)).owned, n)
  {
    OwnedBy(d, tr, d', a, n);
  }

  /** Stacks other than the one touched keep their slots. */
  lemma StacksFollow(d: D.State, tr: Transfer, d': D.State, stacks: seq<seq<nat>>, stacks': seq<seq<nat>>, p: D.Place)
    requires Carries(d, tr, d') && StacksAgree(d.held, stacks)
    requires p.Stack? ==> p.cpu < CORES && p.c < CLASSES
    requires (tr.from.Some? && tr.from.value.Stack? ==> tr.from.value == p)
    requires (tr.to.Some? && tr.to.value.Stack? ==> tr.to.value == p)
    requires stacks' == if p.Stack? then stacks[Ix(p.cpu, p.c) := D.At(d'.held, p)] else stacks
    ensures StacksAgree(d'.held, stacks')
  {
    forall cpu, c | 0 <= cpu < CORES && 0 <= c < CLASSES
      ensures stacks'[Ix(cpu, c)] == D.At(d'.held, D.Stack(cpu, c))
    {
      var q := D.Stack(cpu, c);
      if q != p {
        assert D.At(d'.held, q) == D.At(d.held, q);
        assert p.Stack? ==> Ix(p.cpu, p.c) != Ix(cpu, c);
      }
    }
  }

  lemma OtherEvents(d: D.State, e: D.Event, n: nat)
    requires D.Enabled(d, e) && !e.PushBatch? && !e.PopToChain?
    ensures var tr := TransferOf(d, e);
            && (tr.from.Some? ==> !tr.from.value.Stack?) && (tr.to.Some? ==> !tr.to.value.Stack?)
            && (|tr.xs| <= 1 || PartyOf(tr.from, n) == PartyOf(tr.to, n))
  {
    hide D.PoolGrants;
  }

  lemma StackAfter(d: D.State, e: D.Event)
    requires D.Enabled(d, e)
    ensures e.PushBatch? ==>
      D.At(D.Next(d, e).held, D.Stack(e.cpu, e.c)) == D.At(d.held, D.Chain(e.t, e.c)) + D.At(d.held, D.Stack(e.cpu, e.c))
    ensures e.PopToChain? ==>
      D.At(D.Next(d, e).held, D.Stack(e.cpu, e.c)) == D.At(d.held, D.Stack(e.cpu, e.c))[1..]
  {
    hide D.PoolGrants, D.PoolTake, D.PoolPut;
    if e.PushBatch? {
      FirstOne(D.At(d.held, D.Chain(e.t, e.c)));
    }
  }

  /**
   Every event of the dispatcher is an action that the core cache's sequential
   stacks and owners allow, and the relation over all stacks and all parties
   holds again afterwards.
   */
  lemma EventIsLegal(d: D.State, e: D.Event, a: CC.Abs, n: nat)
    requires D.Inv(d) && D.Enabled(d, e) && RealTransfer(TransferOf(d, e), n)
    requires Related(d, a, n) && |a.done| == |a.stacks|
    ensures var x := ActionOf(TransferOf(d, e), n);
            CC.Legal(a, x) && Related(D.Next(d, e), CC.Apply(a, x), n)
  {
    hide D.Inv, Carries, StacksAgree, OwnersAgree, Placed, Reowned, D.Enabled, D.Next, CC.Legal, CC.Apply, ActionOf, RealTransfer;
    var tr, d' := TransferOf(d, e), D.Next(d, e);
    StepCarries(d, e);
    StackAfter(d, e);
    var x := ActionOf(tr, n);
    if e.PushBatch? {
      assert tr.xs != [] by { EventHas(d, e); }
      PushReowns(d, tr, d', a, n, e.t, e.c, e.cpu);
      EventStacks(d, e, a, n);
      StacksFollow(d, tr, d', a.stacks, CC.Apply(a, x).stacks, D.Stack(e.cpu, e.c));
    } else if e.PopToChain? {
      EventHas(d, e);
      PopReowns(d, tr, d', a, n, e.t, e.c, e.cpu);
      EventStacks(d, e, a, n);
      StacksFollow(d, tr, d', a.stacks, CC.Apply(a, x).stacks, D.Stack(e.cpu, e.c));
    } else {
      OtherEvents(d, e, n);
      GiveReowns(d, tr, d', a, n);
      StacksFollow(d, tr, d', a.stacks, a.stacks, D.User);
    }
    ReownedAgree(d, tr, d', a.owned, CC.Apply(a, x).owned, n);
    PlacesFollow(d, tr, d', n);
  }

  lemma EventHas(d: D.State, e: D.Event)
    requires D.Enabled(d, e)
    ensures e.PushBatch? ==> D.At(d.held, D.Chain(e.t, e.c)) != []
    ensures e.PopToChain? ==> D.At(d.held, D.Stack(e.cpu, e.c)) != []
  {
    hide D.PoolGrants;
  }

  lemma ReownedAgree(d: D.State, tr: Transfer, d': D.State, owned: seq<set<nat>>, owned': seq<set<nat>>, n: nat)
    requires Carries(d, tr, d') && RealTransfer(tr, n) && OwnersAgree(d.where, owned, n) && Reowned(tr, owned, owned', n)
    ensures OwnersAgree(d'.where, owned', n)
  {
    OwnersFollow(d, tr, d', owned, owned', n);
  }

  /** The stack the core cache is left with is the dispatcher's. */
  lemma EventStacks(d: D.State, e: D.Event, a: CC.Abs, n: nat)
    requires D.Enabled(d, e) && (e.PushBatch? || e.PopToChain?) && StacksAgree(d.held, a.stacks)
    requires RealTransfer(TransferOf(d, e), n) && CC.Legal(a, ActionOf(TransferOf(d, e), n))
    ensures e.cpu < CORES && e.c < CLASSES && Ix(e.cpu, e.c) < |a.stacks|
    ensures CC.Apply(a, ActionOf(TransferOf(d, e), n)).stacks
            == a.stacks[Ix(e.cpu, e.c) := D.At(D.Next(d, e).held, D.Stack(e.cpu, e.c))]
  {
    hide D.PoolGrants, D.PoolTake, D.PoolPut, D.Next;
    StackAfter(d, e);
    assert a.stacks[Ix(e.cpu, e.c)] == D.At(d.held, D.Stack(e.cpu, e.c));
  }

  // ---------------------------------------------------------------------
  // Lists threaded through the slots
  // ---------------------------------------------------------------------

  type Heads = map<D.Place, nat>
  type Phases = map<D.Place, CC.Phase>

  function HeadAt(bins: Heads, p: D.Place): nat {
    if p in bins then bins[p] else 0
  }

  function PhaseAt(phases: Phases, p: D.Place): CC.Phase {
    if p in phases then phases[p] else CC.Open
  }

  ghost predicate PlaceOk(mem: Memory, bins: Heads, phases: Phases, held: D.Held, p: D.Place) {
    match p
    case Bin(t, c) => Threaded(mem, HeadAt(bins, p), D.At(held, p))
    case Chain(t, c) => CC.Chained(mem, D.At(held, p), PhaseAt(phases, p))
    case _ => true
  }

  lemma ExtendChain(mem: Memory, chain: seq<nat>, phase: CC.Phase, x: nat)
    requires CC.Chained(mem, chain, phase) && !phase.Pending? && Distinct(chain) && x !in chain
    ensures chain != [] ==> CC.Chained(mem[Tail(chain) := x], chain + [x], CC.Open)
    ensures chain != [] ==> CC.Chained(mem, chain + [x], CC.Pending)
    ensures chain == [] ==> CC.Chained(mem, chain + [x], CC.Open)
  {
    assert (chain + [x])[..|chain|] == chain;
  }

  lemma LinkChain(mem: Memory, chain: seq<nat>)
    requires CC.Chained(mem, chain, CC.Pending) && Distinct(chain)
    ensures CC.Chained(mem[chain[|chain| - 2] := Tail(chain)], chain, CC.Open)
  {}

  lemma TailWritten(mem: Memory, chain: seq<nat>, phase: CC.Phase, v: nat)
    requires CC.Chained(mem, chain, phase) && !phase.Pending? && chain != [] && Distinct(chain)
    ensures CC.Chained(mem[Tail(chain) := v], chain, CC.Open)
    ensures v == 0 ==> CC.Chained(mem[Tail(chain) := v], chain, CC.Closed)
  {}

  lemma PrependChain(mem: Memory, chain: seq<nat>, phase: CC.Phase, x: nat)
    requires CC.Chained(mem, chain, phase) && !phase.Pending? && x !in chain
    ensures CC.Chained(mem[x := First(chain)], [x] + chain, if chain == [] then CC.Closed else phase)
  {}

  lemma ShortenChain(mem: Memory, chain: seq<nat>, phase: CC.Phase)
    requires CC.Chained(mem, chain, phase) && !phase.Pending? && chain != []
    ensures CC.Chained(mem, chain[1..], phase)
  {}

  /** A place none of whose slots, words or heads changed. */
  lemma SamePlace(mem: Memory, bins: Heads, phases: Phases, held: D.Held, mem': Memory, bins': Heads, phases': Phases, held': D.Held, p: D.Place)
    requires PlaceOk(mem, bins, phases, held, p)
    requires D.At(held', p) == D.At(held, p) && HeadAt(bins', p) == HeadAt(bins, p) && PhaseAt(phases', p) == PhaseAt(phases, p)
    requires forall x :: x in D.At(held, p) ==> Word(mem', x) == Word(mem, x)
    ensures PlaceOk(mem', bins', phases', held', p)
  {
    var xs := D.At(held, p);
    assert forall k :: 0 <= k < |xs| ==> xs[k] in xs;
  }

  // ---------------------------------------------------------------------
  // The machine
  // ---------------------------------------------------------------------

  /**
   Words and threads, the heads of the bins, how far each chain is linked,
   and what the dispatcher means by all of it.
   */
  datatype World = World(cc: CC.State, bins: Heads, phases: Phases, d: D.State)

  datatype Event =
    | Core(step: CC.Event)                    // a step inside a push or a pop
    | LinkNewest(t: nat, c: nat)              // the store that appends a popped node
    | Close(t: nat, c: nat)                   // NULL into the last node of a chain
    | Scribble(party: nat, x: nat, v: nat)    // the application or the pool writes to what it owns
    | Local(event: D.Event)                   // anything else the dispatcher does

  predicate InSpace(supply: Option<nat>) {
    supply.Some? ==> supply.value + PAGE_SIZE <= CC.PTR_SPACE
  }

  function ChainFor(t: nat, stack: nat): D.Place {
    D.Chain(t, stack % CLASSES)
  }

  predicate ThreadIdle(w: World, t: nat, n: nat) {
    t < n && t < |w.cc.locals| && w.cc.locals[t].Idle?
  }

  /** What a thread may do next inside a push or a pop. */
  predicate CoreEnabled(w: World, e: CC.Event, n: nat) {
    && e.t < n && CC.Enabled(w.cc, e)
    && match e
       case BeginPush(t, i, chain) =>
         chain == D.At(w.d.held, ChainFor(t, i)) && !PhaseAt(w.phases, ChainFor(t, i)).Pending?
       case BeginPop(t, i) => !PhaseAt(w.phases, ChainFor(t, i)).Pending?
       case Write(_, _, _) => false
       case Give(_, _, _) => false
       case _ => true
  }

  ghost predicate LocalEnabled(w: World, e: D.Event, n: nat) {
    && D.Enabled(w.d, e)
    && match e
       case ServeFromBin(t, c) => ThreadIdle(w, t, n)
       case FreeToBin(t, k) => ThreadIdle(w, t, n)
       case ChainOut(t, c) => ThreadIdle(w, t, n) && !PhaseAt(w.phases, D.Chain(t, c)).Pending?
       case PushBatch(t, c, cpu) => false
       case PopToChain(t, c, cpu) => false
       case Install(t, c) => ThreadIdle(w, t, n) && !PhaseAt(w.phases, D.Chain(t, c)).Pending?
       case PoolToChain(t, c, supply, x) =>
         ThreadIdle(w, t, n) && !PhaseAt(w.phases, D.Chain(t, c)).Pending? && InSpace(supply)
       case PoolToUser(c, supply, x) => InSpace(supply)
       case BinToPool(t, c) => ThreadIdle(w, t, n)
       case ChainToPool(t, c) => ThreadIdle(w, t, n) && PhaseAt(w.phases, D.Chain(t, c)).Closed?
       case UserToPool(k) => true
       case Sweep(kept) => true
  }

  ghost predicate Enabled(w: World, e: Event, n: nat) {
    match e
    case Core(x) => CoreEnabled(w, x, n)
    case LinkNewest(t, c) =>
      ThreadIdle(w, t, n) && PhaseAt(w.phases, D.Chain(t, c)).Pending? && |D.At(w.d.held, D.Chain(t, c))| >= 2
    case Close(t, c) =>
      ThreadIdle(w, t, n) && PhaseAt(w.phases, D.Chain(t, c)).Open? && D.At(w.d.held, D.Chain(t, c)) != []
    case Scribble(q, x, v) =>
      || (q == Application(n) && x in D.At(w.d.held, D.User))
      || (q == ThePool(n) && CC.GoodAddr(x) && x !in w.d.where)
    case Local(x) => LocalEnabled(w, x, n)
  }

  /** The loads, stores, exchanges and handovers an event consists of. */
  ghost function Trace(w: World, e: Event, n: nat): seq<CC.Event>
    requires Enabled(w, e, n)
  {
    match e
    case Core(x) => [x]
    case LinkNewest(t, c) =>
      var chain := D.At(w.d.held, D.Chain(t, c));
      [CC.Write(t, chain[|chain| - 2], Tail(chain))]
    case Close(t, c) => [CC.Write(t, Tail(D.At(w.d.held, D.Chain(t, c))), 0)]
    case Scribble(q, x, v) => [CC.Write(q, x, v)]
    case Local(x) => LocalTrace(w, x, n)
  }

  ghost function LocalTrace(w: World, e: D.Event, n: nat): seq<CC.Event>
    requires LocalEnabled(w, e, n)
  {
    var held := w.d.held;
    match e
    case ServeFromBin(t, c) => [CC.Give(t, Application(n), HeadAt(w.bins, D.Bin(t, c)))]
    case FreeToBin(t, k) =>
      var x := D.At(held, D.User)[k];
      [CC.Give(Application(n), t, x), CC.Write(t, x, HeadAt(w.bins, D.Bin(t, D.ClassAt(w.d.pages, x))))]
    case ChainOut(t, c) =>
      var chain := D.At(held, D.Chain(t, c));
      if chain == [] then [] else [CC.Write(t, Tail(chain), HeadAt(w.bins, D.Bin(t, c)))]
    case Install(t, c) => [CC.Write(t, Tail(D.At(held, D.Chain(t, c))), HeadAt(w.bins, D.Bin(t, c)))]
    case PoolToChain(t, c, supply, x) =>
      var addr := D.SlotAddr(x.page, c, x.index);
      [CC.Give(ThePool(n), t, addr), CC.Write(t, addr, First(D.At(held, D.Chain(t, c))))]
    case PoolToUser(c, supply, x) => [CC.Give(ThePool(n), Application(n), D.SlotAddr(x.page, c, x.index))]
    case BinToPool(t, c) => [CC.Give(t, ThePool(n), HeadAt(w.bins, D.Bin(t, c)))]
    case ChainToPool(t, c) => [CC.Give(t, ThePool(n), D.At(held, D.Chain(t, c))[0])]
    case UserToPool(k) => [CC.Give(Application(n), ThePool(n), D.At(held, D.User)[k])]
    case Sweep(kept) => []
  }

  /** What the event is to the dispatcher: an exchange that succeeds moves the chain or the node. */
  ghost function Meaning(w: World, e: Event, n: nat): Option<D.Event>
    requires Enabled(w, e, n)
  {
    match e
    case Core(x) =>
      if !x.Exchange? then None
      else
        var i := w.cc.locals[x.t].op.stack;
        if w.cc.locals[x.t].op.Push? then Some(D.PushBatch(x.t, i % CLASSES, i / CLASSES))
        else Some(D.PopToChain(x.t, i % CLASSES, i / CLASSES))
    case Local(x) => Some(x)
    case _ => None
  }

  ghost function BinsAfter(w: World, e: Event, n: nat): Heads
    requires Enabled(w, e, n)
  {
    var bins := w.bins;
    match e
    case Local(ServeFromBin(t, c)) => bins[D.Bin(t, c) := Word(w.cc.mem, HeadAt(bins, D.Bin(t, c)))]
    case Local(BinToPool(t, c)) => bins[D.Bin(t, c) := Word(w.cc.mem, HeadAt(bins, D.Bin(t, c)))]
    case Local(ChainOut(t, c)) => bins[D.Bin(t, c) := Word(w.cc.mem, HeadAt(bins, D.Bin(t, c)))]
    case Local(FreeToBin(t, k)) =>
      var x := D.At(w.d.held, D.User)[k];
      bins[D.Bin(t, D.ClassAt(w.d.pages, x)) := x]
    case Local(Install(t, c)) => bins[D.Bin(t, c) := D.At(w.d.held, D.Chain(t, c))[0]]
    case _ => bins
  }

  ghost function PhasesAfter(w: World, e: Event, n: nat): Phases
    requires Enabled(w, e, n)
  {
    var phases, held := w.phases, w.d.held;
    match e
    case Core(BeginPush(t, i, chain)) => phases[ChainFor(t, i) := CC.Open]
    case Core(Exchange(t)) =>
      var p := ChainFor(t, w.cc.locals[t].op.stack);
      phases[p := if w.cc.locals[t].op.Push? || D.At(held, p) == [] then CC.Open else CC.Pending]
    case LinkNewest(t, c) => phases[D.Chain(t, c) := CC.Open]
    case Close(t, c) => phases[D.Chain(t, c) := CC.Closed]
    case Local(ChainOut(t, c)) => phases[D.Chain(t, c) := CC.Open]
    case Local(Install(t, c)) => phases[D.Chain(t, c) := CC.Open]
    case Local(PoolToChain(t, c, supply, x)) => if D.At(held, D.Chain(t, c)) == [] then phases[D.Chain(t, c) := CC.Closed] else phases
    case _ => phases
  }

  /** The dispatcher's event is possible whenever the machine takes the step, see `MeaningEnabled`. */
  ghost function MeantAfter(w: World, e: Event, n: nat): D.State
    requires Enabled(w, e, n)
  {
    var m := Meaning(w, e, n);
    if m.Some? && D.Enabled(w.d, m.value) then D.Next(w.d, m.value) else w.d
  }

  ghost function Next(w: World, e: Event, n: nat): World
    requires Enabled(w, e, n)
  {
    World(CC.Outcome(w.cc, Trace(w, e, n)), BinsAfter(w, e, n), PhasesAfter(w, e, n), MeantAfter(w, e, n))
  }

  ghost function AbsAfter(w: World, a: CC.Abs, e: Event, n: nat): CC.Abs
    requires Enabled(w, e, n)
  {
    CC.Replay(a, CC.History(w.cc, Trace(w, e, n)))
  }

  // ---------------------------------------------------------------------
  // The invariant
  // ---------------------------------------------------------------------

  ghost predicate WordsOk(w: World) {
    forall p :: PlaceOk(w.cc.mem, w.bins, w.phases, w.d.held, p)
  }

  /** A thread inside a push holds its chain still; one inside a pop has nothing left to link. */
  ghost predicate BusyOk(w: World, t: nat)
    requires t < |w.cc.locals|
  {
    var l := w.cc.locals[t];
    !l.Idle? ==>
      && l.op.stack < CORES * CLASSES
      && !PhaseAt(w.phases, ChainFor(t, l.op.stack)).Pending?
      && (l.op.Push? ==>
            l.op.chain == D.At(w.d.held, ChainFor(t, l.op.stack)) && PhaseAt(w.phases, ChainFor(t, l.op.stack)).Open?)
  }

  ghost predicate ThreadsOk(w: World, n: nat) {
    && |w.cc.locals| == n + 2
    && w.cc.locals[Application(n)].Idle? && w.cc.locals[ThePool(n)].Idle?
    && (forall t :: 0 <= t < n ==> BusyOk(w, t))
  }

  ghost predicate Confined(d: D.State) {
    && (forall p :: p in d.pages ==> p + PAGE_SIZE <= CC.PTR_SPACE)
    && (forall p :: p in d.drained ==> p + PAGE_SIZE <= CC.PTR_SPACE)
  }

  ghost predicate Inv(w: World, a: CC.Abs, n: nat) {
    && CC.Sim(w.cc, a)
    && D.Inv(w.d) && Confined(w.d)
    && Related(w.d, a, n)
    && WordsOk(w)
    && ThreadsOk(w, n)
  }

  // ---------------------------------------------------------------------
  // What a step does to the words
  // ---------------------------------------------------------------------

  ghost function MemAfter(w: World, e: Event, n: nat): Memory
    requires Enabled(w, e, n)
  {
    var mem, held := w.cc.mem, w.d.held;
    match e
    case Core(Link(t)) => mem[Tail(w.cc.locals[t].op.chain) := CC.PtrOf(w.cc.locals[t].seen)]
    case LinkNewest(t, c) => mem[D.At(held, D.Chain(t, c))[|D.At(held, D.Chain(t, c))| - 2] := Tail(D.At(held, D.Chain(t, c)))]
    case Close(t, c) => mem[Tail(D.At(held, D.Chain(t, c))) := 0]
    case Scribble(q, x, v) => mem[x := v]
    case Local(FreeToBin(t, k)) =>
      var x := D.At(held, D.User)[k];
      mem[x := HeadAt(w.bins, D.Bin(t, D.ClassAt(w.d.pages, x)))]
    case Local(ChainOut(t, c)) =>
      var chain := D.At(held, D.Chain(t, c));
      if chain == [] then mem else mem[Tail(chain) := HeadAt(w.bins, D.Bin(t, c))]
    case Local(Install(t, c)) => mem[Tail(D.At(held, D.Chain(t, c))) := HeadAt(w.bins, D.Bin(t, c))]
    case Local(PoolToChain(t, c, supply, x)) => mem[D.SlotAddr(x.page, c, x.index) := First(D.At(held, D.Chain(t, c)))]
    case _ => mem
  }

  /** A place that the store, if any, does not reach. */
  lemma Elsewhere(w: World, mem': Memory, bins': Heads, phases': Phases, held': D.Held, y: nat, v: nat, p: D.Place)
    requires PlaceOk(w.cc.mem, w.bins, w.phases, w.d.held, p)
    requires mem' == w.cc.mem || (mem' == w.cc.mem[y := v] && y !in D.At(w.d.held, p))
    requires D.At(held', p) == D.At(w.d.held, p)
    requires HeadAt(bins', p) == HeadAt(w.bins, p) && PhaseAt(phases', p) == PhaseAt(w.phases, p)
    ensures PlaceOk(mem', bins', phases', held', p)
  {
    SamePlace(w.cc.mem, w.bins, w.phases, w.d.held, mem', bins', phases', held', p);
  }

  ghost predicate WordsAfter(w: World, e: Event, n: nat)
    requires Enabled(w, e, n)
  {
    forall p :: PlaceOk(MemAfter(w, e, n), BinsAfter(w, e, n), PhasesAfter(w, e, n), MeantAfter(w, e, n).held, p)
  }

  ghost predicate Good(w: World) {
    D.Sound(w.d.held, w.d.where) && WordsOk(w)
  }

  /** What stays where it is in a step of the dispatcher, and what the two places touched hold afterwards. */
  lemma HeldAfter(d: D.State, e: D.Event)
    requires D.Enabled(d, e)
    ensures var h, h' := d.held, D.Next(d, e).held;
            match e
            case ServeFromBin(t, c) => D.At(h', D.Bin(t, c)) == D.At(h, D.Bin(t, c))[1..]
            case FreeToBin(t, k) =>
              var x := D.At(h, D.User)[k];
              var p := D.Bin(t, D.ClassAt(d.pages, x));
              D.At(h', p) == [x] + D.At(h, p)
            case ChainOut(t, c) =>
              && D.At(h', D.Bin(t, c)) == D.At(h, D.Bin(t, c))[1..]
              && D.At(h', D.Chain(t, c)) == D.At(h, D.Chain(t, c)) + [D.At(h, D.Bin(t, c))[0]]
            case PushBatch(t, c, cpu) => D.At(h', D.Chain(t, c)) == []
            case PopToChain(t, c, cpu) => D.At(h', D.Chain(t, c)) == D.At(h, D.Chain(t, c)) + [D.At(h, D.Stack(cpu, c))[0]]
            case Install(t, c) =>
              D.At(h', D.Chain(t, c)) == [] && D.At(h', D.Bin(t, c)) == D.At(h, D.Chain(t, c)) + D.At(h, D.Bin(t, c))
            case PoolToChain(t, c, supply, x) =>
              D.At(h', D.Chain(t, c)) == [D.SlotAddr(x.page, c, x.index)] + D.At(h, D.Chain(t, c))
            case BinToPool(t, c) => D.At(h', D.Bin(t, c)) == D.At(h, D.Bin(t, c))[1..]
            case ChainToPool(t, c) => D.At(h', D.Chain(t, c)) == D.At(h, D.Chain(t, c))[1..]
            case _ => true
  {
    hide D.PoolGrants, D.PagesAfterAlloc, D.DrainedAfterAlloc, D.PagesAfterFree, D.DrainedAfterFree, D.SlotAddr;
  }

  /** Places outside `touched` keep their slots, heads and phases, and the store misses them. */
  ghost predicate Misses(w: World, mem': Memory, bins': Heads, phases': Phases, held': D.Held, y: nat, v: nat, touched: set<D.Place>) {
    && (mem' == w.cc.mem || mem' == w.cc.mem[y := v])
    && forall p :: p !in touched ==>
         && D.At(held', p) == D.At(w.d.held, p)
         && HeadAt(bins', p) == HeadAt(w.bins, p) && PhaseAt(phases', p) == PhaseAt(w.phases, p)
         && (mem' == w.cc.mem || y !in D.At(w.d.held, p))
  }

  lemma Framed(w: World, mem': Memory, bins': Heads, phases': Phases, held': D.Held, y: nat, v: nat, touched: set<D.Place>)
    requires WordsOk(w) && Misses(w, mem', bins', phases', held', y, v, touched)
    requires forall p :: p in touched ==> PlaceOk(mem', bins', phases', held', p)
    ensures forall p :: PlaceOk(mem', bins', phases', held', p)
  {
    forall p
      ensures PlaceOk(mem', bins', phases', held', p)
    {
      if p !in touched {
        Elsewhere(w, mem', bins', phases', held', y, v, p);
      }
    }
  }

  /** A slot is on no list but that of its place. */
  lemma OnlyThere(w: World, y: nat, p: D.Place)
    requires D.Sound(w.d.held, w.d.where) && PlaceOf(w.d.where, y) != Some(p)
    ensures y !in D.At(w.d.held, p)
  {}

  lemma TransferMisses(w: World, e: D.Event, mem': Memory, bins': Heads, phases': Phases, y: nat, v: nat, touched: set<D.Place>)
    requires D.Sound(w.d.held, w.d.where) && D.Enabled(w.d, e) && Carries(w.d, TransferOf(w.d, e), D.Next(w.d, e))
    requires TransferOf(w.d, e).from.Some? ==> TransferOf(w.d, e).from.value in touched
    requires TransferOf(w.d, e).to.Some? ==> TransferOf(w.d, e).to.value in touched
    requires forall p :: p !in touched ==> HeadAt(bins', p) == HeadAt(w.bins, p) && PhaseAt(phases', p) == PhaseAt(w.phases, p)
    requires mem' == w.cc.mem || (mem' == w.cc.mem[y := v] && (y in w.d.where ==> w.d.where[y] in touched))
    ensures Misses(w, mem', bins', phases', D.Next(w.d, e).held, y, v, touched)
  {
    hide D.Next, D.Enabled, TransferOf;
    forall p | p !in touched
      ensures D.At(D.Next(w.d, e).held, p) == D.At(w.d.held, p)
      ensures mem' == w.cc.mem || y !in D.At(w.d.held, p)
    {
    }
  }

  lemma UserOk(mem: Memory, bins: Heads, phases: Phases, held: D.Held)
    ensures PlaceOk(mem, bins, phases, held, D.User)
  {}

  /** The head of a bin is the first word of its first slot, and the word there is the next head. */
  lemma BinShortened(w: World, bins': Heads, phases': Phases, held': D.Held, b: D.Place)
    requires b.Bin? && WordsOk(w) && D.At(w.d.held, b) != []
    requires HeadAt(bins', b) == Word(w.cc.mem, HeadAt(w.bins, b))
    requires D.At(held', b) == D.At(w.d.held, b)[1..]
    ensures PlaceOk(w.cc.mem, bins', phases', held', b)
  {
    assert PlaceOk(w.cc.mem, w.bins, w.phases, w.d.held, b);
    PopList(w.cc.mem, HeadAt(w.bins, b), D.At(w.d.held, b));
  }

  lemma BinPopped(w: World, e: Event, n: nat, t: nat, c: nat)
    requires Good(w) && Enabled(w, e, n) && (e == Local(D.ServeFromBin(t, c)) || e == Local(D.BinToPool(t, c)))
    requires Carries(w.d, TransferOf(w.d, e.event), D.Next(w.d, e.event))
    ensures WordsAfter(w, e, n)
  {
    hide D.Next, Carries, PlaceOk, D.Sound;
    HeldAfter(w.d, e.event);
    var b := D.Bin(t, c);
    var mem, bins, phases, held := MemAfter(w, e, n), BinsAfter(w, e, n), PhasesAfter(w, e, n), MeantAfter(w, e, n).held;
    TransferMisses(w, e.event, mem, bins, phases, 0, 0, {b, D.User});
    BinShortened(w, bins, phases, held, b);
    UserOk(mem, bins, phases, held);
    Framed(w, mem, bins, phases, held, 0, 0, {b, D.User});
  }

  lemma BinPushed(w: World, e: Event, n: nat, t: nat, k: nat)
    requires Good(w) && Enabled(w, e, n) && e == Local(D.FreeToBin(t, k))
    requires Carries(w.d, TransferOf(w.d, e.event), D.Next(w.d, e.event))
    ensures WordsAfter(w, e, n)
  {
    hide D.Next, Carries, PlaceOk;
    HeldAfter(w.d, e.event);
    var x := D.At(w.d.held, D.User)[k];
    var b := D.Bin(t, D.ClassAt(w.d.pages, x));
    assert x in D.At(w.d.held, D.User);
    OnlyThere(w, x, b);
    hide D.Sound;
    var mem, bins, phases, held := MemAfter(w, e, n), BinsAfter(w, e, n), PhasesAfter(w, e, n), MeantAfter(w, e, n).held;
    TransferMisses(w, e.event, mem, bins, phases, x, HeadAt(w.bins, b), {b, D.User});
    BinGrown(w, bins, phases, held, b, x);
    UserOk(mem, bins, phases, held);
    Framed(w, mem, bins, phases, held, x, HeadAt(w.bins, b), {b, D.User});
  }

  lemma BinGrown(w: World, bins': Heads, phases': Phases, held': D.Held, b: D.Place, x: nat)
    requires b.Bin? && WordsOk(w) && x !in D.At(w.d.held, b)
    requires HeadAt(bins', b) == x && D.At(held', b) == [x] + D.At(w.d.held, b)
    ensures PlaceOk(w.cc.mem[x := HeadAt(w.bins, b)], bins', phases', held', b)
  {
    assert PlaceOk(w.cc.mem, w.bins, w.phases, w.d.held, b);
    PushList(w.cc.mem, HeadAt(w.bins, b), D.At(w.d.held, b), x);
  }

  lemma DistinctPlaces(w: World, p: D.Place, q: D.Place)
    requires D.Sound(w.d.held, w.d.where) && p != q
    ensures Distinct(D.At(w.d.held, p)) && forall x :: x in D.At(w.d.held, p) ==> x !in D.At(w.d.held, q)
  {
    forall x | x in D.At(w.d.held, p)
      ensures x !in D.At(w.d.held, q)
    {
      assert PlaceOf(w.d.where, x) == Some(p);
      OnlyThere(w, x, q);
    }
  }

  lemma TailIn(xs: seq<nat>)
    requires xs != []
    ensures Tail(xs) in xs && xs[0] in xs
  {}

  /** Draining: the head of the bin goes to the end of the chain. */
  lemma ChainDrained(w: World, e: Event, n: nat, t: nat, c: nat)
    requires Good(w) && Enabled(w, e, n) && e == Local(D.ChainOut(t, c))
    requires Carries(w.d, TransferOf(w.d, e.event), D.Next(w.d, e.event))
    ensures WordsAfter(w, e, n)
  {
    hide D.Next, Carries, PlaceOk;
    HeldAfter(w.d, e.event);
    var b, h := D.Bin(t, c), D.Chain(t, c);
    var bin, chain := D.At(w.d.held, b), D.At(w.d.held, h);
    var mem, bins, phases, held := MemAfter(w, e, n), BinsAfter(w, e, n), PhasesAfter(w, e, n), MeantAfter(w, e, n).held;
    DistinctPlaces(w, h, b);
    BinShortened(w, bins, phases, held, b);
    ChainExtended(w, bins, phases, held, b, h);
    var y := if chain == [] then 0 else Tail(chain);
    if chain != [] {
      TailIn(chain);
      assert w.d.where[y] == h;
    }
    hide D.Sound;
    TransferMisses(w, e.event, mem, bins, phases, y, HeadAt(w.bins, b), {b, h});
    BinMissed(w.cc.mem, bins, phases, held, b, mem, y, HeadAt(w.bins, b), bin[1..]);
    Framed(w, mem, bins, phases, held, y, HeadAt(w.bins, b), {b, h});
  }

  lemma BinMissed(mem: Memory, bins: Heads, phases: Phases, held: D.Held, b: D.Place, mem': Memory, y: nat, v: nat, xs: seq<nat>)
    requires b.Bin? && PlaceOk(mem, bins, phases, held, b) && D.At(held, b) == xs
    requires mem' == mem || (mem' == mem[y := v] && y !in xs)
    ensures PlaceOk(mem', bins, phases, held, b)
  {
    SamePlace(mem, bins, phases, held, mem', bins, phases, held, b);
  }

  lemma ChainExtended(w: World, bins': Heads, phases': Phases, held': D.Held, b: D.Place, h: D.Place)
    requires b.Bin? && h.Chain? && WordsOk(w) && !PhaseAt(w.phases, h).Pending? && D.At(w.d.held, b) != []
    requires Distinct(D.At(w.d.held, h)) && forall x :: x in D.At(w.d.held, h) ==> x !in D.At(w.d.held, b)
    requires PhaseAt(phases', h) == CC.Open && D.At(held', h) == D.At(w.d.held, h) + [D.At(w.d.held, b)[0]]
    ensures D.At(w.d.held, h) == [] ==> PlaceOk(w.cc.mem, bins', phases', held', h)
    ensures D.At(w.d.held, h) != [] ==>
      PlaceOk(w.cc.mem[Tail(D.At(w.d.held, h)) := HeadAt(w.bins, b)], bins', phases', held', h)
  {
    assert PlaceOk(w.cc.mem, w.bins, w.phases, w.d.held, b);
    assert PlaceOk(w.cc.mem, w.bins, w.phases, w.d.held, h);
    ExtendChain(w.cc.mem, D.At(w.d.held, h), PhaseAt(w.phases, h), D.At(w.d.held, b)[0]);
  }

  /** Installing: the chain is spliced in front of the bin. */
  lemma ChainInstalled(w: World, e: Event, n: nat, t: nat, c: nat)
    requires Good(w) && Enabled(w, e, n) && e == Local(D.Install(t, c))
    requires Carries(w.d, TransferOf(w.d, e.event), D.Next(w.d, e.event))
    ensures WordsAfter(w, e, n)
  {
    hide D.Next, Carries, PlaceOk;
    HeldAfter(w.d, e.event);
    var b, h := D.Bin(t, c), D.Chain(t, c);
    var chain := D.At(w.d.held, h);
    var mem, bins, phases, held := MemAfter(w, e, n), BinsAfter(w, e, n), PhasesAfter(w, e, n), MeantAfter(w, e, n).held;
    DistinctPlaces(w, h, b);
    TailIn(chain);
    hide D.Sound;
    TransferMisses(w, e.event, mem, bins, phases, Tail(chain), HeadAt(w.bins, b), {b, h});
    BinSpliced(w, bins, phases, held, b, h);
    EmptyChain(mem, bins, phases, held, h);
    Framed(w, mem, bins, phases, held, Tail(chain), HeadAt(w.bins, b), {b, h});
  }

  lemma EmptyChain(mem: Memory, bins: Heads, phases: Phases, held: D.Held, h: D.Place)
    requires h.Chain? && D.At(held, h) == [] && PhaseAt(phases, h).Open?
    ensures PlaceOk(mem, bins, phases, held, h)
  {}

  lemma BinSpliced(w: World, bins': Heads, phases': Phases, held': D.Held, b: D.Place, h: D.Place)
    requires b.Bin? && h.Chain? && WordsOk(w) && !PhaseAt(w.phases, h).Pending? && D.At(w.d.held, h) != []
    requires Distinct(D.At(w.d.held, h)) && forall x :: x in D.At(w.d.held, h) ==> x !in D.At(w.d.held, b)
    requires HeadAt(bins', b) == D.At(w.d.held, h)[0] && D.At(held', b) == D.At(w.d.held, h) + D.At(w.d.held, b)
    ensures PlaceOk(w.cc.mem[Tail(D.At(w.d.held, h)) := HeadAt(w.bins, b)], bins', phases', held', b)
  {
    assert PlaceOk(w.cc.mem, w.bins, w.phases, w.d.held, b);
    assert PlaceOk(w.cc.mem, w.bins, w.phases, w.d.held, h);
    SpliceList(w.cc.mem, HeadAt(w.bins, b), D.At(w.d.held, b), D.At(w.d.held, h));
  }

  /** Refilling from the pool: each new slot points to the chain so far. */
  lemma ChainRefilled(w: World, e: Event, n: nat, t: nat, c: nat, supply: Option<nat>, x: Slot)
    requires Good(w) && Enabled(w, e, n) && e == Local(D.PoolToChain(t, c, supply, x))
    requires Carries(w.d, TransferOf(w.d, e.event), D.Next(w.d, e.event))
    ensures WordsAfter(w, e, n)
  {
    hide D.Next, PlaceOk, D.PoolGrants, D.SlotAddr;
    HeldAfter(w.d, e.event);
    var h := D.Chain(t, c);
    var addr := TransferOf(w.d, e.event).xs[0];
    assert addr in TransferOf(w.d, e.event).xs;
    assert addr !in w.d.where;
    OnlyThere(w, addr, h);
    hide D.Sound, Carries;
    var mem, bins, phases, held := MemAfter(w, e, n), BinsAfter(w, e, n), PhasesAfter(w, e, n), MeantAfter(w, e, n).held;
    TransferMisses(w, e.event, mem, bins, phases, addr, First(D.At(w.d.held, h)), {h});
    ChainPrepended(w, bins, phases, held, h, addr);
    Framed(w, mem, bins, phases, held, addr, First(D.At(w.d.held, h)), {h});
  }

  lemma ChainPrepended(w: World, bins': Heads, phases': Phases, held': D.Held, h: D.Place, x: nat)
    requires h.Chain? && WordsOk(w) && !PhaseAt(w.phases, h).Pending? && x !in D.At(w.d.held, h)
    requires D.At(held', h) == [x] + D.At(w.d.held, h)
    requires PhaseAt(phases', h) == if D.At(w.d.held, h) == [] then CC.Closed else PhaseAt(w.phases, h)
    ensures PlaceOk(w.cc.mem[x := First(D.At(w.d.held, h))], bins', phases', held', h)
  {
    assert PlaceOk(w.cc.mem, w.bins, w.phases, w.d.held, h);
    PrependChain(w.cc.mem, D.At(w.d.held, h), PhaseAt(w.phases, h), x);
  }

  lemma ChainReturned(w: World, e: Event, n: nat, t: nat, c: nat)
    requires Good(w) && Enabled(w, e, n) && e == Local(D.ChainToPool(t, c))
    requires Carries(w.d, TransferOf(w.d, e.event), D.Next(w.d, e.event))
    ensures WordsAfter(w, e, n)
  {
    hide D.Next, Carries, PlaceOk, D.Sound;
    HeldAfter(w.d, e.event);
    var h := D.Chain(t, c);
    var mem, bins, phases, held := MemAfter(w, e, n), BinsAfter(w, e, n), PhasesAfter(w, e, n), MeantAfter(w, e, n).held;
    TransferMisses(w, e.event, mem, bins, phases, 0, 0, {h});
    ChainShortened(w, bins, phases, held, h);
    Framed(w, mem, bins, phases, held, 0, 0, {h});
  }

  lemma ChainShortened(w: World, bins': Heads, phases': Phases, held': D.Held, h: D.Place)
    requires h.Chain? && WordsOk(w) && !PhaseAt(w.phases, h).Pending? && D.At(w.d.held, h) != []
    requires D.At(held', h) == D.At(w.d.held, h)[1..] && PhaseAt(phases', h) == PhaseAt(w.phases, h)
    ensures PlaceOk(w.cc.mem, bins', phases', held', h)
  {
    assert PlaceOk(w.cc.mem, w.bins, w.phases, w.d.held, h);
    ShortenChain(w.cc.mem, D.At(w.d.held, h), PhaseAt(w.phases, h));
  }

  lemma NoListTouched(w: World, e: Event, n: nat)
    requires Good(w) && Enabled(w, e, n) && e.Local? && (e.event.PoolToUser? || e.event.UserToPool? || e.event.Sweep?)
    requires Carries(w.d, TransferOf(w.d, e.event), D.Next(w.d, e.event))
    ensures WordsAfter(w, e, n)
  {
    hide D.Next, Carries, PlaceOk, D.Sound, D.PoolGrants;
    var mem, bins, phases, held := MemAfter(w, e, n), BinsAfter(w, e, n), PhasesAfter(w, e, n), MeantAfter(w, e, n).held;
    TransferMisses(w, e.event, mem, bins, phases, 0, 0, {D.User});
    UserOk(mem, bins, phases, held);
    Framed(w, mem, bins, phases, held, 0, 0, {D.User});
  }

  lemma LocalWords(w: World, e: Event, n: nat)
    requires Good(w) && D.Inv(w.d) && Enabled(w, e, n) && e.Local?
    ensures WordsAfter(w, e, n)
  {
    hide WordsAfter, Good, D.Inv, D.PoolGrants;
    StepCarries(w.d, e.event);
    match e.event
    case ServeFromBin(t, c) => BinPopped(w, e, n, t, c);
    case FreeToBin(t, k) => BinPushed(w, e, n, t, k);
    case ChainOut(t, c) => ChainDrained(w, e, n, t, c);
    case Install(t, c) => ChainInstalled(w, e, n, t, c);
    case PoolToChain(t, c, supply, x) => ChainRefilled(w, e, n, t, c, supply, x);
    case BinToPool(t, c) => BinPopped(w, e, n, t, c);
    case ChainToPool(t, c) => ChainReturned(w, e, n, t, c);
    case PoolToUser(c, supply, x) => NoListTouched(w, e, n);
    case UserToPool(k) => NoListTouched(w, e, n);
    case Sweep(kept) => NoListTouched(w, e, n);
  }

  // ---------------------------------------------------------------------
  // Words in the steps of the core cache, and in plain stores
  // ---------------------------------------------------------------------

  lemma StoreMisses(w: World, phases': Phases, y: nat, v: nat, h: D.Place)
    requires D.Sound(w.d.held, w.d.where) && (y in w.d.where ==> w.d.where[y] == h)
    requires forall p :: p != h ==> PhaseAt(phases', p) == PhaseAt(w.phases, p)
    ensures Misses(w, w.cc.mem[y := v], w.bins, phases', w.d.held, y, v, {h})
  {}

  lemma ChainStored(w: World, e: Event, n: nat, t: nat, c: nat)
    requires Good(w) && Enabled(w, e, n) && (e == LinkNewest(t, c) || e == Close(t, c))
    ensures WordsAfter(w, e, n)
  {
    hide PlaceOk;
    var h := D.Chain(t, c);
    var chain := D.At(w.d.held, h);
    TailIn(chain);
    assert Distinct(chain);
    var y := if e.Close? then Tail(chain) else chain[|chain| - 2];
    var v := if e.Close? then 0 else Tail(chain);
    assert y in chain;
    assert w.d.where[y] == h;
    StoreMisses(w, PhasesAfter(w, e, n), y, v, h);
    hide D.Sound, Distinct;
    ChainWritten(w, PhasesAfter(w, e, n), h, e.Close?);
    Framed(w, w.cc.mem[y := v], w.bins, PhasesAfter(w, e, n), w.d.held, y, v, {h});
  }

  lemma ChainWritten(w: World, phases': Phases, h: D.Place, closing: bool)
    requires h.Chain? && WordsOk(w) && Distinct(D.At(w.d.held, h)) && D.At(w.d.held, h) != []
    requires if closing then PhaseAt(w.phases, h).Open? else PhaseAt(w.phases, h).Pending? && |D.At(w.d.held, h)| >= 2
    requires PhaseAt(phases', h) == if closing then CC.Closed else CC.Open
    ensures var chain := D.At(w.d.held, h);
            var y := if closing then Tail(chain) else chain[|chain| - 2];
            var v := if closing then 0 else Tail(chain);
            PlaceOk(w.cc.mem[y := v], w.bins, phases', w.d.held, h)
  {
    var chain := D.At(w.d.held, h);
    assert PlaceOk(w.cc.mem, w.bins, w.phases, w.d.held, h);
    if closing {
      TailWritten(w.cc.mem, chain, CC.Open, 0);
    } else {
      LinkChain(w.cc.mem, chain);
    }
  }

  lemma Scribbled(w: World, e: Event, n: nat)
    requires Good(w) && Enabled(w, e, n) && e.Scribble?
    ensures WordsAfter(w, e, n)
  {
    hide PlaceOk;
    assert e.x in w.d.where ==> w.d.where[e.x] == D.User;
    StoreMisses(w, w.phases, e.x, e.v, D.User);
    hide D.Sound;
    UserOk(w.cc.mem[e.x := e.v], w.bins, w.phases, w.d.held);
    Framed(w, w.cc.mem[e.x := e.v], w.bins, w.phases, w.d.held, e.x, e.v, {D.User});
  }

  lemma PushBegun(w: World, e: Event, n: nat)
    requires Good(w) && Enabled(w, e, n) && e.Core? && e.step.BeginPush?
    ensures WordsAfter(w, e, n)
  {
    hide PlaceOk, D.Sound;
    var h := ChainFor(e.step.t, e.step.stack);
    var phases := PhasesAfter(w, e, n);
    ChainOpened(w, phases, h);
    assert Misses(w, w.cc.mem, w.bins, phases, w.d.held, 0, 0, {h});
    Framed(w, w.cc.mem, w.bins, phases, w.d.held, 0, 0, {h});
  }

  lemma ChainOpened(w: World, phases': Phases, h: D.Place)
    requires h.Chain? && WordsOk(w) && !PhaseAt(w.phases, h).Pending? && PhaseAt(phases', h) == CC.Open
    ensures PlaceOk(w.cc.mem, w.bins, phases', w.d.held, h)
  {
    assert PlaceOk(w.cc.mem, w.bins, w.phases, w.d.held, h);
  }

  /** The store a push makes before its exchange. */
  lemma TailLinked(w: World, e: Event, n: nat)
    requires Good(w) && Enabled(w, e, n) && e.Core? && e.step.Link? && e.step.t < |w.cc.locals| && BusyOk(w, e.step.t)
    ensures WordsAfter(w, e, n)
  {
    hide PlaceOk;
    var l := w.cc.locals[e.step.t];
    var h := ChainFor(e.step.t, l.op.stack);
    var chain := D.At(w.d.held, h);
    TailIn(chain);
    assert Distinct(chain);
    var y, v := Tail(chain), CC.PtrOf(l.seen);
    StoreMisses(w, w.phases, y, v, h);
    hide D.Sound, Distinct;
    ChainKept(w, h, v);
    Framed(w, w.cc.mem[y := v], w.bins, w.phases, w.d.held, y, v, {h});
  }

  lemma ChainKept(w: World, h: D.Place, v: nat)
    requires h.Chain? && WordsOk(w) && PhaseAt(w.phases, h).Open? && D.At(w.d.held, h) != [] && Distinct(D.At(w.d.held, h))
    ensures PlaceOk(w.cc.mem[Tail(D.At(w.d.held, h)) := v], w.bins, w.phases, w.d.held, h)
  {
    assert PlaceOk(w.cc.mem, w.bins, w.phases, w.d.held, h);
    TailWritten(w.cc.mem, D.At(w.d.held, h), CC.Open, v);
  }

  lemma StackOk(mem: Memory, bins: Heads, phases: Phases, held: D.Held, cpu: nat, c: nat)
    ensures PlaceOk(mem, bins, phases, held, D.Stack(cpu, c))
  {}

  /** A successful exchange writes no slot; it empties the chain pushed, or lengthens the one popped to. */
  lemma Exchanged(w: World, e: Event, n: nat, m: D.Event)
    requires Good(w) && Enabled(w, e, n) && e.Core? && e.step.Exchange? && Meaning(w, e, n) == Some(m)
    requires e.step.t < |w.cc.locals| && BusyOk(w, e.step.t)
    requires D.Enabled(w.d, m) && Carries(w.d, TransferOf(w.d, m), D.Next(w.d, m))
    ensures WordsAfter(w, e, n)
  {
    hide D.Next, Carries, PlaceOk;
    HeldAfter(w.d, m);
    var l := w.cc.locals[e.step.t];
    var h := ChainFor(e.step.t, l.op.stack);
    var k := D.Stack(l.op.stack / CLASSES, l.op.stack % CLASSES);
    var phases, held := PhasesAfter(w, e, n), MeantAfter(w, e, n).held;
    DistinctPlaces(w, h, k);
    hide D.Sound;
    TransferMisses(w, m, w.cc.mem, w.bins, phases, 0, 0, {h, k});
    StackOk(w.cc.mem, w.bins, phases, held, l.op.stack / CLASSES, l.op.stack % CLASSES);
    if l.op.Push? {
      EmptyChain(w.cc.mem, w.bins, phases, held, h);
    } else {
      ChainGrown(w, phases, held, h, D.At(w.d.held, k)[0]);
    }
    Framed(w, w.cc.mem, w.bins, phases, held, 0, 0, {h, k});
  }

  lemma ChainGrown(w: World, phases': Phases, held': D.Held, h: D.Place, x: nat)
    requires h.Chain? && WordsOk(w) && !PhaseAt(w.phases, h).Pending? && x !in D.At(w.d.held, h) && Distinct(D.At(w.d.held, h))
    requires D.At(held', h) == D.At(w.d.held, h) + [x]
    requires PhaseAt(phases', h) == if D.At(w.d.held, h) == [] then CC.Open else CC.Pending
    ensures PlaceOk(w.cc.mem, w.bins, phases', held', h)
  {
    assert PlaceOk(w.cc.mem, w.bins, w.phases, w.d.held, h);
    ExtendChain(w.cc.mem, D.At(w.d.held, h), PhaseAt(w.phases, h), x);
  }

  lemma StepWords(w: World, e: Event, n: nat)
    requires Good(w) && D.Inv(w.d) && Enabled(w, e, n) && ThreadsOk(w, n)
    requires Meaning(w, e, n).Some? ==> D.Enabled(w.d, Meaning(w, e, n).value)
    ensures WordsAfter(w, e, n)
  {
    hide WordsAfter, Good, D.Inv, D.Enabled, BusyOk;
    match e
    case Local(x) => LocalWords(w, e, n);
    case LinkNewest(t, c) => ChainStored(w, e, n, t, c);
    case Close(t, c) => ChainStored(w, e, n, t, c);
    case Scribble(q, x, v) => Scribbled(w, e, n);
    case Core(x) =>
      if x.BeginPush? {
        PushBegun(w, e, n);
      } else if x.Link? {
        TailLinked(w, e, n);
      } else if x.Exchange? {
        var m := Meaning(w, e, n).value;
        StepCarries(w.d, m);
        Exchanged(w, e, n, m);
      } else {
        SameWords(w, e, n);
      }
  }

  lemma SameWords(w: World, e: Event, n: nat)
    requires Good(w) && Enabled(w, e, n) && e.Core? && !e.step.BeginPush? && !e.step.Link? && !e.step.Exchange?
    ensures WordsAfter(w, e, n)
  {
    hide PlaceOk;
  }

  // ---------------------------------------------------------------------
  // Every step is a run of the core cache that its owners allow
  // ---------------------------------------------------------------------

  lemma NoEvents(s: CC.State, a: CC.Abs)
    ensures CC.Run(s, a, []) && CC.Outcome(s, []) == s && CC.Replay(a, CC.History(s, [])) == a
  {}

  lemma OneEvent(s: CC.State, a: CC.Abs, e: CC.Event)
    requires CC.Enabled(s, e) && CC.Allowed(s, a, e) && CC.InWindow(s, a, e)
    ensures CC.Run(s, a, [e]) && CC.Outcome(s, [e]) == CC.Next(s, e)
    ensures CC.Replay(a, CC.History(s, [e])) == CC.Advance(a, CC.Observed(s, e))
  {
    assert [e][1..] == [] && CC.History(CC.Next(s, e), []) == [];
    var h := CC.History(s, [e]);
    assert h == [CC.Observed(s, e)] && h[1..] == [];
  }

  lemma TwoEvents(s: CC.State, a: CC.Abs, e: CC.Event, s1: CC.State, a1: CC.Abs, f: CC.Event)
    requires CC.Enabled(s, e) && CC.Allowed(s, a, e) && CC.InWindow(s, a, e)
    requires s1 == CC.Next(s, e) && a1 == CC.Advance(a, CC.Observed(s, e))
    requires CC.Enabled(s1, f) && CC.Allowed(s1, a1, f) && CC.InWindow(s1, a1, f)
    ensures CC.Run(s, a, [e, f]) && CC.Outcome(s, [e, f]) == CC.Next(s1, f)
    ensures CC.Replay(a, CC.History(s, [e, f])) == CC.Advance(a1, CC.Observed(s1, f))
  {
    hide CC.Enabled, CC.Allowed, CC.InWindow, CC.Observed, CC.Advance;
    OneEvent(s1, a1, f);
    assert [e, f][1..] == [f];
    var h := CC.History(s, [e, f]);
    assert h[1..] == CC.History(s1, [f]);
  }

  lemma GiveRun(s: CC.State, a: CC.Abs, q: nat, r: nat, x: nat)
    requires |s.locals| == |a.owned| && q < |s.locals| && r < |s.locals| && s.locals[q].Idle? && x in a.owned[q]
    ensures CC.Run(s, a, [CC.Give(q, r, x)]) && CC.Outcome(s, [CC.Give(q, r, x)]) == s
    ensures CC.Replay(a, CC.History(s, [CC.Give(q, r, x)])) == CC.Advance(a, CC.Gives(q, r, x))
  {
    hide CC.Advance;
    OneEvent(s, a, CC.Give(q, r, x));
  }

  lemma WriteRun(s: CC.State, a: CC.Abs, q: nat, x: nat, v: nat)
    requires |s.locals| == |a.owned| && q < |s.locals| && s.locals[q].Idle? && x in a.owned[q]
    ensures CC.Run(s, a, [CC.Write(q, x, v)]) && CC.Outcome(s, [CC.Write(q, x, v)]) == s.(mem := s.mem[x := v])
    ensures CC.Replay(a, CC.History(s, [CC.Write(q, x, v)])) == a
  {
    OneEvent(s, a, CC.Write(q, x, v));
  }

  lemma GiveWriteRun(s: CC.State, a: CC.Abs, q: nat, r: nat, x: nat, v: nat)
    requires |s.locals| == |a.owned| && q < |s.locals| && r < |s.locals| && s.locals[q].Idle? && s.locals[r].Idle?
    requires x in a.owned[q]
    ensures var es := [CC.Give(q, r, x), CC.Write(r, x, v)];
            CC.Run(s, a, es) && CC.Outcome(s, es) == s.(mem := s.mem[x := v])
            && CC.Replay(a, CC.History(s, es)) == CC.Advance(a, CC.Gives(q, r, x))
  {
    TwoEvents(s, a, CC.Give(q, r, x), s, CC.Advance(a, CC.Gives(q, r, x)), CC.Write(r, x, v));
  }

  /** A party owns what its places hold, and the pool what is held nowhere. */
  lemma OwnsHeld(w: World, a: CC.Abs, n: nat, p: D.Place, x: nat)
    requires Inv(w, a, n) && x in D.At(w.d.held, p)
    ensures |w.cc.locals| == |a.owned| == n + 2 && w.cc.locals[Application(n)].Idle? && w.cc.locals[ThePool(n)].Idle?
    ensures CC.GoodAddr(x) && RealPlace(p, n)
    ensures PartyOf(Some(p), n) < n + 2 ==> x in a.owned[PartyOf(Some(p), n)]
  {
    hide CC.Sim, WordsOk, D.PoolOk, D.InUse, D.Classed, Confined;
    assert x in w.d.where && w.d.where[x] == p;
  }

  lemma OwnsFree(w: World, a: CC.Abs, n: nat, x: nat)
    requires Inv(w, a, n) && CC.GoodAddr(x) && x !in w.d.where
    ensures |w.cc.locals| == |a.owned| == n + 2 && w.cc.locals[Application(n)].Idle? && w.cc.locals[ThePool(n)].Idle?
    ensures x in a.owned[ThePool(n)]
  {
    hide CC.Sim, WordsOk, D.Inv, Confined;
  }

  /** The step runs, ends in the state `Next` says, and the owners see the dispatcher's transfer. */
  ghost predicate RunsAs(w: World, a: CC.Abs, e: Event, n: nat, x: CC.Action)
    requires Enabled(w, e, n)
  {
    && CC.Run(w.cc, a, Trace(w, e, n))
    && CC.Outcome(w.cc, Trace(w, e, n)).mem == MemAfter(w, e, n)
    && (!e.Core? ==> CC.Outcome(w.cc, Trace(w, e, n)) == w.cc.(mem := MemAfter(w, e, n)))
    && AbsAfter(w, a, e, n) == CC.Advance(a, x)
  }

  lemma BinHead(w: World, a: CC.Abs, n: nat, t: nat, c: nat)
    requires Inv(w, a, n) && D.At(w.d.held, D.Bin(t, c)) != []
    ensures HeadAt(w.bins, D.Bin(t, c)) == D.At(w.d.held, D.Bin(t, c))[0]
  {
    assert PlaceOk(w.cc.mem, w.bins, w.phases, w.d.held, D.Bin(t, c));
  }

  lemma PoolSlot(w: World, a: CC.Abs, n: nat, c: nat, supply: Option<nat>, x: Slot)
    requires Inv(w, a, n) && D.PoolGrants(w.d.pages, w.d.drained, c, supply, x) && InSpace(supply)
    ensures c < MEDIUM_FIRST && CC.GoodAddr(D.SlotAddr(x.page, c, x.index)) && D.SlotAddr(x.page, c, x.index) !in w.d.where
  {
    hide CC.Sim, WordsOk, ThreadsOk, Related;
    TakeCarries(w.d, c, supply, x, D.User);
    var addr := D.SlotAddr(x.page, c, x.index);
    assert addr in [addr];
    assert addr !in w.d.where;
    PageInSpace(w.d, c, supply, x);
    D.GrantPool(w.d.pages, w.d.drained, c, supply, x);
    hide D.Inv, D.PoolGrants, D.PagesAfterAlloc, Confined;
    UsedGood(D.PagesAfterAlloc(w.d.pages, c, x), addr);
  }

  /** The pages after an allocation are those before and the one granted. */
  lemma PageInSpace(d: D.State, c: nat, supply: Option<nat>, x: Slot)
    requires Confined(d) && D.PoolGrants(d.pages, d.drained, c, supply, x) && InSpace(supply)
    ensures forall p :: p in D.PagesAfterAlloc(d.pages, c, x) ==> p + PAGE_SIZE <= CC.PTR_SPACE
    ensures forall p :: p in D.DrainedAfterAlloc(d.pages, d.drained, c) ==> p in d.drained
  {
    hide HasRoom, Take, Started;
    if !HasRoom(d.pages, c) && d.drained != [] {
      assert x.page in d.drained;
    }
    assert x.page + PAGE_SIZE <= CC.PTR_SPACE;
    assert forall p :: p in D.PagesAfterAlloc(d.pages, c, x) ==> p in d.pages || p == x.page;
  }

  lemma UsedGood(pages: Pages, x: nat)
    requires D.InUse(pages, x) && forall p :: p in pages ==> p + PAGE_SIZE <= CC.PTR_SPACE
    ensures CC.GoodAddr(x)
  {
    SlabSizes(pages[PageOf(x)].cls);
    hide SizeOf, Live;
  }

  lemma ServeRuns(w: World, a: CC.Abs, n: nat, e: Event, t: nat, c: nat)
    requires Inv(w, a, n) && Enabled(w, e, n) && (e == Local(D.ServeFromBin(t, c)) || e == Local(D.BinToPool(t, c)))
    ensures RunsAs(w, a, e, n, ActionOf(TransferOf(w.d, e.event), n)) && RealTransfer(TransferOf(w.d, e.event), n)
  {
    hide Inv, CC.Run, CC.Outcome, CC.Replay, CC.Advance;
    var x := D.At(w.d.held, D.Bin(t, c))[0];
    OwnsHeld(w, a, n, D.Bin(t, c), x);
    BinHead(w, a, n, t, c);
    GiveRun(w.cc, a, t, if e.event.ServeFromBin? then Application(n) else ThePool(n), x);
  }

  lemma FreeRuns(w: World, a: CC.Abs, n: nat, e: Event, t: nat, k: nat)
    requires Inv(w, a, n) && Enabled(w, e, n) && e == Local(D.FreeToBin(t, k))
    ensures RunsAs(w, a, e, n, ActionOf(TransferOf(w.d, e.event), n)) && RealTransfer(TransferOf(w.d, e.event), n)
  {
    hide Inv, CC.Run, CC.Outcome, CC.Replay, CC.Advance, D.ClassAt;
    var x := D.At(w.d.held, D.User)[k];
    OwnsHeld(w, a, n, D.User, x);
    GiveWriteRun(w.cc, a, Application(n), t, x, HeadAt(w.bins, D.Bin(t, D.ClassAt(w.d.pages, x))));
  }

  lemma TailRuns(w: World, a: CC.Abs, n: nat, e: Event, t: nat, c: nat)
    requires Inv(w, a, n) && Enabled(w, e, n) && (e == Local(D.ChainOut(t, c)) || e == Local(D.Install(t, c)))
    ensures RunsAs(w, a, e, n, ActionOf(TransferOf(w.d, e.event), n)) && RealTransfer(TransferOf(w.d, e.event), n)
  {
    hide Inv;
    var chain, bin := D.At(w.d.held, D.Chain(t, c)), D.At(w.d.held, D.Bin(t, c));
    forall x | x in TransferOf(w.d, e.event).xs
      ensures CC.GoodAddr(x)
    {
      OwnsHeld(w, a, n, if e.event.ChainOut? then D.Bin(t, c) else D.Chain(t, c), x);
    }
    assert ActionOf(TransferOf(w.d, e.event), n) == CC.Silent;
    if chain == [] {
      NoEvents(w.cc, a);
    } else {
      TailIn(chain);
      OwnsHeld(w, a, n, D.Chain(t, c), Tail(chain));
      hide CC.Run, CC.Outcome, CC.Replay;
      WriteRun(w.cc, a, t, Tail(chain), HeadAt(w.bins, D.Bin(t, c)));
    }
  }

  lemma RefillRuns(w: World, a: CC.Abs, n: nat, e: Event, c: nat, supply: Option<nat>, x: Slot)
    requires Inv(w, a, n) && Enabled(w, e, n) && e.Local?
    requires e.event == D.PoolToUser(c, supply, x) || (e.event.PoolToChain? && e.event == D.PoolToChain(e.event.t, c, supply, x))
    ensures RunsAs(w, a, e, n, ActionOf(TransferOf(w.d, e.event), n)) && RealTransfer(TransferOf(w.d, e.event), n)
  {
    hide D.PoolGrants, CC.Run, CC.Outcome, CC.Replay, CC.Advance, D.SlotAddr;
    PoolSlot(w, a, n, c, supply, x);
    var addr := D.SlotAddr(x.page, c, x.index);
    OwnsFree(w, a, n, addr);
    hide Inv;
    if e.event.PoolToUser? {
      GiveRun(w.cc, a, ThePool(n), Application(n), addr);
    } else {
      GiveWriteRun(w.cc, a, ThePool(n), e.event.t, addr, First(D.At(w.d.held, D.Chain(e.event.t, c))));
    }
  }

  lemma ReturnRuns(w: World, a: CC.Abs, n: nat, e: Event)
    requires Inv(w, a, n) && Enabled(w, e, n) && e.Local? && (e.event.ChainToPool? || e.event.UserToPool? || e.event.Sweep?)
    ensures RunsAs(w, a, e, n, ActionOf(TransferOf(w.d, e.event), n)) && RealTransfer(TransferOf(w.d, e.event), n)
  {
    hide Inv;
    if e.event.Sweep? {
      NoEvents(w.cc, a);
    } else {
      var p := if e.event.UserToPool? then D.User else D.Chain(e.event.t, e.event.c);
      var x := D.At(w.d.held, p)[if e.event.UserToPool? then e.event.k else 0];
      assert x in D.At(w.d.held, p);
      OwnsHeld(w, a, n, p, x);
      hide CC.Run, CC.Outcome, CC.Replay;
      GiveRun(w.cc, a, PartyOf(Some(p), n), ThePool(n), x);
    }
  }

  lemma LocalRuns(w: World, a: CC.Abs, n: nat, e: Event)
    requires Inv(w, a, n) && Enabled(w, e, n) && e.Local?
    ensures RunsAs(w, a, e, n, ActionOf(TransferOf(w.d, e.event), n)) && RealTransfer(TransferOf(w.d, e.event), n)
  {
    hide Inv, RunsAs, D.PoolGrants, ActionOf, RealTransfer;
    match e.event
    case ServeFromBin(t, c) => ServeRuns(w, a, n, e, t, c);
    case FreeToBin(t, k) => FreeRuns(w, a, n, e, t, k);
    case ChainOut(t, c) => TailRuns(w, a, n, e, t, c);
    case Install(t, c) => TailRuns(w, a, n, e, t, c);
    case PoolToChain(t, c, supply, x) => RefillRuns(w, a, n, e, c, supply, x);
    case PoolToUser(c, supply, x) => RefillRuns(w, a, n, e, c, supply, x);
    case BinToPool(t, c) => ServeRuns(w, a, n, e, t, c);
    case ChainToPool(t, c) => ReturnRuns(w, a, n, e);
    case UserToPool(k) => ReturnRuns(w, a, n, e);
    case Sweep(kept) => ReturnRuns(w, a, n, e);
  }

  lemma StoreRuns(w: World, a: CC.Abs, n: nat, e: Event)
    requires Inv(w, a, n) && Enabled(w, e, n) && (e.LinkNewest? || e.Close? || e.Scribble?)
    ensures RunsAs(w, a, e, n, CC.Silent)
  {
    hide Inv;
    if e.Scribble? {
      if e.party == ThePool(n) {
        OwnsFree(w, a, n, e.x);
      } else {
        OwnsHeld(w, a, n, D.User, e.x);
      }
      hide CC.Run, CC.Outcome, CC.Replay;
      WriteRun(w.cc, a, e.party, e.x, e.v);
    } else {
      var chain := D.At(w.d.held, D.Chain(e.t, e.c));
      var y := if e.Close? then Tail(chain) else chain[|chain| - 2];
      assert y in chain;
      OwnsHeld(w, a, n, D.Chain(e.t, e.c), y);
      hide CC.Run, CC.Outcome, CC.Replay;
      WriteRun(w.cc, a, e.t, y, if e.Close? then 0 else Tail(chain));
    }
  }

  /** The chains the dispatcher pushes are owned, linked and free of repeats, as the core cache demands. */
  lemma PushAllowed(w: World, a: CC.Abs, n: nat, t: nat, i: nat, chain: seq<nat>)
    requires Inv(w, a, n) && CoreEnabled(w, CC.BeginPush(t, i, chain), n)
    ensures CC.Allowed(w.cc, a, CC.BeginPush(t, i, chain))
  {
    var h := ChainFor(t, i);
    assert PlaceOk(w.cc.mem, w.bins, w.phases, w.d.held, h);
    forall k | 0 <= k < |chain|
      ensures t < |a.owned| && chain[k] in a.owned[t]
    {
      OwnsHeld(w, a, n, h, chain[k]);
    }
    assert chain[0] in D.At(w.d.held, h);
    OwnsHeld(w, a, n, h, chain[0]);
    assert Distinct(chain);
  }

  lemma CoreRuns(w: World, a: CC.Abs, n: nat, e: Event)
    requires Inv(w, a, n) && Enabled(w, e, n) && e.Core? && CC.InWindow(w.cc, a, e.step)
    ensures RunsAs(w, a, e, n, CC.Observed(w.cc, e.step))
    ensures CC.Outcome(w.cc, Trace(w, e, n)) == CC.Next(w.cc, e.step)
  {
    hide Inv, CC.Run, CC.Outcome, CC.Replay, CC.Advance;
    if e.step.BeginPush? {
      PushAllowed(w, a, n, e.step.t, e.step.stack, e.step.chain);
    }
    OneEvent(w.cc, a, e.step);
  }

  /** A successful push is the dispatcher's push of that thread's chain on that core's stack. */
  lemma ExchangeMeans(w: World, a: CC.Abs, n: nat, e: Event)
    requires Inv(w, a, n) && Enabled(w, e, n) && e.Core? && e.step.Exchange?
    ensures var m := Meaning(w, e, n).value;
            && D.Enabled(w.d, m) && RealTransfer(TransferOf(w.d, m), n)
            && CC.Observed(w.cc, e.step) == ActionOf(TransferOf(w.d, m), n)
  {
    hide CC.Sim, D.Inv, WordsOk, Confined, OwnersAgree, Placed, CC.PtrOf;
    var t := e.step.t;
    var l := w.cc.locals[t];
    var i := l.op.stack;
    var cpu, c := i / CLASSES, i % CLASSES;
    assert BusyOk(w, t);
    IxOf(i);
    var h, k := D.Chain(t, c), D.Stack(cpu, c);
    assert a.stacks[Ix(cpu, c)] == D.At(w.d.held, k);
    HeadMeans(w.cc, a, t);
    var m := Meaning(w, e, n).value;
    assert D.Enabled(w.d, m);
    var tr := TransferOf(w.d, m);
    hide Related, ThreadsOk;
    forall x | x in tr.xs
      ensures CC.GoodAddr(x)
    {
      OwnsHeld(w, a, n, tr.from.value, x);
    }
  }

  lemma IxOf(i: nat)
    requires i < CORES * CLASSES
    ensures i / CLASSES < CORES && i % CLASSES < CLASSES && Ix(i / CLASSES, i % CLASSES) == i
  {}

  lemma HeadMeans(s: CC.State, a: CC.Abs, t: nat)
    requires CC.Sim(s, a) && CC.Enabled(s, CC.Exchange(t))
    ensures s.locals[t].op.Push? ==> s.locals[t].op.chain != []
    ensures s.locals[t].op.stack < |a.stacks|
    ensures s.locals[t].op.Pop? ==>
      a.stacks[s.locals[t].op.stack] != [] && CC.PtrOf(s.locals[t].seen) == a.stacks[s.locals[t].op.stack][0]
  {
    CC.HeadEmpty(s, a, s.locals[t].op.stack);
    assert CC.ThreadOk(s, a, t);
  }

  // ---------------------------------------------------------------------
  // Threads do not disturb each other's operations
  // ---------------------------------------------------------------------

  /** Only the chains of thread `t` may differ. */
  ghost predicate ChainsKept(w: World, phases': Phases, held': D.Held, t: nat) {
    forall u, c :: u != t ==>
      D.At(held', D.Chain(u, c)) == D.At(w.d.held, D.Chain(u, c)) && PhaseAt(phases', D.Chain(u, c)) == PhaseAt(w.phases, D.Chain(u, c))
  }

  lemma OthersBusy(w: World, w': World, t: nat, n: nat)
    requires ThreadsOk(w, n) && ChainsKept(w, w'.phases, w'.d.held, t) && |w'.cc.locals| == n + 2
    requires forall u :: 0 <= u < n + 2 && u != t ==> w'.cc.locals[u] == w.cc.locals[u]
    ensures forall u :: 0 <= u < n && u != t ==> BusyOk(w', u)
  {
    forall u | 0 <= u < n && u != t
      ensures BusyOk(w', u)
    {
      assert BusyOk(w, u);
    }
  }

  /** The thread whose chain a step of the dispatcher touches; any other number if it touches none. */
  function ActorOf(e: D.Event, n: nat): nat {
    match e
    case ServeFromBin(t, c) => t
    case FreeToBin(t, k) => t
    case ChainOut(t, c) => t
    case PushBatch(t, c, cpu) => t
    case PopToChain(t, c, cpu) => t
    case Install(t, c) => t
    case PoolToChain(t, c, supply, x) => t
    case BinToPool(t, c) => t
    case ChainToPool(t, c) => t
    case _ => n
  }

  lemma TransferChains(d: D.State, e: D.Event, n: nat, u: nat, c: nat)
    requires D.Enabled(d, e) && Carries(d, TransferOf(d, e), D.Next(d, e)) && u != ActorOf(e, n)
    ensures D.At(D.Next(d, e).held, D.Chain(u, c)) == D.At(d.held, D.Chain(u, c))
  {
    hide D.Next, D.PoolGrants, D.SlotAddr;
    assert Some(D.Chain(u, c)) != TransferOf(d, e).from && Some(D.Chain(u, c)) != TransferOf(d, e).to;
  }

  lemma LocalChains(w: World, e: Event, n: nat)
    requires D.Inv(w.d) && Enabled(w, e, n) && e.Local?
    ensures ChainsKept(w, PhasesAfter(w, e, n), MeantAfter(w, e, n).held, ActorOf(e.event, n))
  {
    hide D.Inv, D.Enabled, D.Next;
    StepCarries(w.d, e.event);
    hide Carries;
    forall u, c | u != ActorOf(e.event, n)
      ensures D.At(MeantAfter(w, e, n).held, D.Chain(u, c)) == D.At(w.d.held, D.Chain(u, c))
    {
      TransferChains(w.d, e.event, n, u, c);
    }
  }

  lemma LocalThreads(w: World, a: CC.Abs, e: Event, n: nat)
    requires Inv(w, a, n) && Enabled(w, e, n) && e.Local? && CC.Outcome(w.cc, Trace(w, e, n)).locals == w.cc.locals
    ensures ThreadsOk(Next(w, e, n), n)
  {
    hide CC.Sim, D.Inv, Related, WordsOk, Confined, ChainsKept, D.PoolGrants;
    LocalChains(w, e, n);
    OthersBusy(w, Next(w, e, n), ActorOf(e.event, n), n);
  }

  lemma StoreThreads(w: World, a: CC.Abs, e: Event, n: nat)
    requires Inv(w, a, n) && Enabled(w, e, n) && (e.LinkNewest? || e.Close? || e.Scribble?)
    requires CC.Outcome(w.cc, Trace(w, e, n)).locals == w.cc.locals
    ensures ThreadsOk(Next(w, e, n), n)
  {
    hide CC.Sim, D.Inv, Related, WordsOk, Confined, BusyOk;
    OthersBusy(w, Next(w, e, n), if e.Scribble? then n else e.t, n);
    if !e.Scribble? {
      IdleBusy(Next(w, e, n), e.t);
    }
  }

  lemma IdleBusy(w: World, t: nat)
    requires t < |w.cc.locals| && w.cc.locals[t].Idle?
    ensures BusyOk(w, t)
  {}

  lemma CoreThreads(w: World, a: CC.Abs, e: Event, n: nat)
    requires Inv(w, a, n) && Enabled(w, e, n) && e.Core? && CC.Outcome(w.cc, Trace(w, e, n)) == CC.Next(w.cc, e.step)
    requires e.step.Exchange? ==> D.Enabled(w.d, Meaning(w, e, n).value)
    ensures ThreadsOk(Next(w, e, n), n)
  {
    assert |w.cc.heads| == CORES * CLASSES;
    hide CC.Sim, D.Inv, WordsOk, Confined, OwnersAgree, Placed, D.Enabled, D.Next, CC.PtrOf, CC.TagOf, CC.Make;
    var t, w' := e.step.t, Next(w, e, n);
    assert BusyOk(w, t);
    if e.step.Exchange? {
      var m := Meaning(w, e, n).value;
      StepCarries(w.d, m);
      hide Carries;
      forall u, c | u != t
        ensures D.At(w'.d.held, D.Chain(u, c)) == D.At(w.d.held, D.Chain(u, c))
      {
        TransferChains(w.d, m, n, u, c);
      }
    }
    assert ChainsKept(w, w'.phases, w'.d.held, t);
    OthersBusy(w, w', t, n);
    assert BusyOk(w', t);
  }

  // ---------------------------------------------------------------------
  // The step theorem
  // ---------------------------------------------------------------------

  lemma FreePages(pages: Pages, drained: seq<nat>, x: nat)
    ensures forall p :: p in D.PagesAfterFree(pages, x) ==> p in pages
    ensures forall p :: p in D.DrainedAfterFree(pages, drained, x) ==> p in pages || p in drained
  {
    hide Put;
  }

  lemma StaysConfined(d: D.State, e: D.Event)
    requires Confined(d) && D.Enabled(d, e)
    requires e.PoolToChain? || e.PoolToUser? ==> InSpace(e.supply)
    ensures Confined(D.Next(d, e))
  {
    hide D.PoolGrants, D.PagesAfterAlloc, D.DrainedAfterAlloc, D.PagesAfterFree, D.DrainedAfterFree;
    match e
    case PoolToChain(t, c, supply, x) => PageInSpace(d, c, supply, x);
    case PoolToUser(c, supply, x) => PageInSpace(d, c, supply, x);
    case BinToPool(t, c) => FreePages(d.pages, d.drained, D.At(d.held, D.Bin(t, c))[0]);
    case ChainToPool(t, c) => FreePages(d.pages, d.drained, D.At(d.held, D.Chain(t, c))[0]);
    case UserToPool(k) => FreePages(d.pages, d.drained, D.At(d.held, D.User)[k]);
    case _ =>
  }

  /** Under the invariant the dispatcher's event is possible whenever the machine takes the step. */
  lemma MeaningEnabled(w: World, a: CC.Abs, e: Event, n: nat)
    requires Inv(w, a, n) && Enabled(w, e, n) && Meaning(w, e, n).Some?
    ensures D.Enabled(w.d, Meaning(w, e, n).value)
  {
    hide Inv, D.Enabled;
    if e.Core? {
      ExchangeMeans(w, a, n, e);
    }
  }

  /** The relation reads the stacks and the owners of `a` and nothing else. */
  lemma SameRelated(d: D.State, a: CC.Abs, n: nat, x: CC.Action)
    requires Related(d, a, n) && (x.Silent? || x.Loads? || x.FoundEmpty?)
    ensures Related(d, CC.Advance(a, x), n)
  {
    hide StacksAgree, OwnersAgree;
  }

  lemma RelatedAfter(w: World, a: CC.Abs, e: Event, n: nat)
    requires Inv(w, a, n) && Enabled(w, e, n) && (e.Core? ==> CC.InWindow(w.cc, a, e.step))
    ensures Related(MeantAfter(w, e, n), AbsAfter(w, a, e, n), n)
  {
    assert |a.done| == |a.stacks|;
    hide CC.Sim, Related, WordsOk, ThreadsOk, Confined, D.Inv, D.Enabled, D.Next, CC.Run, CC.Outcome, CC.Replay, CC.History, CC.Legal, CC.Apply, CC.Observed, ActionOf, RealTransfer;
    if e.Local? {
      LocalRuns(w, a, n, e);
      EventIsLegal(w.d, e.event, a, n);
    } else if e.Core? {
      CoreRuns(w, a, n, e);
      if e.step.Exchange? {
        ExchangeMeans(w, a, n, e);
        EventIsLegal(w.d, Meaning(w, e, n).value, a, n);
      } else {
        QuietStep(w.cc, e.step);
        SameRelated(w.d, a, n, CC.Observed(w.cc, e.step));
      }
    } else {
      StoreRuns(w, a, n, e);
      SameRelated(w.d, a, n, CC.Silent);
    }
  }

  lemma QuietStep(s: CC.State, e: CC.Event)
    requires CC.Enabled(s, e) && !e.Exchange? && !e.Give?
    ensures var x := CC.Observed(s, e);
            x.Silent? || x.Loads? || x.FoundEmpty?
  {}

  lemma ThreadsAfter(w: World, a: CC.Abs, e: Event, n: nat)
    requires Inv(w, a, n) && Enabled(w, e, n) && (e.Core? ==> CC.InWindow(w.cc, a, e.step))
    ensures CC.Run(w.cc, a, Trace(w, e, n)) && CC.Outcome(w.cc, Trace(w, e, n)).mem == MemAfter(w, e, n)
    ensures ThreadsOk(Next(w, e, n), n)
  {
    hide Inv, ThreadsOk, D.Enabled, CC.Run, CC.Outcome, CC.Replay, CC.History, Trace, MemAfter;
    if e.Local? {
      LocalRuns(w, a, n, e);
      LocalThreads(w, a, e, n);
    } else if e.Core? {
      CoreRuns(w, a, n, e);
      if e.step.Exchange? {
        ExchangeMeans(w, a, n, e);
      }
      CoreThreads(w, a, e, n);
    } else {
      StoreRuns(w, a, n, e);
      StoreThreads(w, a, e, n);
    }
  }

  lemma MeantKeeps(w: World, a: CC.Abs, e: Event, n: nat)
    requires Inv(w, a, n) && Enabled(w, e, n)
    ensures D.Inv(MeantAfter(w, e, n)) && Confined(MeantAfter(w, e, n))
  {
    hide CC.Sim, Related, WordsOk, ThreadsOk, D.Inv, D.Enabled, D.Next, Confined;
    if Meaning(w, e, n).Some? {
      var m := Meaning(w, e, n).value;
      MeaningEnabled(w, a, e, n);
      D.StepKeeps(w.d, m);
      StaysConfined(w.d, m);
    }
  }

  lemma WordsFollow(w: World, a: CC.Abs, e: Event, n: nat)
    requires Inv(w, a, n) && Enabled(w, e, n) && CC.Outcome(w.cc, Trace(w, e, n)).mem == MemAfter(w, e, n)
    ensures WordsOk(Next(w, e, n))
  {
    assert Good(w) && ThreadsOk(w, n) && D.Inv(w.d);
    if Meaning(w, e, n).Some? {
      MeaningEnabled(w, a, e, n);
    }
    hide Inv, Good, D.Inv, ThreadsOk, D.Enabled, PlaceOk, MemAfter, MeantAfter, BinsAfter, PhasesAfter, Trace, Meaning, Enabled;
    StepWords(w, e, n);
  }

  /**
   Any step of the allocator, word by word, is a run of the core cache whose
   callers keep their promises, is the dispatcher's event it stands for, and
   keeps everything: memory spells out stacks, bins and chains, and every
   slot has one owner.
   */
  lemma StepKeeps(w: World, a: CC.Abs, e: Event, n: nat)
    requires Inv(w, a, n) && Enabled(w, e, n) && (e.Core? ==> CC.InWindow(w.cc, a, e.step))
    ensures CC.Run(w.cc, a, Trace(w, e, n))
    ensures Inv(Next(w, e, n), AbsAfter(w, a, e, n), n)
  {
    assert CC.Sim(w.cc, a);
    hide Inv;
    ThreadsAfter(w, a, e, n);
    CC.RunLinearizes(w.cc, a, Trace(w, e, n));
    RelatedAfter(w, a, e, n);
    MeantKeeps(w, a, e, n);
    WordsFollow(w, a, e, n);
    hide CC.Sim, Related, WordsOk, ThreadsOk, D.Inv, Confined, D.Enabled, D.Next, CC.Run, CC.Outcome, CC.Replay, CC.History, MeantAfter, BinsAfter, PhasesAfter, Trace, Enabled;
    Assemble(Next(w, e, n), AbsAfter(w, a, e, n), n);
  }

  lemma Assemble(w: World, a: CC.Abs, n: nat)
    requires CC.Sim(w.cc, a) && D.Inv(w.d) && Confined(w.d) && Related(w.d, a, n) && WordsOk(w) && ThreadsOk(w, n)
    ensures Inv(w, a, n)
  {}

  // ---------------------------------------------------------------------
  // Whole runs from the empty allocator
  // ---------------------------------------------------------------------

  /** A run in which no pop succeeds after being overtaken 65536 times or more. */
  ghost predicate Run(w: World, a: CC.Abs, es: seq<Event>, n: nat)
    decreases |es|
  {
    es == [] ||
    (Enabled(w, es[0], n) && (es[0].Core? ==> CC.InWindow(w.cc, a, es[0].step))
     && Run(Next(w, es[0], n), AbsAfter(w, a, es[0], n), es[1..], n))
  }

  ghost function Outcome(w: World, a: CC.Abs, es: seq<Event>, n: nat): World
    requires Run(w, a, es, n)
    decreases |es|
  {
    if es == [] then w else Outcome(Next(w, es[0], n), AbsAfter(w, a, es[0], n), es[1..], n)
  }

  ghost function AbsOutcome(w: World, a: CC.Abs, es: seq<Event>, n: nat): CC.Abs
    requires Run(w, a, es, n)
    decreases |es|
  {
    if es == [] then a else AbsOutcome(Next(w, es[0], n), AbsAfter(w, a, es[0], n), es[1..], n)
  }

  /** What the run does to the words. */
  ghost function Traces(w: World, a: CC.Abs, es: seq<Event>, n: nat): seq<CC.Event>
    requires Run(w, a, es, n)
    decreases |es|
  {
    if es == [] then [] else Trace(w, es[0], n) + Traces(Next(w, es[0], n), AbsAfter(w, a, es[0], n), es[1..], n)
  }

  /** What the run is to the dispatcher. */
  ghost function Meanings(w: World, a: CC.Abs, es: seq<Event>, n: nat): seq<D.Event>
    requires Run(w, a, es, n)
    decreases |es|
  {
    if es == [] then []
    else
      (match Meaning(w, es[0], n) case Some(m) => [m] case None => [])
      + Meanings(Next(w, es[0], n), AbsAfter(w, a, es[0], n), es[1..], n)
  }

  /** No page, no thread inside an operation, and every address still the pool's. */
  ghost function Start(n: nat): World {
    World(CC.State(seq(CORES * CLASSES, _ => 0), map[], seq(n + 2, _ => CC.Idle)), map[], map[], D.EMPTY)
  }

  ghost function StartAbs(n: nat): CC.Abs {
    var all := set x: nat | x < CC.PTR_SPACE && CC.GoodAddr(x);
    CC.Abs(seq(CORES * CLASSES, _ => []), seq(n + 2, q => if q == n + 1 then all else {}),
           seq(CORES * CLASSES, _ => 0), seq(n + 2, _ => 0))
  }

  lemma StartSims(n: nat)
    ensures CC.Sim(Start(n).cc, StartAbs(n))
  {
    var s, a := Start(n).cc, StartAbs(n);
    assert CC.Make(0, 0) == 0;
    assert forall t :: 0 <= t < n + 1 ==> a.owned[t] == {};
    assert CC.Places(a) by {
      assert forall i :: 0 <= i < |a.stacks| ==> a.stacks[i] == [];
    }
    forall i | 0 <= i < |s.heads|
      ensures CC.Spells(s.mem, s.heads[i], a.stacks[i], a.done[i])
    {
    }
  }

  lemma StartRelated(n: nat)
    ensures Related(D.EMPTY, StartAbs(n), n)
  {
    var a := StartAbs(n);
    forall q, x | 0 <= q < n + 2
      ensures x in a.owned[q] <==> CC.GoodAddr(x) && PartyOf(PlaceOf(map[], x), n) == q
    {
      assert PartyOf(PlaceOf(map[], x), n) == n + 1;
    }
  }

  lemma StartInv(n: nat)
    ensures Inv(Start(n), StartAbs(n), n)
  {
    StartSims(n);
    StartRelated(n);
    D.StartInv();
    hide CC.Sim, Related, D.Inv;
    assert ThreadsOk(Start(n), n);
    assert WordsOk(Start(n));
  }

  lemma {:induction false} RunKeeps(w: World, a: CC.Abs, es: seq<Event>, n: nat)
    requires Inv(w, a, n) && Run(w, a, es, n)
    ensures Inv(Outcome(w, a, es, n), AbsOutcome(w, a, es, n), n)
    decreases |es|
  {
    hide Inv, Enabled, Next, AbsAfter;
    if es != [] {
      StepKeeps(w, a, es[0], n);
      RunKeeps(Next(w, es[0], n), AbsAfter(w, a, es[0], n), es[1..], n);
    }
  }

  lemma {:induction false} RunReaches(s: CC.State, a: CC.Abs, es: seq<CC.Event>)
    requires CC.Run(s, a, es)
    ensures CC.Reaches(s, a, es, CC.Outcome(s, es), CC.Replay(a, CC.History(s, es)))
    decreases |es|
  {
    hide CC.Enabled, CC.Allowed, CC.InWindow, CC.Next, CC.Observed, CC.Advance;
    if es != [] {
      RunReaches(CC.Next(s, es[0]), CC.Advance(a, CC.Observed(s, es[0])), es[1..]);
      assert CC.History(s, es)[1..] == CC.History(CC.Next(s, es[0]), es[1..]);
    }
  }

  /**
   Refinement, both ways at once: a run of the whole allocator is one run of
   the core cache whose callers keep every promise, and one run of the
   dispatcher's abstract machine.
   */
  lemma {:induction false} RunRefines(w: World, a: CC.Abs, es: seq<Event>, n: nat)
    requires Inv(w, a, n) && Run(w, a, es, n)
    ensures CC.Reaches(w.cc, a, Traces(w, a, es, n), Outcome(w, a, es, n).cc, AbsOutcome(w, a, es, n))
    ensures D.Run(w.d, Meanings(w, a, es, n)) && D.Outcome(w.d, Meanings(w, a, es, n)) == Outcome(w, a, es, n).d
    decreases |es|
  {
    hide Inv, Enabled, CC.Reaches, D.Enabled, D.Next, Meaning, Trace, CC.Run, CC.Outcome, CC.Replay, CC.History, BinsAfter, PhasesAfter;
    if es == [] {
      CC.ReachesNow(w.cc, a);
    } else {
      var e := es[0];
      var w', a' := Next(w, e, n), AbsAfter(w, a, e, n);
      StepKeeps(w, a, e, n);
      RunReaches(w.cc, a, Trace(w, e, n));
      RunRefines(w', a', es[1..], n);
      CC.ReachesThen(w.cc, a, Trace(w, e, n), w'.cc, a', Traces(w', a', es[1..], n),
                     Outcome(w, a, es, n).cc, AbsOutcome(w, a, es, n));
      var rest := Meanings(w', a', es[1..], n);
      if Meaning(w, e, n).Some? {
        MeaningEnabled(w, a, e, n);
        assert ([Meaning(w, e, n).value] + rest)[1..] == rest;
      } else {
        assert [] + rest == rest;
      }
    }
  }

  // ---------------------------------------------------------------------
  // What the words say
  // ---------------------------------------------------------------------

  /** The word at which the list of a bin or of a stack starts. */
  ghost function FrontOf(w: World, p: D.Place): nat {
    match p
    case Bin(t, c) => HeadAt(w.bins, p)
    case Stack(cpu, c) =>
      if cpu < CORES && c < CLASSES && Ix(cpu, c) < |w.cc.heads| then CC.PtrOf(w.cc.heads[Ix(cpu, c)]) else 0
    case _ => 0
  }

  /** Slot `x` is what the machine finds after `k` steps along the list of `p`. */
  ghost predicate ReachedAt(w: World, p: D.Place, k: nat, x: nat) {
    x != 0 && Follow(w.cc.mem, FrontOf(w, p), k) == x
  }

  /** The words of the bins and stacks spell out what the dispatcher holds there. */
  lemma FrontIs(w: World, a: CC.Abs, n: nat, p: D.Place)
    requires Inv(w, a, n) && (p.Bin? || (p.Stack? && p.cpu < CORES && p.c < CLASSES))
    ensures Threaded(w.cc.mem, FrontOf(w, p), D.At(w.d.held, p))
    ensures forall x :: x in D.At(w.d.held, p) ==> x != 0
  {
    forall x | x in D.At(w.d.held, p)
      ensures x != 0
    {
      OwnsHeld(w, a, n, p, x);
    }
    if p.Bin? {
      assert PlaceOk(w.cc.mem, w.bins, w.phases, w.d.held, p);
    } else {
      var i := Ix(p.cpu, p.c);
      assert a.stacks[i] == D.At(w.d.held, p);
      CC.HeadEmpty(w.cc, a, i);
      assert CC.Spells(w.cc.mem, w.cc.heads[i], a.stacks[i], a.done[i]);
    }
  }

  lemma ReachedIsHeld(w: World, a: CC.Abs, n: nat, p: D.Place, k: nat, x: nat)
    requires Inv(w, a, n) && ReachedAt(w, p, k, x)
    ensures !p.User? && D.HeldAt(w.d, p, k, x)
  {
    hide Inv, Threaded;
    if p.Bin? || (p.Stack? && p.cpu < CORES && p.c < CLASSES) {
      FrontIs(w, a, n, p);
      var xs := D.At(w.d.held, p);
      assert forall j :: 0 <= j < |xs| ==> xs[j] in xs;
      WalkIs(w.cc.mem, FrontOf(w, p), xs, k);
    }
  }

  /**
   In every run of any number of threads from the empty allocator, whatever
   the interleaving and whatever the application writes to its objects: a
   slot found by walking the words of a bin or of a stack is in use, has the
   class of that list, is in nobody's hands, and is found at no other
   position of that list or of any other.
   */
  lemma NoSlotTwice(n: nat, es: seq<Event>, p: D.Place, k: nat, q: D.Place, l: nat, x: nat)
    requires Run(Start(n), StartAbs(n), es, n) && ReachedAt(Outcome(Start(n), StartAbs(n), es, n), p, k, x)
    ensures var w := Outcome(Start(n), StartAbs(n), es, n);
            && D.InUse(w.d.pages, x) && !p.User? && D.ClassAt(w.d.pages, x) == p.c
            && x !in D.At(w.d.held, D.User)
            && (ReachedAt(w, q, l, x) ==> p == q && k == l)
  {
    var w, a := Outcome(Start(n), StartAbs(n), es, n), AbsOutcome(Start(n), StartAbs(n), es, n);
    StartInv(n);
    RunKeeps(Start(n), StartAbs(n), es, n);
    hide Start, StartAbs, Run, Outcome, AbsOutcome, ReachedAt;
    ReachedIsHeld(w, a, n, p, k, x);
    assert D.Inv(w.d);
    if ReachedAt(w, q, l, x) {
      ReachedIsHeld(w, a, n, q, l, x);
    }
    hide Inv;
    D.OnePlace(w.d, p, k, q, l, x);
    hide D.PoolOk, D.InUse;
    assert x in D.At(w.d.held, p);
  }

  /** And in every such run no two objects of the application share a byte. */
  lemma ObjectsNeverOverlap(n: nat, es: seq<Event>, j: nat, k: nat)
    requires Run(Start(n), StartAbs(n), es, n) && j != k
    requires var w := Outcome(Start(n), StartAbs(n), es, n);
             j < |D.At(w.d.held, D.User)| && k < |D.At(w.d.held, D.User)|
    ensures var w := Outcome(Start(n), StartAbs(n), es, n);
            D.Apart(w.d.pages, D.At(w.d.held, D.User)[j], D.At(w.d.held, D.User)[k])
  {
    StartInv(n);
    RunKeeps(Start(n), StartAbs(n), es, n);
    hide Start, StartAbs, Run, Outcome, AbsOutcome, D.Inv, D.Apart;
    D.UsersApart(Outcome(Start(n), StartAbs(n), es, n).d, j, k);
  }
}
