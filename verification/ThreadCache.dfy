/**
 One thread's cache: per slab class a list of free slots, threaded through the
 slots' own first words, with a separate 16-bit count and an adaptive
 capacity; and per medium class a short list of buddy blocks with a fixed cap.
 */
module ThreadCache {
  import opened Basics
  import opened SizeClass
  import opened SlotLists
  import opened Refill

  const CAPACITY_MIN: nat := 16
  const CAPACITY_DEFAULT: nat := 64
  const CAPACITY_MAX: nat := 512
  const GC_INTERVAL: nat := 1024
  const MEDIUM_CLASSES: nat := 6
  const MEDIUM_CAPS: seq<nat> := [4, 4, 2, 2, 1, 1]

  // ---------------------------------------------------------------------
  // The capacity controller
  // ---------------------------------------------------------------------

  function Demand(allocs: nat, frees: nat): nat {
    if allocs > frees then allocs - frees else 0
  }

  function NextEma(ema: nat, allocs: nat, frees: nat): nat {
    var e := Ema(ema, Demand(allocs, frees));
    if e > 0xffff then 0xffff else e
  }

  function NextCapacity(ema: nat, overloaded: bool): nat {
    var cap := if overloaded then ema * 2 / 2 else ema * 2;
    if cap < CAPACITY_MIN then CAPACITY_MIN else if cap > CAPACITY_MAX then CAPACITY_MAX else cap
  }

  /** A bin grows with its demand, and an overloaded node never lets it grow further. */
  lemma CapacityFollowsDemand(e: nat, e': nat, overloaded: bool)
    requires e <= e'
    ensures CAPACITY_MIN <= NextCapacity(e, overloaded) <= NextCapacity(e', overloaded) <= CAPACITY_MAX
    ensures NextCapacity(e, true) <= NextCapacity(e, false)
  {}

  /** Twice the average, or the average itself on an overloaded node, brought into 16 to 512. */
  lemma CapacityIs(e: nat)
    ensures NextCapacity(e, false) == if e <= 8 then 16 else if e >= 256 then 512 else 2 * e
    ensures NextCapacity(e, true) == if e <= 16 then 16 else if e >= 512 then 512 else e
  {}

  /**
   The average after an interval lies between the old one and what the
   interval asked for beyond what came back, and never above 65535.
   */
  lemma EmaFollowsDemand(ema: nat, allocs: nat, frees: nat)
    requires ema <= 0xffff && allocs <= 0xffff
    ensures var d := if allocs <= frees then 0 else allocs - frees;
            var e := NextEma(ema, allocs, frees);
            && e <= 0xffff && (ema <= d ==> ema <= e <= d) && (d <= ema ==> d <= e <= ema)
            && 4 * e <= 3 * ema + d < 4 * e + 4
  {}

  /** What the controller works on. */
  datatype Control = Control(capacity: seq<nat>, allocs: seq<nat>, frees: seq<nat>, ema: seq<nat>,
                             countdown: nat, generation: nat)

  /** An operation either counts down or, at the end of an interval, resizes every bin. */
  ghost predicate Ticked(a: Control, b: Control, overloaded: bool) {
    && |a.allocs| == |a.frees| == |a.ema| == MEDIUM_FIRST
    && if a.countdown != 1 then b == a.(countdown := b.countdown) && b.countdown + 1 == a.countdown
       else
         && |b.capacity| == |b.allocs| == |b.frees| == |b.ema| == MEDIUM_FIRST
         && b.countdown == GC_INTERVAL && b.generation == a.generation + 1
         && (forall c :: 0 <= c < MEDIUM_FIRST ==>
               && b.ema[c] == NextEma(a.ema[c], a.allocs[c], a.frees[c])
               && b.capacity[c] == NextCapacity(b.ema[c], overloaded)
               && b.allocs[c] == 0 && b.frees[c] == 0)
  }

  // ---------------------------------------------------------------------
  // Bins as words
  // ---------------------------------------------------------------------

  type Bins = seq<seq<nat>>

  ghost predicate Nowhere(bins: Bins, x: nat) {
    forall c :: 0 <= c < |bins| ==> x !in bins[c]
  }

  /** Head words and first words spell out the bins, and no slot is listed twice. */
  ghost predicate Listed(mem: Memory, heads: seq<nat>, bins: Bins) {
    && |heads| == |bins| == MEDIUM_FIRST
    && (forall c :: 0 <= c < |bins| ==> Threaded(mem, heads[c], bins[c]) && Distinct(bins[c]) && 0 !in bins[c])
    && (forall c, d, x :: 0 <= c < |bins| && 0 <= d < |bins| && c != d && x in bins[c] ==> x !in bins[d])
  }

  lemma HeadIs(mem: Memory, heads: seq<nat>, bins: Bins, c: nat)
    requires Listed(mem, heads, bins) && c < MEDIUM_FIRST
    ensures heads[c] == First(bins[c]) && (heads[c] == 0 <==> bins[c] == [])
  {
    assert bins[c] != [] ==> bins[c][0] in bins[c];
  }

  lemma PopListed(mem: Memory, heads: seq<nat>, bins: Bins, c: nat)
    requires Listed(mem, heads, bins) && c < MEDIUM_FIRST && bins[c] != []
    ensures Listed(mem, heads[c := Word(mem, heads[c])], bins[c := bins[c][1..]])
    ensures Nowhere(bins[c := bins[c][1..]], bins[c][0]) && bins[c][0] > 0
  {
    var x := bins[c][0];
    PopList(mem, heads[c], bins[c]);
    assert x in bins[c];
    var rest := bins[c][1..];
    assert forall y :: y in rest ==> y in bins[c];
    assert x !in rest;
  }

  lemma PushListed(mem: Memory, heads: seq<nat>, bins: Bins, c: nat, x: nat)
    requires Listed(mem, heads, bins) && c < MEDIUM_FIRST && x > 0 && Nowhere(bins, x)
    ensures Listed(mem[x := heads[c]], heads[c := x], bins[c := [x] + bins[c]])
  {
    WriteListed(mem, heads, bins, x, heads[c]);
    PushList(mem, heads[c], bins[c], x);
    var longer := [x] + bins[c];
    assert forall y :: y in longer <==> y == x || y in bins[c];
  }

  /** Words of slots that are in no bin are none of the cache's business. */
  lemma WriteListed(mem: Memory, heads: seq<nat>, bins: Bins, x: nat, v: nat)
    requires Listed(mem, heads, bins) && Nowhere(bins, x)
    ensures Listed(mem[x := v], heads, bins)
  {
    forall c | 0 <= c < |bins|
      ensures Threaded(mem[x := v], heads[c], bins[c])
    {
      assert Threaded(mem, heads[c], bins[c]) && x !in bins[c];
    }
  }

  lemma NoChain(mem: Memory, bins: Bins)
    ensures Threaded(mem, 0, []) && Loose(mem, bins, [])
  {}

  lemma OneSlot(mem: Memory, bins: Bins, x: nat)
    requires x > 0 && Nowhere(bins, x)
    ensures Loose(mem, bins, [x]) && Tail([x]) == x
  {}

  lemma HeadNotNull(mem: Memory, bins: Bins, chain: seq<nat>)
    requires Loose(mem, bins, chain)
    ensures chain != [] ==> chain[0] != 0 && Tail(chain) != 0
  {
    assert chain != [] ==> chain[0] in chain && Tail(chain) in chain;
  }

  /** A slot just taken off its bin joins the chain. */
  lemma LinkSlot(mem: Memory, heads: seq<nat>, before: Bins, bins: Bins, c: nat, chain: seq<nat>, x: nat)
    requires Listed(mem, heads, bins) && c < |before| == |bins| && before[c] != [] && x == before[c][0] > 0
    requires bins == before[c := before[c][1..]] && Nowhere(bins, x) && chain != [] && Loose(mem, before, chain)
    ensures Listed(mem[Tail(chain) := x], heads, bins) && Loose(mem[Tail(chain) := x], bins, chain + [x])
    ensures Tail(chain + [x]) == x
  {
    assert Tail(chain) in chain && x in before[c];
    var rest := before[c][1..];
    assert forall y :: y in rest ==> y in before[c];
    forall y | y in chain
      ensures y != x && Nowhere(bins, y)
    {
      assert y !in before[c];
      forall d | 0 <= d < |bins|
        ensures y !in bins[d]
      {
        assert y !in before[d];
      }
    }
    WriteListed(mem, heads, bins, Tail(chain), x);
    ChainGrows(mem, chain, x);
    var longer := chain + [x];
    assert forall y :: y in longer <==> y in chain || y == x;
  }

  lemma EndChain(mem: Memory, heads: seq<nat>, bins: Bins, chain: seq<nat>)
    requires Listed(mem, heads, bins) && chain != [] && Loose(mem, bins, chain)
    ensures Listed(mem[Tail(chain) := 0], heads, bins)
    ensures Threaded(mem[Tail(chain) := 0], chain[0], chain) && Loose(mem[Tail(chain) := 0], bins, chain)
  {
    assert Tail(chain) in chain;
    WriteListed(mem, heads, bins, Tail(chain), 0);
    ChainEnds(mem, chain);
  }

  /** What callers hand over as a chain: linked, of distinct slots that are in no bin. */
  ghost predicate Loose(mem: Memory, bins: Bins, chain: seq<nat>) {
    && Linked(mem, chain) && Distinct(chain) && 0 !in chain
    && (forall x :: x in chain ==> Nowhere(bins, x))
  }

  lemma SpliceListed(mem: Memory, heads: seq<nat>, bins: Bins, c: nat, chain: seq<nat>)
    requires Listed(mem, heads, bins) && c < MEDIUM_FIRST && chain != [] && Loose(mem, bins, chain)
    ensures Listed(mem[Tail(chain) := heads[c]], heads[c := chain[0]], bins[c := chain + bins[c]])
  {
    assert Tail(chain) in chain;
    WriteListed(mem, heads, bins, Tail(chain), heads[c]);
    SpliceList(mem, heads[c], bins[c], chain);
    var all := chain + bins[c];
    assert forall y :: y in all <==> y in chain || y in bins[c];
    assert Distinct(all) by {
      forall j, k | 0 <= j < k < |all|
        ensures all[j] != all[k]
      {
        if j < |chain| <= k {
          assert all[j] in chain && all[k] in bins[c];
        }
      }
    }
  }

  /** One more slot at the end of a chain on its way out of a bin. */
  lemma ChainGrows(mem: Memory, chain: seq<nat>, x: nat)
    requires Linked(mem, chain) && Distinct(chain) && chain != [] && x !in chain
    ensures Linked(mem[Tail(chain) := x], chain + [x]) && Distinct(chain + [x])
  {}

  lemma ChainEnds(mem: Memory, chain: seq<nat>)
    requires Linked(mem, chain) && Distinct(chain) && chain != []
    ensures Threaded(mem[Tail(chain) := 0], chain[0], chain)
  {}

  // ---------------------------------------------------------------------
  // The cache
  // ---------------------------------------------------------------------

  class Cache {
    var heads: seq<nat>
    var mem: Memory
    ghost var bins: Bins
    var count: seq<nat>
    var capacity: seq<nat>
    var allocs: seq<nat>
    var frees: seq<nat>
    var ema: seq<nat>
    var countdown: nat
    var generation: nat
    var mediumBins: seq<seq<nat>>
    var mediumCount: seq<nat>

    ghost function Controls(): Control
      reads this
    {
      Control(capacity, allocs, frees, ema, countdown, generation)
    }

    /** Lengths of the per-class arrays, and what never overflows 16 bits. */
    ghost predicate Shape()
      reads this
    {
      && |heads| == |bins| == |count| == |capacity| == |allocs| == |frees| == |ema| == MEDIUM_FIRST
      && 1 <= countdown <= GC_INTERVAL
      && (forall c :: 0 <= c < MEDIUM_FIRST ==>
            && CAPACITY_MIN <= capacity[c] <= CAPACITY_MAX
            && allocs[c] + frees[c] + countdown <= GC_INTERVAL
            && ema[c] <= GC_INTERVAL)
      && |mediumBins| == |mediumCount| == MEDIUM_CLASSES
      && (forall m :: 0 <= m < MEDIUM_CLASSES ==> mediumCount[m] == |mediumBins[m]| <= MEDIUM_CAPS[m])
    }

    ghost predicate Counted()
      reads this
    {
      Shape() && Listed(mem, heads, bins) && forall c :: 0 <= c < MEDIUM_FIRST ==> count[c] == |bins[c]| < 0x1_0000
    }

    /** Between operations: counts are right and no bin holds more than 511 slots. */
    ghost predicate Valid()
      reads this
    {
      Counted() && forall c :: 0 <= c < MEDIUM_FIRST ==> |bins[c]| < CAPACITY_MAX
    }

    constructor ()
      ensures Valid() && forall c :: 0 <= c < MEDIUM_FIRST ==> bins[c] == [] && capacity[c] == CAPACITY_DEFAULT
    {
      heads, mem, bins := seq(MEDIUM_FIRST, _ => 0), map[], seq(MEDIUM_FIRST, _ => []);
      count := seq(MEDIUM_FIRST, _ => 0);
      capacity := seq(MEDIUM_FIRST, _ => CAPACITY_DEFAULT);
      allocs := seq(MEDIUM_FIRST, _ => 0);
      frees := seq(MEDIUM_FIRST, _ => 0);
      ema := seq(MEDIUM_FIRST, _ => 0);
      countdown, generation := GC_INTERVAL, 0;
      mediumBins := seq(MEDIUM_CLASSES, _ => []);
      mediumCount := seq(MEDIUM_CLASSES, _ => 0);
    }

    /** Recomputes every capacity from the demand of the last interval. */
    method GcTick(overloaded: bool)
      requires |capacity| == |allocs| == |frees| == |ema| == MEDIUM_FIRST
      requires forall c :: 0 <= c < MEDIUM_FIRST ==> ema[c] <= GC_INTERVAL && allocs[c] + frees[c] <= GC_INTERVAL
      modifies this`capacity, this`allocs, this`frees, this`ema, this`countdown, this`generation
      ensures |capacity| == |allocs| == |frees| == |ema| == MEDIUM_FIRST
      ensures forall c :: 0 <= c < MEDIUM_FIRST ==>
        && ema[c] == NextEma(old(ema[c]), old(allocs[c]), old(frees[c])) <= GC_INTERVAL
        && capacity[c] == NextCapacity(ema[c], overloaded)
        && allocs[c] == 0 && frees[c] == 0
      ensures countdown == GC_INTERVAL && generation == old(generation) + 1
    {
      var c := 0;
      while c < MEDIUM_FIRST
        invariant 0 <= c <= MEDIUM_FIRST
        invariant |capacity| == |allocs| == |frees| == |ema| == MEDIUM_FIRST && generation == old(generation)
        invariant forall d :: 0 <= d < c ==>
          && ema[d] == NextEma(old(ema[d]), old(allocs[d]), old(frees[d])) <= GC_INTERVAL
          && capacity[d] == NextCapacity(ema[d], overloaded)
          && allocs[d] == 0 && frees[d] == 0
        invariant forall d :: c <= d < MEDIUM_FIRST ==>
          ema[d] == old(ema[d]) && allocs[d] == old(allocs[d]) && frees[d] == old(frees[d])
      {
        var e := NextEma(ema[c], allocs[c], frees[c]);
        ema := ema[c := e];
        capacity := capacity[c := NextCapacity(e, overloaded)];
        allocs := allocs[c := 0];
        frees := frees[c := 0];
        c := c + 1;
      }
      generation := generation + 1;
      countdown := GC_INTERVAL;
    }

    method Tick(overloaded: bool)
      requires |capacity| == |allocs| == |frees| == |ema| == MEDIUM_FIRST && 1 <= countdown <= GC_INTERVAL
      requires forall c :: 0 <= c < MEDIUM_FIRST ==>
        && CAPACITY_MIN <= capacity[c] <= CAPACITY_MAX && ema[c] <= GC_INTERVAL
        && allocs[c] + frees[c] + (countdown - 1) <= GC_INTERVAL
      requires |mediumBins| == |mediumCount| == MEDIUM_CLASSES && |heads| == |bins| == |count| == MEDIUM_FIRST
      requires forall m :: 0 <= m < MEDIUM_CLASSES ==> mediumCount[m] == |mediumBins[m]| <= MEDIUM_CAPS[m]
      modifies this`capacity, this`allocs, this`frees, this`ema, this`countdown, this`generation
      ensures Shape() && Ticked(old(Controls()), Controls(), overloaded)
    {
      countdown := countdown - 1;
      if countdown == 0 {
        GcTick(overloaded);
      }
    }

    /** Takes the newest slot of a bin. */
    method Pop(c: nat, overloaded: bool) returns (obj: Option<nat>)
      requires Counted()
      modifies this
      ensures Counted() && mediumBins == old(mediumBins) && mem == old(mem)
      ensures obj.None? <==> c >= MEDIUM_FIRST || old(bins[c]) == []
      ensures obj.None? ==> bins == old(bins) && Controls() == old(Controls())
      ensures obj.Some? ==> obj.value == old(bins[c])[0] && bins == old(bins)[c := old(bins[c])[1..]]
      ensures obj.Some? ==> obj.value > 0 && Nowhere(bins, obj.value)
      ensures obj.Some? ==>
        Ticked(old(Controls()).(allocs := old(allocs)[c := old(allocs[c]) + 1]), Controls(), overloaded)
    {
      hide Listed, Nowhere, Ticked, Word;
      if c >= MEDIUM_FIRST {
        return None;
      }
      HeadIs(mem, heads, bins, c);
      var head := heads[c];
      if head == 0 {
        return None;
      }
      PopListed(mem, heads, bins, c);
      obj := Some(head);
      heads := heads[c := Word(mem, head)];
      bins := bins[c := bins[c][1..]];
      count := count[c := count[c] - 1];
      allocs := allocs[c := allocs[c] + 1];
      Tick(overloaded);
    }

    /** Puts a slot on its bin; true when the bin has reached the capacity in force after the tick. */
    method Push(c: nat, obj: nat, overloaded: bool) returns (full: bool)
      requires Counted() && (c < MEDIUM_FIRST && obj != 0 ==> |bins[c]| + 1 < 0x1_0000 && Nowhere(bins, obj))
      modifies this
      ensures Counted() && mediumBins == old(mediumBins)
      ensures c >= MEDIUM_FIRST || obj == 0 ==> !full && bins == old(bins) && mem == old(mem) && Controls() == old(Controls())
      ensures c < MEDIUM_FIRST && obj != 0 ==>
        && bins == old(bins)[c := [obj] + old(bins[c])] && mem == old(mem)[obj := First(old(bins[c]))]
        && (full <==> |bins[c]| >= capacity[c])
        && Ticked(old(Controls()).(frees := old(frees)[c := old(frees[c]) + 1]), Controls(), overloaded)
    {
      hide Listed, Nowhere;
      if c >= MEDIUM_FIRST || obj == 0 {
        return false;
      }
      HeadIs(mem, heads, bins, c);
      PushListed(mem, heads, bins, c, obj);
      mem := mem[obj := heads[c]];
      heads := heads[c := obj];
      bins := bins[c := [obj] + bins[c]];
      count := count[c := count[c] + 1];
      frees := frees[c := frees[c] + 1];
      Tick(overloaded);
      full := count[c] >= capacity[c];
    }

    /** Takes the newer half of a bin, rounded up, slot by slot, to be freed to the pool. */
    method FlushHalf(c: nat) returns (freed: seq<nat>)
      requires Counted()
      modifies this`heads, this`bins, this`count
      ensures Counted()
      ensures c >= MEDIUM_FIRST ==> freed == [] && bins == old(bins)
      ensures c < MEDIUM_FIRST ==>
        var n := (|old(bins[c])| + 1) / 2;
        freed == old(bins[c])[..n] && bins == old(bins)[c := old(bins[c])[n..]]
    {
      hide Listed;
      freed := [];
      if c >= MEDIUM_FIRST {
        return;
      }
      var flush := (count[c] + 1) / 2;
      var i := 0;
      while i < flush
        invariant 0 <= i <= flush <= |old(bins[c])|
        invariant Counted()
        invariant freed == old(bins[c])[..i] && bins == old(bins)[c := old(bins[c])[i..]]
      {
        HeadIs(mem, heads, bins, c);
        PopListed(mem, heads, bins, c);
        var obj := heads[c];
        freed := freed + [obj];
        heads := heads[c := Word(mem, obj)];
        bins := bins[c := bins[c][1..]];
        count := count[c := count[c] - 1];
        i := i + 1;
      }
    }

    /** Half by half until every bin is empty; what comes out is each bin in order. */
    method DrainAll() returns (freed: seq<nat>)
      requires Counted()
      modifies this`heads, this`bins, this`count
      ensures Counted()
      ensures forall c :: 0 <= c < MEDIUM_FIRST ==> heads[c] == 0 && bins[c] == [] && count[c] == 0
      ensures freed == Joined(old(bins), MEDIUM_FIRST)
    {
      hide Listed;
      freed := [];
      var c := 0;
      while c < MEDIUM_FIRST
        invariant 0 <= c <= MEDIUM_FIRST && Counted()
        invariant forall d :: 0 <= d < c ==> bins[d] == []
        invariant forall d :: c <= d < MEDIUM_FIRST ==> bins[d] == old(bins)[d]
        invariant |old(bins)| == MEDIUM_FIRST && freed == Joined(old(bins), c)
      {
        HeadIs(mem, heads, bins, c);
        while heads[c] != 0
          invariant Counted() && heads[c] == First(bins[c]) && (heads[c] == 0 <==> bins[c] == [])
          invariant forall d :: 0 <= d < c ==> bins[d] == []
          invariant forall d :: c < d < MEDIUM_FIRST ==> bins[d] == old(bins)[d]
          invariant freed + bins[c] == Joined(old(bins), c) + old(bins)[c]
          decreases |bins[c]|
        {
          ghost var before := bins[c];
          var half := FlushHalf(c);
          assert before == half + bins[c];
          freed := freed + half;
          HeadIs(mem, heads, bins, c);
        }
        c := c + 1;
      }
      forall d | 0 <= d < MEDIUM_FIRST
        ensures heads[d] == 0
      {
        HeadIs(mem, heads, bins, d);
      }
    }

    /** Takes up to `n` slots of a bin, linking each to the next; the last word is left as it was. */
    method GatherChain(c: nat, n: nat, overloaded: seq<bool>) returns (head: nat, tail: nat, got: nat, ghost chain: seq<nat>)
      requires Counted() && |overloaded| >= n > 0 && c < MEDIUM_FIRST
      modifies this
      ensures Counted() && mediumBins == old(mediumBins)
      ensures var m := if n < |old(bins[c])| then n else |old(bins[c])|;
              chain == old(bins[c])[..m] && bins == old(bins)[c := old(bins[c])[m..]]
      ensures got == |chain| && head == First(chain) && tail == (if chain == [] then 0 else Tail(chain)) && Loose(mem, bins, chain)
    {
      hide Listed, Loose, Nowhere, Ticked;
      head, tail, got, chain := 0, 0, 0, [];
      NoChain(mem, bins);
      var first := Pop(c, overloaded[0]);
      if first.None? {
        return;
      }
      head, tail, got, chain := first.value, first.value, 1, [first.value];
      OneSlot(mem, bins, head);
      while got < n
        invariant 1 <= got == |chain| <= n && got <= |old(bins[c])| && Counted() && mediumBins == old(mediumBins)
        invariant chain == old(bins[c])[..got] && bins == old(bins)[c := old(bins[c])[got..]]
        invariant head == chain[0] && tail == Tail(chain) && Loose(mem, bins, chain)
        decreases n - got
      {
        ghost var before := bins;
        var node := Pop(c, overloaded[got]);
        if node.None? {
          break;
        }
        LinkSlot(mem, heads, before, bins, c, chain, node.value);
        mem := mem[tail := node.value];
        tail := node.value;
        got := got + 1;
        chain := chain + [node.value];
      }
    }

    /**
     Takes up to `n` slots of a bin as a chain, newest first, linked through
     their first words and ended by NULL.
     */
    method DrainChain(c: nat, n: nat, overloaded: seq<bool>) returns (head: nat, tail: nat, got: nat, ghost chain: seq<nat>)
      requires Counted() && |overloaded| >= n
      modifies this
      ensures Counted() && mediumBins == old(mediumBins)
      ensures c >= MEDIUM_FIRST ==> chain == [] && bins == old(bins)
      ensures c < MEDIUM_FIRST ==>
        var m := if n < |old(bins[c])| then n else |old(bins[c])|;
        chain == old(bins[c])[..m] && bins == old(bins)[c := old(bins[c])[m..]]
      ensures got == |chain| && tail == (if chain == [] then 0 else Tail(chain))
      ensures Threaded(mem, head, chain) && Loose(mem, bins, chain)
    {
      hide Listed, Loose, Threaded;
      head, tail, got, chain := 0, 0, 0, [];
      NoChain(mem, bins);
      if c >= MEDIUM_FIRST || n == 0 {
        assert c < MEDIUM_FIRST ==> bins[c][0..] == bins[c] && bins[c := bins[c]] == bins;
        return;
      }
      head, tail, got, chain := GatherChain(c, n, overloaded);
      if got == 0 {
        NoChain(mem, bins);
        return;
      }
      EndChain(mem, heads, bins, chain);
      mem := mem[tail := 0];
    }

    /** Splices a chain in front of a bin. */
    method InstallChain(c: nat, head: nat, tail: nat, n: nat, ghost chain: seq<nat>)
      requires Counted() && n == |chain| && head == First(chain) && tail == (if chain == [] then 0 else Tail(chain))
      requires c < MEDIUM_FIRST ==> |bins[c]| + n < 0x1_0000 && Loose(mem, bins, chain)
      modifies this`heads, this`mem, this`bins, this`count
      ensures Counted()
      ensures c >= MEDIUM_FIRST || chain == [] ==> bins == old(bins) && mem == old(mem)
      ensures c < MEDIUM_FIRST ==> bins == old(bins)[c := chain + old(bins[c])]
    {
      hide Listed, Nowhere;
      if c >= MEDIUM_FIRST || head == 0 || tail == 0 || n == 0 {
        if c < MEDIUM_FIRST {
          HeadNotNull(mem, bins, chain);
          assert [] + bins[c] == bins[c];
          assert bins[c := bins[c]] == bins;
        }
        return;
      }
      SpliceListed(mem, heads, bins, c, chain);
      mem := mem[tail := heads[c]];
      heads := heads[c := head];
      bins := bins[c := chain + bins[c]];
      count := count[c := (count[c] + n) % 0x1_0000];
    }

    /** The free fast path: it declines when the push would fill the bin. */
    method FreeFast(c: nat, obj: nat, overloaded: bool) returns (taken: bool)
      requires Valid() && c < MEDIUM_FIRST && obj > 0 && Nowhere(bins, obj)
      modifies this
      ensures Valid() && mediumBins == old(mediumBins)
      ensures taken <==> |old(bins[c])| + 1 < old(capacity[c])
      ensures bins == if taken then old(bins)[c := [obj] + old(bins[c])] else old(bins)
      ensures !taken ==> Controls() == old(Controls())
    {
      hide Listed, Nowhere;
      if count[c] + 1 < capacity[c] {
        var _ := Push(c, obj, overloaded);
        return true;
      }
      return false;
    }

    /**
     The free slow path: push, and on overflow take a batch off again for the
     core cache. However the capacity moved in between, at most 511 remain.
     */
    method FreeSlow(c: nat, obj: nat, batch: nat, overloaded: seq<bool>)
      returns (head: nat, tail: nat, ghost chain: seq<nat>, ghost pushed: Control)
      requires Valid() && c < MEDIUM_FIRST && BATCH_MIN <= batch <= BATCH_MAX && |overloaded| > batch
      requires obj > 0 && Nowhere(bins, obj)
      modifies this
      ensures Valid() && mediumBins == old(mediumBins)
      ensures Ticked(old(Controls()).(frees := old(frees)[c := old(frees[c]) + 1]), pushed, overloaded[batch])
      ensures |pushed.capacity| == MEDIUM_FIRST
      ensures chain + bins[c] == [obj] + old(bins[c])
      ensures |chain| == if |old(bins[c])| + 1 < pushed.capacity[c] then 0
                         else if |old(bins[c])| + 1 < batch then |old(bins[c])| + 1 else batch
      ensures tail == (if chain == [] then 0 else Tail(chain)) && Threaded(mem, head, chain) && Loose(mem, bins, chain)
      ensures forall d :: 0 <= d < MEDIUM_FIRST && d != c ==> bins[d] == old(bins[d])
    {
      hide Listed, Nowhere, Linked, Distinct, Ticked;
      head, tail, chain := 0, 0, [];
      var full := Push(c, obj, overloaded[batch]);
      pushed := Controls();
      NoChain(mem, bins);
      if full {
        var got;
        head, tail, got, chain := DrainChain(c, batch, overloaded);
      }
    }

    /** A miss: a chain of at most one batch goes into the empty bin and its head is served. */
    method Refill(c: nat, head: nat, tail: nat, n: nat, ghost chain: seq<nat>, overloaded: bool) returns (obj: Option<nat>)
      requires Valid() && c < MEDIUM_FIRST && bins[c] == [] && n == |chain| <= BATCH_MAX
      requires head == First(chain) && tail == (if chain == [] then 0 else Tail(chain)) && Loose(mem, bins, chain)
      modifies this
      ensures Valid() && mediumBins == old(mediumBins)
      ensures obj == if chain == [] then None else Some(chain[0])
      ensures bins == old(bins)[c := if chain == [] then [] else chain[1..]]
    {
      hide Listed, Nowhere, Linked, Distinct;
      assert chain + [] == chain;
      InstallChain(c, head, tail, n, chain);
      assert bins[c] == chain;
      obj := Pop(c, overloaded);
    }

    // -------------------------------------------------------------------
    // Medium classes
    // -------------------------------------------------------------------

    method MediumAlloc(c: nat) returns (obj: Option<nat>)
      requires Valid()
      modifies this`mediumBins, this`mediumCount
      ensures Valid()
      ensures obj.None? <==> !(MEDIUM_FIRST <= c < MEDIUM_FIRST + MEDIUM_CLASSES) || old(mediumBins[c - MEDIUM_FIRST]) == []
      ensures obj.None? ==> mediumBins == old(mediumBins)
      ensures obj.Some? ==>
        var m := c - MEDIUM_FIRST;
        obj.value == old(mediumBins[m])[0] && mediumBins == old(mediumBins)[m := old(mediumBins[m])[1..]]
    {
      if c < MEDIUM_FIRST || c >= MEDIUM_FIRST + MEDIUM_CLASSES {
        return None;
      }
      var m := c - MEDIUM_FIRST;
      if mediumBins[m] == [] {
        return None;
      }
      obj := Some(mediumBins[m][0]);
      mediumBins := mediumBins[m := mediumBins[m][1..]];
      mediumCount := mediumCount[m := mediumCount[m] - 1];
    }

    /** True when the block is not taken and has to go back to the buddy pool. */
    method MediumFree(c: nat, obj: nat) returns (declined: bool)
      requires Valid()
      modifies this`mediumBins, this`mediumCount
      ensures Valid()
      ensures !declined <==>
        MEDIUM_FIRST <= c < MEDIUM_FIRST + MEDIUM_CLASSES
        && |old(mediumBins[c - MEDIUM_FIRST])| < MEDIUM_CAPS[c - MEDIUM_FIRST]
      ensures declined ==> mediumBins == old(mediumBins)
      ensures !declined ==>
        mediumBins == old(mediumBins)[c - MEDIUM_FIRST := [obj] + old(mediumBins[c - MEDIUM_FIRST])]
    {
      if c < MEDIUM_FIRST || c >= MEDIUM_FIRST + MEDIUM_CLASSES {
        return true;
      }
      var m := c - MEDIUM_FIRST;
      if mediumCount[m] >= MEDIUM_CAPS[m] {
        return true;
      }
      mediumBins := mediumBins[m := [obj] + mediumBins[m]];
      mediumCount := mediumCount[m := mediumCount[m] + 1];
      return false;
    }

    method DrainMedium() returns (freed: seq<nat>)
      requires Valid()
      modifies this`mediumBins, this`mediumCount
      ensures Valid()
      ensures forall m :: 0 <= m < MEDIUM_CLASSES ==> mediumBins[m] == []
      ensures freed == Joined(old(mediumBins), MEDIUM_CLASSES)
    {
      freed := [];
      var m := 0;
      while m < MEDIUM_CLASSES
        invariant 0 <= m <= MEDIUM_CLASSES && Valid()
        invariant forall k :: 0 <= k < m ==> mediumBins[k] == []
        invariant forall k :: m <= k < MEDIUM_CLASSES ==> mediumBins[k] == old(mediumBins)[k]
        invariant freed == Joined(old(mediumBins), m)
      {
        freed := freed + mediumBins[m];
        mediumBins := mediumBins[m := []];
        mediumCount := mediumCount[m := 0];
        m := m + 1;
      }
    }
  }

  /** The first `n` lists, one after the other. */
  function Joined(lists: seq<seq<nat>>, n: nat): seq<nat>
    requires n <= |lists|
  {
    if n == 0 then [] else Joined(lists, n - 1) + lists[n - 1]
  }
}
