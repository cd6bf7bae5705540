/**
 Small slab pages: free slots form a singly linked list through the first
 word of each slot. Slots in use belong to the user, whose writes may leave
 anything in those words.
 */
module SmallSlab {
  import opened Basics
  import opened SizeClass
  import opened Slab

  const NULL: int := -1

  /** The list from `head` runs through exactly these slots and ends in NULL. */
  ghost predicate Chain(links: seq<int>, head: int, free: seq<nat>) {
    && Distinct(free)
    && (forall k :: 0 <= k < |free| ==> free[k] < |links|)
    && head == (if free == [] then NULL else free[0])
    && (forall j, k :: 0 <= j < |free| && k == j + 1 && k < |free| ==> links[free[j]] == free[k])
    && (free != [] ==> links[free[|free| - 1]] == NULL)
  }

  lemma ChainNil(links: seq<int>)
    ensures Chain(links, NULL, [])
  {}

  lemma ChainPop(links: seq<int>, head: int, free: seq<nat>)
    requires Chain(links, head, free) && free != []
    ensures Chain(links, links[free[0]], free[1..])
  {}

  lemma ChainWrite(links: seq<int>, head: int, free: seq<nat>, i: nat, v: int)
    requires Chain(links, head, free) && i < |links| && i !in free
    ensures Chain(links[i := v], head, free)
  {}

  lemma ChainPush(links: seq<int>, head: int, free: seq<nat>, i: nat)
    requires Chain(links, head, free) && i < |links| && i !in free
    ensures Chain(links[i := head], i, [i] + free)
  {}

  class SmallSlab {
    const base: nat
    const cls: nat
    const objectSize: nat
    const capacity: nat
    var used: nat
    var head: int
    var links: seq<int>
    ghost var free: seq<nat>

    ghost predicate Valid()
      reads this
    {
      && SMALL_FIRST <= cls < MEDIUM_FIRST && objectSize == SizeOf(cls) && capacity == SmallCapacity(objectSize)
      && |links| == capacity && Chain(links, head, free)
      && used + |free| == capacity
    }

    ghost function View(): Page
      reads this
    {
      Page(cls, capacity, free)
    }

    /** Links the slots from the last to the first. */
    constructor (base: nat, cls: nat)
      requires SMALL_FIRST <= cls < MEDIUM_FIRST
      ensures Valid() && View() == Fresh(cls) && this.base == base && this.cls == cls
    {
      hide Chain, SizeOf, SmallCapacity;
      var size := SizeOf(cls);
      var n := SmallCapacity(size);
      this.base, this.cls, objectSize, capacity := base, cls, size, n;
      used := 0;
      var words: seq<int> := seq(n, _ => 0);
      var top := NULL;
      ghost var slots: seq<nat> := [];
      ChainNil(words);
      var i := n;
      while i > 0
        invariant 0 <= i <= n == |words|
        invariant slots == seq(n - i, k requires 0 <= k => i + k)
        invariant Chain(words, top, slots)
      {
        var slot := i - 1;
        ChainPush(words, top, slots, slot);
        words := words[slot := top];
        top := slot;
        slots := [slot] + slots;
        i := i - 1;
      }
      links, head, free := words, top, slots;
    }

    function Address(slot: nat): nat {
      base + SmallOffset(objectSize) + slot * objectSize
    }

    /** Hands out the slot freed last. */
    method Alloc() returns (obj: Option<nat>)
      requires Valid()
      modifies this
      ensures Valid() && links == old(links)
      ensures obj.None? <==> old(free) == []
      ensures obj.None? ==> View() == old(View())
      ensures obj.Some? ==> View() == Take(old(View())) && obj == Some(Address(old(free)[0]))
    {
      if head == NULL {
        return None;
      }
      ChainPop(links, head, free);
      obj := Some(Address(head));
      head := links[head];
      free := free[1..];
      used := used + 1;
    }

    method Release(obj: nat, ghost issued: nat) returns (empty: bool)
      requires Valid() && issued < capacity && issued !in free && obj == Address(issued)
      modifies this
      ensures Valid() && View() == Put(old(View()), issued)
      ensures empty <==> used == 0
    {
      var slot := (obj - base - SmallOffset(objectSize)) / objectSize;
      SlabSizes(cls);
      SlotRecovered(objectSize, issued, 0);
      ChainPush(links, head, free, slot);
      FewerFree(free, slot, capacity);
      links := links[slot := head];
      head := slot;
      free := [slot] + free;
      var previous := used;
      used := used - 1;
      empty := previous == 1;
    }

    /** Whatever the user stores in a slot it holds, the free list stands. */
    method Scribble(slot: nat, value: int)
      requires Valid() && slot < capacity && slot !in free
      modifies this
      ensures Valid() && View() == old(View()) && links == old(links)[slot := value]
    {
      ChainWrite(links, head, free, slot, value);
      links := links[slot := value];
    }
  }
}
