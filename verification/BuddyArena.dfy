/**
 One buddy arena: the struct v8m_buddy with its in-block list words, and the
 operations on it.
 */
module BuddyArena {
  import opened Basics
  import opened Bits
  import opened BuddyTree
  import opened FreeLists
  import opened FreePairs

  // ---------------------------------------------------------------------
  // Sizes and levels
  // ---------------------------------------------------------------------

  function SizeToLevel(size: nat): nat {
    if size <= MIN_BLOCK then 0
    else
      var shift := Msb(size - 1) + 1;
      if shift < 12 then 0 else shift - 12
  }

  lemma {:induction false} MsbBlock(n: nat, l: nat)
    requires n > 0
    ensures Msb(n) < 12 + l <==> n < BlockSize(l)
    decreases l
  {
    if l == 0 {
      MsbSmall(n, 12, 4096);
    } else if n > 1 {
      MsbBlock(n / 2, l - 1);
    } else {
      MinIsLeast(l);
    }
  }

  lemma {:induction false} MsbSmall(n: nat, k: nat, bound: nat)
    requires n > 0 && bound == Shl(1, k)
    ensures Msb(n) < k <==> n < bound
    decreases k
  {
    if k > 0 {
      ShlStep(1, k - 1);
      MinIsLeast(k - 1);
      if n > 1 {
        MsbSmall(n / 2, k - 1, Shl(1, k - 1));
      }
    }
  }

  /** The level of a request is the smallest whose blocks can hold it. */
  lemma SizeToLevelIsLeast(size: nat, l: nat)
    ensures SizeToLevel(size) <= l <==> size <= BlockSize(l)
  {
    if size > MIN_BLOCK {
      MsbBlock(size - 1, l);
      MsbBlock(size - 1, 0);
    } else {
      MinIsLeast(l);
    }
  }

  lemma {:induction false} MinIsLeast(l: nat)
    ensures MIN_BLOCK <= BlockSize(l)
  {
    if l > 0 {
      MinIsLeast(l - 1);
    }
  }

  lemma TopIsMax(size: nat)
    ensures SizeToLevel(size) < LEVELS <==> size <= MAX_BLOCK
  {
    SizeToLevelIsLeast(size, TOP);
    assert BlockSize(6) == 8 * BlockSize(3) && BlockSize(3) == 8 * BlockSize(0);
  }

  // ---------------------------------------------------------------------
  // What splitting down leaves behind
  // ---------------------------------------------------------------------

  /** The blocks around page `p` at levels above `t` up to `l` became split. */
  ghost predicate SplitDown(split0: Bitmaps, split: Bitmaps, p: nat, t: nat, l: nat) {
    forall m :: 0 <= m <= TOP ==> split[m] == split0[m] + if t < m <= l then {Shr(p, m)} else {}
  }

  /** Level `l` lost its first node; each level from `t` up to it gained the right half. */
  ghost predicate ListsDown(lists0: Lists, lists: Lists, p: nat, t: nat, l: nat) {
    forall m :: 0 <= m <= TOP ==>
        lists[m] == if m == l && lists0[l] != [] then lists0[l][1..]
                    else if t <= m < l then [Shl(Shr(p, m) + 1, m)] + lists0[m]
                    else lists0[m]
  }

  lemma SplitDownStep(split0: Bitmaps, split: Bitmaps, p: nat, t: nat, l: nat)
    requires 0 < t <= l <= TOP && SplitDown(split0, split, p, t, l)
    ensures SplitDown(split0, Set(split, t, Shr(p, t)), p, t - 1, l)
  {}

  lemma DownStart(lists0: Lists, split: Bitmaps, p: nat, l: nat)
    requires l <= TOP && lists0[l] != []
    ensures SplitDown(split, split, p, l, l)
    ensures ListsDown(lists0, lists0[l := lists0[l][1..]], p, l, l)
  {}

  lemma ListsDownStep(lists0: Lists, lists: Lists, p: nat, t: nat, l: nat)
    requires 0 < t <= l <= TOP && ListsDown(lists0, lists, p, t, l)
    ensures ListsDown(lists0, lists[t - 1 := [Shl(Shr(p, t - 1) + 1, t - 1)] + lists[t - 1]], p, t - 1, l)
  {}

  /** A request of level `t` was served by the head of level `l`. */
  ghost predicate Descended(alloc0: Bitmaps, split0: Bitmaps, lists0: Lists,
                            alloc: Bitmaps, split: Bitmaps, lists: Lists, t: nat, l: nat)
    requires t <= l <= TOP
  {
    && lists0[l] != []
    && (forall m :: t <= m < l ==> lists0[m] == [])
    && var p := lists0[l][0];
       && Shr(p, t) !in alloc0[t]
       && alloc == Set(alloc0, t, Shr(p, t))
       && SplitDown(split0, split, p, t, l)
       && ListsDown(lists0, lists, p, t, l)
  }

  /** An arena at `base` has an allocated level-`l` block that starts at `ptr`. */
  ghost predicate BlockAt(base: nat, alloc: Bitmaps, ptr: nat, l: nat) {
    && l <= TOP && base <= ptr < base + MAX_BLOCK && (ptr - base) % MIN_BLOCK == 0
    && Aligned((ptr - base) / MIN_BLOCK, l)
    && Shr((ptr - base) / MIN_BLOCK, l) in alloc[l]
  }

  /** The bitmaps before and after handing out the level-`t` block at `ptr`. */
  ghost predicate Took(before: Bitmaps, after: Bitmaps, base: nat, ptr: nat, t: nat) {
    && t <= TOP && base <= ptr
    && var i := Shr((ptr - base) / MIN_BLOCK, t);
       i !in before[t] && after == Set(before, t, i)
  }

  /** The bitmaps before and after taking the level-`t` block at `ptr` back. */
  ghost predicate Gave(before: Bitmaps, after: Bitmaps, base: nat, ptr: nat, t: nat) {
    && t <= TOP && base <= ptr
    && var i := Shr((ptr - base) / MIN_BLOCK, t);
       i in before[t] && after == Clear(before, t, i)
  }

  lemma GaveIs(before: Bitmaps, after: Bitmaps, base: nat, ptr: nat, t: nat)
    requires Gave(before, after, base, ptr, t)
    ensures after == Clear(before, t, Shr((ptr - base) / MIN_BLOCK, t))
  {}

  lemma SamePlace(base: nat, p: nat, q: nat, l: nat)
    requires base <= p && (p - base) % MIN_BLOCK == 0 && Aligned((p - base) / MIN_BLOCK, l)
    requires base <= q && (q - base) % MIN_BLOCK == 0 && Aligned((q - base) / MIN_BLOCK, l)
    requires Shr((p - base) / MIN_BLOCK, l) == Shr((q - base) / MIN_BLOCK, l)
    ensures p == q
  {
    ShlShr((p - base) / MIN_BLOCK, l);
    ShlShr((q - base) / MIN_BLOCK, l);
  }

  /** Handing out a block adds it, and nothing else, to the allocated blocks. */
  lemma TookBlocks(before: Bitmaps, after: Bitmaps, base: nat, ptr: nat, t: nat)
    requires Took(before, after, base, ptr, t) && BlockAt(base, after, ptr, t)
    ensures !BlockAt(base, before, ptr, t)
    ensures forall q, l :: BlockAt(base, after, q, l) <==> BlockAt(base, before, q, l) || (q == ptr && l == t)
  {
    forall q: nat, l: nat | BlockAt(base, after, q, l) && !BlockAt(base, before, q, l)
      ensures q == ptr && l == t
    {
      SamePlace(base, q, ptr, t);
    }
  }

  lemma GaveBlocks(before: Bitmaps, after: Bitmaps, base: nat, ptr: nat, t: nat)
    requires Gave(before, after, base, ptr, t) && BlockAt(base, before, ptr, t)
    ensures forall q, l :: BlockAt(base, after, q, l) <==> BlockAt(base, before, q, l) && !(q == ptr && l == t)
  {
    forall q: nat, l: nat | BlockAt(base, before, q, l) && !BlockAt(base, after, q, l)
      ensures q == ptr && l == t
    {
      SamePlace(base, q, ptr, t);
    }
  }

  /** Distinct allocated blocks of one arena occupy disjoint byte ranges. */
  lemma BlocksDisjoint(alloc: Bitmaps, split: Bitmaps, base: nat, p: nat, l: nat, q: nat, m: nat)
    requires TreeInv(alloc, split) && p <= q
    requires BlockAt(base, alloc, p, l) && BlockAt(base, alloc, q, m)
    ensures (p == q && l == m) || p + BlockSize(l) <= q
  {
    var x, y := (p - base) / MIN_BLOCK, (q - base) / MIN_BLOCK;
    if q < p + BlockSize(l) {
      ShlStep(0, l);
      ShlShr(x, l);
      PagesOfBlock(y, l, Shr(x, l));
      LeafUnique(alloc, split, y, l, m);
      SamePlace(base, p, q, l);
    }
  }

  lemma BlockSizes()
    ensures BlockSize(0) == 4096 && BlockSize(1) == 8192 && BlockSize(2) == 16384 && BlockSize(3) == 32768
    ensures BlockSize(4) == 65536 && BlockSize(5) == 131072 && BlockSize(6) == 262144
  {}

  lemma {:induction false} ShlTable(i: nat, l: nat)
    requires l <= TOP
    ensures Shl(i, l) == if l == 0 then i else if l == 1 then 2 * i else if l == 2 then 4 * i
                         else if l == 3 then 8 * i else if l == 4 then 16 * i else if l == 5 then 32 * i else 64 * i
    decreases l
  {}

  /** A block lies inside its arena and is aligned to its own size. */
  lemma BlockShape(alloc: Bitmaps, base: nat, p: nat, l: nat)
    requires BlockAt(base, alloc, p, l) && base % MAX_BLOCK == 0
    ensures BlockSize(l) > 0 && p + BlockSize(l) <= base + MAX_BLOCK && p % BlockSize(l) == 0
  {
    hide Shr, Shl, Aligned, BlockSize;
    var x, b := (p - base) / MIN_BLOCK, base / MAX_BLOCK;
    BlockSizes();
    ShlShr(x, l);
    var i := Shr(x, l);
    ShlTable(i, l);
    assert p == 262144 * b + 4096 * x && x < 64;
    var k := if l == 0 then 64 * b + i else if l == 1 then 32 * b + i else if l == 2 then 16 * b + i
             else if l == 3 then 8 * b + i else if l == 4 then 4 * b + i else if l == 5 then 2 * b + i else b + i;
    assert p == BlockSize(l) * k;
    MultipleMod(BlockSize(l), k);
  }

  lemma ArenasApart(b: nat, c: nat, p: nat, q: nat)
    requires b % MAX_BLOCK == 0 && c % MAX_BLOCK == 0 && b != c
    requires b <= p < b + MAX_BLOCK && c <= q < c + MAX_BLOCK && p <= q
    ensures b + MAX_BLOCK <= c
  {}

  // ---------------------------------------------------------------------
  // Where a freed block is listed
  // ---------------------------------------------------------------------

  /** The node listed for the block is its start: the address was it, or a merge to the left replaced it. */
  predicate Lands(at: nat, skew: nat, startLevel: nat, level: nat) {
    (Aligned(at, startLevel) && skew == 0) || StartOf(at, level) != StartOf(at, startLevel)
  }

  lemma StartIs(at: nat, l: nat)
    ensures StartOf(at, l) == Shl(Shr(at, l), l)
  {}

  lemma ShrStep(at: nat, l: nat)
    ensures Shr(at, l + 1) == Shr(at, l) / 2
  {}

  lemma NotMerged(at: nat, l: nat, split: Bitmaps)
    requires l <= TOP
    ensures Shr(StartOf(at, l), l) == Shr(at, l) && SplitUp(split, split, at, l, l)
  {
    StartFacts(at, l);
  }

  lemma ReachTop(alloc: Bitmaps, split: Bitmaps, at: nat)
    ensures Reach(alloc, split, at, TOP) == TOP
  {}

  /** The bits the code looks at decide whether the block merges once more. */
  lemma BuddySeen(alloc: Bitmaps, split0: Bitmaps, split: Bitmaps, at: nat, l: nat, m: nat)
    requires l <= m < TOP && SplitUp(split0, split, at, l, m) && InHand(alloc, split, m, Shr(at, m))
    ensures IsFree(alloc, split, m, Sibling(Shr(at, m))) <==> Sibling(Shr(at, m)) !in alloc[m] && Sibling(Shr(at, m)) !in split[m]
    ensures Reach(alloc, split0, at, m)
            == if Sibling(Shr(at, m)) !in alloc[m] && Sibling(Shr(at, m)) !in split[m] then Reach(alloc, split0, at, m + 1) else m
  {
    HandBuddyFree(alloc, split, m, Shr(at, m));
    BuddyUntouched(alloc, split0, split, at, l, m);
  }

  lemma Landed(at: nat, l: nat, m: nat)
    requires l <= m
    ensures StartOf(at, m) == StartOf(at, l) ==> (Aligned(at, l) <==> Aligned(at, m))
    ensures StartOf(StartOf(at, m), m) == StartOf(at, m) && Aligned(StartOf(at, m), m)
    ensures Shr(StartOf(at, m), m) == Shr(at, m)
  {
    StartFacts(at, l);
    StartFacts(at, m);
    StartFacts(StartOf(at, m), m);
  }

  /** A list node that sits at byte `skew` of page `at`. */
  datatype Stray = Stray(at: nat, skew: nat)

  // ---------------------------------------------------------------------
  // The arena
  // ---------------------------------------------------------------------

  class Buddy {
    var base: nat
    var head: Heads
    var next: Words
    var prev: Words
    var alloc: Bitmaps
    var split: Bitmaps
    /** For a listed node that does not sit at the start of its page: where in the page it sits. */
    var offsets: map<nat, nat>
    ghost var free: Bitmaps
    ghost var lists: Lists

    /** The representation invariant with `a` as the set of blocks off the free lists. */
    ghost predicate Core(a: Bitmaps)
      reads this
    {
      && TreeInv(a, split)
      && AllOk(free, lists, head, next, prev)
      && (forall l :: 0 <= l <= TOP ==> free[l] == FreePages(a, split, l))
    }

    ghost predicate Valid()
      reads this
    {
      Core(alloc) && offsets == map[] && base > 0 && base % MAX_BLOCK == 0
    }

    /**
     Everything is in place but one node of level `l`, the first on its list:
     it sits at byte `skew` of page `at`, which is not where its block starts.
     */
    ghost predicate Misplaced(l: nat, at: nat, skew: nat)
      reads this
    {
      && l <= TOP && at < PAGES && skew < MIN_BLOCK && !(Aligned(at, l) && skew == 0)
      && InHand(alloc, split, l, Shr(at, l))
      && AllOk(free, lists, head, next, prev)
      && (forall m :: 0 <= m <= TOP ==>
            free[m] == FreePages(Set(alloc, l, Shr(at, l)), split, m) + if m == l then {at} else {})
      && lists[l] != [] && lists[l][0] == at
      && offsets == (if skew == 0 then map[] else map[at := skew])
    }

    lemma MisplacedIsNotValid(l: nat, at: nat, skew: nat)
      requires Misplaced(l, at, skew)
      ensures !Valid()
    {
      hide AllOk;
      if skew != 0 {
        assert at in offsets;
      } else {
        assert at in free[l] && at !in FreePages(alloc, split, l);
      }
    }

    /** Every free block can be found from its list head. */
    ghost predicate Complete()
      reads this
    {
      Reachable(free, lists)
    }

    ghost predicate Coalesced()
      reads this
    {
      NoFreePair(alloc, split)
    }

    /** No list from the level of `size` up has a node. */
    ghost predicate Exhausted(size: nat)
      reads this
    {
      forall l :: SizeToLevel(size) <= l <= TOP ==> lists[l] == []
    }

    /** Every aligned place for `size` bytes overlaps an allocated block. */
    ghost predicate Full(size: nat)
      requires SizeToLevel(size) <= TOP
      reads this
    {
      forall j :: 0 <= j < Width(SizeToLevel(size)) ==> Obstructed(alloc, SizeToLevel(size), j)
    }

    /** `ptr` is the address of an allocated block of level `l`. */
    ghost predicate Holds(ptr: nat, l: nat)
      reads this
    {
      BlockAt(base, alloc, ptr, l)
    }

    // -------------------------------------------------------------------
    // List primitives
    // -------------------------------------------------------------------

    method ListPush(l: nat, node: nat)
      requires l <= TOP && node < PAGES
      requires AllOk(free, lists, head, next, prev)
      requires forall m :: 0 <= m <= TOP ==> node !in free[m]
      modifies this`head, this`next, this`prev, this`free, this`lists
      ensures AllOk(free, lists, head, next, prev)
      ensures free == old(free)[l := old(free)[l] + {node}]
      ensures lists == old(lists)[l := [node] + old(lists)[l]]
      ensures head == old(head)[l := node]
    {
      hide AllOk;
      PushOk(free, lists, head, next, prev, l, node);
      prev := prev[node := NULL];
      next := next[node := head[l]];
      if head[l] != NULL {
        prev := prev[head[l] := node];
      }
      free := free[l := free[l] + {node}];
      lists := lists[l := [node] + lists[l]];
      head := head[l := node];
    }

    method ListPop(l: nat) returns (node: int)
      requires l <= TOP
      requires AllOk(free, lists, head, next, prev)
      modifies this`head, this`prev, this`free, this`lists
      ensures AllOk(free, lists, head, next, prev)
      ensures node == NULL <==> old(lists)[l] == []
      ensures node == NULL ==> lists == old(lists) && free == old(free) && head == old(head)
      ensures node != NULL ==>
                && node == old(lists)[l][0] && node in old(free)[l]
                && free == old(free)[l := old(free)[l] - {node}]
                && lists == old(lists)[l := old(lists)[l][1..]]
                && head == old(head)[l := if |old(lists)[l]| > 1 then old(lists)[l][1] else NULL]
    {
      assert LevelOk(free[l], lists[l], head[l], next, prev);
      node := head[l];
      if node != NULL {
        PopOk(free, lists, head, next, prev, l);
        head := head[l := next[node]];
        if head[l] != NULL {
          prev := prev[head[l] := NULL];
        }
        free := free[l := free[l] - {node}];
        lists := lists[l := lists[l][1..]];
      }
    }

    /**
     Unlink `node` from its level. A stranded chain start, whose `prev` is
     NULL though it is not the head, makes the head point at the rest of that
     chain.
     */
    method ListRemove(l: nat, node: nat)
      requires l <= TOP
      requires AllOk(free, lists, head, next, prev)
      requires node in free[l]
      modifies this`head, this`next, this`prev, this`free, this`lists
      ensures AllOk(free, lists, head, next, prev)
      ensures free == old(free)[l := old(free)[l] - {node}]
      ensures lists == old(lists)[l := Removed(old(free)[l], old(lists)[l], old(next), old(prev), node)]
      ensures old(Complete()) ==> Complete()
    {
      hide AllOk;
      RemoveOk(free, lists, head, next, prev, l, node);
      ghost var rest := Removed(free[l], lists[l], next, prev, node);
      ghost var n1, p1 := UnlinkNext(next, prev, node), UnlinkPrev(next, prev, node);
      ghost var h1 := if prev[node] != NULL then head else head[l := next[node]];
      ghost var f1, l1 := free[l := free[l] - {node}], lists[l := rest];
      assert AllOk(f1, l1, h1, n1, p1);
      if Complete() {
        RemoveReachable(free, lists, next, prev, l, node);
      }
      if prev[node] != NULL {
        next := next[prev[node] := next[node]];
      } else {
        head := head[l := next[node]];
      }
      if next[node] != NULL {
        prev := prev[next[node] := prev[node]];
      }
      assert next == n1 && prev == p1 && head == h1;
      free, lists := f1, l1;
    }

    // -------------------------------------------------------------------
    // Life cycle
    // -------------------------------------------------------------------

    constructor (arena: nat)
      requires arena > 0 && arena % MAX_BLOCK == 0
      ensures Valid() && Complete() && Coalesced()
      ensures base == arena && Empty(alloc) && Empty(split)
      ensures forall l :: 0 <= l <= TOP ==> lists[l] == if l == TOP then [0] else []
    {
      base := arena;
      head := [NULL, NULL, NULL, NULL, NULL, NULL, NULL];
      next, prev := Zeroed(), Zeroed();
      alloc := [{}, {}, {}, {}, {}, {}, {}];
      split := [{}, {}, {}, {}, {}, {}, {}];
      offsets := map[];
      free := [{}, {}, {}, {}, {}, {}, {}];
      lists := [[], [], [], [], [], [], []];
      new;
      WholeArena(alloc, split);
      ListPush(TOP, 0);
    }

    /** The lowest level from `target` up whose list is not empty, or `LEVELS`. */
    method LowestNonEmpty(target: nat) returns (level: nat)
      requires AllOk(free, lists, head, next, prev) && target <= TOP
      ensures target <= level <= LEVELS
      ensures forall l :: target <= l < level ==> lists[l] == []
      ensures level < LEVELS ==> lists[level] != []
    {
      hide AllOk;
      level := target;
      while level < LEVELS && head[level] == NULL
        invariant target <= level <= LEVELS
        invariant forall l :: target <= l < level ==> lists[l] == []
      {
        HeadFirst(free, lists, head, next, prev, level);
        level := level + 1;
      }
      if level < LEVELS {
        HeadFirst(free, lists, head, next, prev, level);
      }
    }

    /** `node` of level `l` is off its list, everything else is in place. */
    ghost predicate Hand(l: nat, node: nat)
      reads this
    {
      && l <= TOP && node < PAGES && Aligned(node, l)
      && InHand(alloc, split, l, Shr(node, l))
      && Core(Set(alloc, l, Shr(node, l)))
    }

    ghost predicate HandCoalesced(l: nat, node: nat)
      requires l <= TOP
      reads this
    {
      NoFreePair(Set(alloc, l, Shr(node, l)), split)
    }

    /** Split the block in hand once, keeping its left half. */
    method SplitOnce(node: nat, level: nat)
      requires Hand(level, node) && level > 0
      modifies this`head, this`next, this`prev, this`split, this`free, this`lists
      ensures Hand(level - 1, node)
      ensures split == Set(old(split), level, Shr(node, level))
      ensures Shr(node, level - 1) == 2 * Shr(node, level)
      ensures lists == old(lists)[level - 1 := [Shl(Shr(node, level - 1) + 1, level - 1)] + old(lists)[level - 1]]
      ensures old(Complete()) ==> Complete()
      ensures old(HandCoalesced(level, node)) ==> HandCoalesced(level - 1, node)
    {
      hide AllOk, FreePages, NoFreePair, TreeInv, Shl;
      var parent := Shr(node, level);
      assert Shr(node, level) == Shr(node, level - 1) / 2;
      HandSplit(alloc, split, level, parent);
      var right := Shl(parent * 2 + 1, level - 1);
      ghost var after := FreePages(Set(alloc, level - 1, 2 * parent), Set(split, level, parent), level - 1);
      assert after == FreePages(Set(alloc, level, parent), split, level - 1) + {right};
      FreePageFacts(Set(alloc, level - 1, 2 * parent), Set(split, level, parent), level - 1, right);
      split := split[level := split[level] + {parent}];
      ListPush(level - 1, right);
    }

    /** Take the first node of a list in hand, wherever in its block it sits. */
    method TakeFirst(from: nat, ghost stray: Option<Stray>) returns (node: nat)
      requires from <= TOP && lists[from] != []
      requires if stray.None? then Core(alloc) else Misplaced(from, stray.value.at, stray.value.skew)
      modifies this`head, this`prev, this`free, this`lists
      ensures node == old(lists)[from][0] < PAGES && Hand(from, StartOf(node, from))
      ensures stray.None? ==> Aligned(node, from)
      ensures lists == old(lists)[from := old(lists)[from][1..]]
      ensures old(Complete()) ==> Complete()
      ensures stray.None? && old(Coalesced()) ==> HandCoalesced(from, StartOf(node, from))
    {
      hide AllOk, FreePages, NoFreePair, TreeInv, Shl, Shr, Aligned, StartOf;
      node := ListPop(from);
      if stray.None? {
        HandFromFree(alloc, split, from, node);
        FreePageFacts(alloc, split, from, node);
      } else {
        HandNotFree(alloc, split, from, node);
      }
      StartFacts(node, from);
    }

    /** Take the first node of `from` and split it down to `target`, keeping the left edge. */
    method Carve(from: nat, target: nat, ghost stray: Option<Stray>) returns (node: nat)
      requires target <= from <= TOP && lists[from] != []
      requires if stray.None? then Core(alloc) else from == target && Misplaced(from, stray.value.at, stray.value.skew)
      modifies this`head, this`next, this`prev, this`split, this`free, this`lists
      ensures node == old(lists)[from][0] < PAGES && Hand(target, StartOf(node, target))
      ensures Shr(node, target) !in alloc[target] && (stray.None? ==> Aligned(node, target))
      ensures SplitDown(old(split), split, node, target, from)
      ensures ListsDown(old(lists), lists, node, target, from)
      ensures old(Complete()) ==> Complete()
      ensures stray.None? && old(Coalesced()) ==> HandCoalesced(target, StartOf(node, target))
    {
      hide AllOk, FreePages, NoFreePair, TreeInv, SplitDown, ListsDown, Shl, Shr, Aligned, StartOf;
      node := TakeFirst(from, stray);
      StartFacts(node, from);
      DownStart(old(lists), split, node, from);
      var level := from;
      while level > target
        invariant target <= level <= from
        invariant Hand(level, StartOf(node, level))
        invariant level > target || stray.None? ==> StartOf(node, level) == node
        invariant old(Complete()) ==> Complete()
        invariant stray.None? && old(Coalesced()) ==> HandCoalesced(level, StartOf(node, level))
        invariant SplitDown(old(split), split, node, level, from)
        invariant ListsDown(old(lists), lists, node, level, from)
      {
        SplitDownStep(old(split), split, node, level, from);
        ListsDownStep(old(lists), lists, node, level, from);
        SplitOnce(node, level);
        level := level - 1;
        StartFacts(node, level);
      }
      StartFacts(node, target);
    }

    /**
     Take a block of the smallest sufficient level from the head of the
     lowest non-empty list, splitting it down from its left edge. A misplaced
     node is handed out where it sits.
     */
    method Alloc(size: nat, ghost stray: Option<Stray>) returns (ptr: nat, ghost from: nat)
      requires base > 0 && base % MAX_BLOCK == 0
      requires if stray.None? then Valid() else size > 0 && Misplaced(SizeToLevel(size), stray.value.at, stray.value.skew)
      modifies this`head, this`next, this`prev, this`offsets, this`alloc, this`split, this`free, this`lists
      ensures Valid()
      ensures old(Complete()) ==> Complete()
      ensures ptr == 0 <==> size == 0 || size > MAX_BLOCK || old(Exhausted(size))
      ensures ptr == 0 ==> unchanged(this)
      ensures ptr != 0 ==>
                && SizeToLevel(size) <= from <= TOP
                && Descended(old(alloc), old(split), old(lists), alloc, split, lists, SizeToLevel(size), from)
                && Took(old(alloc), alloc, base, ptr, SizeToLevel(size))
                && ptr == base + old(lists)[from][0] * MIN_BLOCK + (if stray.None? then 0 else stray.value.skew)
                && (stray.None? ==> Holds(ptr, SizeToLevel(size)))
      ensures stray.None? && old(Coalesced()) ==> Coalesced()
      ensures stray.None? && old(Complete() && Coalesced()) && SizeToLevel(size) <= TOP ==> (old(Exhausted(size)) <==> old(Full(size)))
    {
      hide AllOk, FreePages, NoFreePair, TreeInv, SplitDown, ListsDown, Shl, Shr, Aligned, SizeToLevel, Obstructed, Width, StartOf, InHand;
      ptr, from := 0, LEVELS;
      TopIsMax(size);
      if stray.None? && SizeToLevel(size) <= TOP && Complete() && Coalesced() {
        ExhaustedIsFull(size);
      }
      if size == 0 {
        return;
      }
      var target := SizeToLevel(size);
      if target >= LEVELS {
        return;
      }
      var level := LowestNonEmpty(target);
      if level >= LEVELS {
        return;
      }
      from := level;
      var node: nat := Carve(level, target, stray);
      StartFacts(node, target);
      alloc := alloc[target := alloc[target] + {Shr(node, target)}];
      var off := if node in offsets then offsets[node] else 0;
      ptr := base + node * MIN_BLOCK + off;
      offsets := offsets - {node};
      assert (ptr - base) / MIN_BLOCK == node && (ptr - base) % MIN_BLOCK == off;
    }

    /** With nothing stranded and nothing left to merge, empty lists mean that no place is left. */
    lemma ExhaustedIsFull(size: nat)
      requires Valid() && Complete() && Coalesced() && SizeToLevel(size) <= TOP
      ensures Exhausted(size) <==> Full(size)
    {
      hide SizeToLevel;
      EmptyListsMeaning(alloc, split, lists, SizeToLevel(size));
      FailureIsExact(alloc, split, SizeToLevel(size));
    }

    /**
     Merged or not, no place is left exactly when the lists are empty from
     the level up and every split block of the level has an allocated block
     below it.
     */
    lemma FullExactlyWhen(size: nat)
      requires Valid() && Complete() && SizeToLevel(size) <= TOP
      ensures Full(size) <==> Exhausted(size) && split[SizeToLevel(size)] <= CanonicalSplit(alloc, SizeToLevel(size))
    {
      hide SizeToLevel;
      EmptyListsMeaning(alloc, split, lists, SizeToLevel(size));
      FullExactly(alloc, split, SizeToLevel(size));
    }

    /** Merge the block in hand with its free buddy, undoing the split of their parent. */
    method MergeOnce(idx: nat, level: nat, ghost node: nat) returns (sibling: nat, ghost merged: nat)
      requires Hand(level, node) && level < TOP && idx == Shr(node, level)
      requires Sibling(Shr(node, level)) !in alloc[level] && Sibling(Shr(node, level)) !in split[level]
      modifies this`head, this`next, this`prev, this`split, this`free, this`lists
      ensures sibling == Shl(Sibling(idx), level) && merged == if Sibling(idx) < idx then sibling else node
      ensures Hand(level + 1, merged) && Shr(merged, level + 1) == Shr(node, level) / 2
      ensures split == Clear(old(split), level + 1, Shr(node, level) / 2)
      ensures var sibling := Shl(Sibling(Shr(node, level)), level);
              sibling in old(free)[level] && free == old(free)[level := old(free)[level] - {sibling}]
      ensures forall m :: 0 <= m <= TOP && m != level ==> lists[m] == old(lists)[m]
      ensures old(Complete()) ==> Complete()
      ensures old(HandCoalesced(level, node)) ==> HandCoalesced(level + 1, merged)
    {
      hide AllOk, FreePages, NoFreePair, TreeInv, Shl, Shr, Aligned;
      var buddy := Sibling(idx);
      sibling := Shl(buddy, level);
      HandMerge(alloc, split, level, idx);
      FreePageFacts(Set(alloc, level, idx), split, level, sibling);
      MergedStart(node, level);
      ListRemove(level, sibling);
      merged := if buddy < idx then sibling else node;
      split := split[level + 1 := split[level + 1] - {idx / 2}];
    }

    /** Put the block in hand on its list, as a node at byte `skew` of page `at`. */
    method Place(at: nat, skew: nat, level: nat)
      requires at < PAGES && skew < MIN_BLOCK && level <= TOP && Hand(level, StartOf(at, level)) && offsets == map[]
      modifies this`head, this`next, this`prev, this`offsets, this`free, this`lists
      ensures TreeInv(alloc, split)
      ensures if Aligned(at, level) && skew == 0 then Core(alloc) && offsets == map[] else Misplaced(level, at, skew)
      ensures free == old(free)[level := old(free)[level] + {at}]
      ensures lists == old(lists)[level := [at] + old(lists)[level]]
      ensures old(Complete()) ==> Complete()
      ensures old(HandCoalesced(level, StartOf(at, level))) && (level == TOP || !IsFree(alloc, split, level, Sibling(Shr(at, level))))
              ==> Coalesced()
    {
      hide AllOk, FreePages, NoFreePair, TreeInv, Shl, Shr, Aligned, IsFree, StartOf;
      StartFacts(at, level);
      HandToFree(alloc, split, level, Shr(at, level));
      HandNotFree(alloc, split, level, at);
      StartIs(at, level);
      ListPush(level, at);
      if skew != 0 {
        offsets := map[at := skew];
      }
    }

    /**
     Merge the block in hand with its buddy for as long as the buddy is free,
     then put it on the list of the level reached. The address the code
     carries along is that of the caller; only a merge with a buddy on the
     left replaces it, by that of the buddy.
     */
    method CoalesceUpward(at: nat, skew: nat, startLevel: nat) returns (level: nat)
      requires at < PAGES && skew < MIN_BLOCK && startLevel <= TOP && Hand(startLevel, StartOf(at, startLevel)) && offsets == map[]
      modifies this`head, this`next, this`prev, this`offsets, this`split, this`free, this`lists
      ensures TreeInv(alloc, split)
      ensures level == Reach(alloc, old(split), at, startLevel) && SplitUp(old(split), split, at, startLevel, level)
      ensures if Lands(at, skew, startLevel, level) then Core(alloc) && offsets == map[] else Misplaced(level, at, skew)
      ensures old(Complete()) ==> Complete()
      ensures old(HandCoalesced(startLevel, StartOf(at, startLevel))) ==> Coalesced()
      ensures level > startLevel ==>
                var sibling := Shl(Sibling(Shr(at, startLevel)), startLevel);
                sibling in old(free)[startLevel] && free[startLevel] == old(free)[startLevel] - {sibling}
      ensures level == startLevel ==> lists == old(lists)[level := [at] + old(lists)[level]]
      ensures forall m :: 0 <= m < startLevel ==> free[m] == old(free)[m] && lists[m] == old(lists)[m]
    {
      hide AllOk, FreePages, NoFreePair, TreeInv, Shl, Shr, Aligned, IsFree, InHand, StartOf, Reach, SplitUp;
      var current, off := at, skew;
      level := startLevel;
      var idx := Shr(at, level);
      ghost var block := StartOf(at, level);
      NotMerged(at, level, split);
      while level < TOP
        invariant startLevel <= level <= TOP && offsets == map[]
        invariant block == StartOf(at, level) <= StartOf(at, startLevel)
        invariant Hand(level, block) && idx == Shr(at, level) == Shr(block, level)
        invariant if block == StartOf(at, startLevel) then current == at && off == skew else current == block && off == 0
        invariant Reach(alloc, old(split), at, startLevel) == Reach(alloc, old(split), at, level)
        invariant SplitUp(old(split), split, at, startLevel, level)
        invariant old(Complete()) ==> Complete()
        invariant old(HandCoalesced(startLevel, StartOf(at, startLevel))) ==> HandCoalesced(level, block)
        invariant level == startLevel ==> free == old(free) && lists == old(lists)
        invariant level > startLevel ==>
                    var sibling := Shl(Sibling(Shr(at, startLevel)), startLevel);
                    sibling in old(free)[startLevel] && free[startLevel] == old(free)[startLevel] - {sibling}
        invariant forall m :: 0 <= m < startLevel ==> free[m] == old(free)[m] && lists[m] == old(lists)[m]
      {
        var buddy := Sibling(idx);
        BuddySeen(alloc, old(split), split, at, startLevel, level);
        if buddy in alloc[level] {
          break;
        }
        if buddy in split[level] {
          break;
        }
        SplitUpStep(old(split), split, at, startLevel, level);
        MergedFrom(at, level);
        ShrStep(at, level);
        StartFacts(at, level + 1);
        var sibling;
        sibling, block := MergeOnce(idx, level, block);
        if buddy < idx {
          current, off := sibling, 0;
        }
        level := level + 1;
        idx := idx / 2;
      }
      if level < TOP {
        BuddySeen(alloc, old(split), split, at, startLevel, level);
      }
      ReachTop(alloc, old(split), at);
      Landed(at, startLevel, level);
      Place(current, off, level);
    }

    /** Whether a free call with these arguments does anything. */
    ghost predicate Ignored(ptr: nat, size: nat) {
      ptr == 0 || SizeToLevel(size) >= LEVELS
    }

    /** `ptr` lies in an allocated block of level `l`, at its start or anywhere else. */
    ghost predicate Covers(ptr: nat, l: nat)
      reads this
    {
      l <= TOP && base <= ptr < base + MAX_BLOCK && Shr((ptr - base) / MIN_BLOCK, l) in alloc[l]
    }

    /** Clear the alloc bit of the block around `ptr` and take the block in hand. */
    method Unmark(ptr: nat, level: nat) returns (page: nat, skew: nat)
      requires Valid() && Covers(ptr, level)
      modifies this`alloc
      ensures page == (ptr - base) / MIN_BLOCK && skew == (ptr - base) % MIN_BLOCK && page < PAGES
      ensures Gave(old(alloc), alloc, base, ptr, level)
      ensures Hand(level, StartOf(page, level))
      ensures old(Coalesced()) ==> HandCoalesced(level, StartOf(page, level))
    {
      hide AllOk, FreePages, NoFreePair, TreeInv, Shl, Shr, Aligned, StartOf;
      page, skew := (ptr - base) / MIN_BLOCK, (ptr - base) % MIN_BLOCK;
      var idx := Shr(page, level);
      StartFacts(page, level);
      alloc := alloc[level := alloc[level] - {idx}];
      assert Set(alloc, level, idx)[level] == old(alloc)[level];
      assert Set(alloc, level, idx) == old(alloc);
    }

    /**
     Return the block around `ptr` and coalesce at once. The arena comes out
     whole exactly when the node it lists is the start of the merged block.
     */
    method Free(ptr: nat, size: nat)
      requires Valid()
      requires Ignored(ptr, size) || Covers(ptr, SizeToLevel(size))
      modifies this`head, this`next, this`prev, this`offsets, this`alloc, this`split, this`free, this`lists
      ensures Ignored(ptr, size) ==> Valid() && alloc == old(alloc) && split == old(split) && lists == old(lists)
      ensures !Ignored(ptr, size) ==>
                var level, page, skew := SizeToLevel(size), (ptr - base) / MIN_BLOCK, (ptr - base) % MIN_BLOCK;
                var landed := Reach(old(alloc), old(split), page, level);
                && Gave(old(alloc), alloc, base, ptr, level)
                && TreeInv(alloc, split) && SplitUp(old(split), split, page, level, landed)
                && (Valid() <==> Lands(page, skew, level, landed))
                && (!Valid() ==> Misplaced(landed, page, skew))
      ensures old(Complete()) ==> Complete()
      ensures old(Coalesced()) ==> Coalesced()
    {
      hide AllOk, FreePages, NoFreePair, TreeInv, Shl, Shr, Aligned, SizeToLevel, Live, StartOf, InHand, Gave, SplitUp;
      if ptr == 0 {
        return;
      }
      var level := SizeToLevel(size);
      if level >= LEVELS {
        return;
      }
      var page, skew := Unmark(ptr, level);
      ReachOwnBit(old(alloc), split, page, level, level);
      GaveIs(old(alloc), alloc, base, ptr, level);
      var landed := CoalesceUpward(page, skew, level);
      if !Lands(page, skew, level, landed) {
        MisplacedIsNotValid(landed, page, skew);
      }
    }

    /** Return the block around `ptr` and leave merging for later. */
    method FreeNoCoalesce(ptr: nat, size: nat)
      requires Valid()
      requires Ignored(ptr, size) || Covers(ptr, SizeToLevel(size))
      modifies this`head, this`next, this`prev, this`offsets, this`alloc, this`free, this`lists
      ensures Ignored(ptr, size) ==> Valid() && alloc == old(alloc) && lists == old(lists)
      ensures !Ignored(ptr, size) ==>
                var level, page, skew := SizeToLevel(size), (ptr - base) / MIN_BLOCK, (ptr - base) % MIN_BLOCK;
                && Gave(old(alloc), alloc, base, ptr, level)
                && lists == old(lists)[level := [page] + old(lists)[level]]
                && TreeInv(alloc, split)
                && (Valid() <==> BlockAt(base, old(alloc), ptr, level))
                && (!Valid() ==> Misplaced(level, page, skew))
      ensures old(Complete()) ==> Complete()
    {
      hide AllOk, FreePages, NoFreePair, TreeInv, Shl, Shr, Aligned, SizeToLevel, StartOf, InHand;
      if ptr == 0 {
        return;
      }
      var level := SizeToLevel(size);
      if level >= LEVELS {
        return;
      }
      var page, skew := Unmark(ptr, level);
      Place(page, skew, level);
      if !(Aligned(page, level) && skew == 0) {
        MisplacedIsNotValid(level, page, skew);
      }
    }

    /** The first `k` nodes on the list of `level` have no free buddy. */
    ghost predicate Passed(level: nat, k: nat)
      requires level <= TOP
      reads this
    {
      k <= |lists[level]|
      && forall j :: 0 <= j < k ==> !IsFree(alloc, split, level, Sibling(Shr(lists[level][j], level)))
    }

    /** Merge the listed node, whose buddy is free, up to the highest level it reaches. */
    method MergeListed(node: nat, level: nat)
      requires Core(alloc) && offsets == map[] && level < TOP && node in free[level]
      requires IsFree(alloc, split, level, Sibling(Shr(node, level)))
      modifies this`head, this`next, this`prev, this`offsets, this`split, this`free, this`lists
      ensures Core(alloc) && offsets == map[]
      ensures old(Complete()) ==> Complete()
      ensures free[level] < old(free)[level]
      ensures forall m :: 0 <= m <= TOP ==> split[m] <= old(split)[m] && (m <= level ==> split[m] == old(split)[m])
      ensures Shr(node, level + 1) in old(Pairs(alloc, split, level))
      ensures forall m :: 0 <= m < TOP ==>
                Pairs(alloc, split, m) == old(Pairs(alloc, split, m)) - if m == level then {Shr(node, level + 1)} else {}
    {
      hide AllOk, FreePages, NoFreePair, TreeInv, Shl, Shr, Aligned, IsFree, Pairs;
      HandFromFree(alloc, split, level, node);
      ListedBuddy(alloc, split, level, node);
      FreePageFacts(alloc, split, level, node);
      ListRemove(level, node);
      NotMerged(node, level, split);
      ShlShr(node, level);
      var landed := CoalesceUpward(node, 0, level);
      MergeUsesOnePair(alloc, old(split), split, node, level);
    }

    /** One level of the sweep: follow the list, starting over after each merge. */
    method CoalesceLevel(level: nat) returns (merges: nat)
      requires Core(alloc) && offsets == map[] && level < TOP
      modifies this`head, this`next, this`prev, this`offsets, this`split, this`free, this`lists
      ensures Core(alloc) && offsets == map[]
      ensures old(Complete()) ==> Complete() && NoPairAt(alloc, split, level)
      ensures forall m :: 0 <= m <= TOP ==> split[m] <= old(split)[m] && (m <= level ==> split[m] == old(split)[m])
      ensures merges == 0 ==> split == old(split) && lists == old(lists) && free == old(free)
      ensures merges > 0 ==> !old(NoPairAt(alloc, split, level))
      ensures merges <= |old(Pairs(alloc, split, level))|
      ensures old(Complete()) ==> merges == |old(Pairs(alloc, split, level))|
      ensures forall m :: 0 <= m < TOP && m != level ==> Pairs(alloc, split, m) == old(Pairs(alloc, split, m))
    {
      hide AllOk, FreePages, NoFreePair, TreeInv, Shl, Shr, Aligned, IsFree, Pairs;
      merges := 0;
      HeadFirst(free, lists, head, next, prev, level);
      var node := head[level];
      ghost var k := 0;
      while node != NULL
        invariant Core(alloc) && offsets == map[]
        invariant old(Complete()) ==> Complete()
        invariant k <= |lists[level]| && node == if k < |lists[level]| then lists[level][k] else NULL
        invariant Passed(level, k)
        invariant forall m :: 0 <= m <= TOP ==> split[m] <= old(split)[m] && (m <= level ==> split[m] == old(split)[m])
        invariant merges == 0 ==> split == old(split) && lists == old(lists) && free == old(free)
        invariant merges > 0 ==> !old(NoPairAt(alloc, split, level))
        invariant merges + |Pairs(alloc, split, level)| == |old(Pairs(alloc, split, level))|
        invariant forall m :: 0 <= m < TOP && m != level ==> Pairs(alloc, split, m) == old(Pairs(alloc, split, m))
        decreases |free[level]|, |lists[level]| - k
      {
        ListedNode(free, lists, head, next, prev, level, k);
        var after := next[node];
        var idx := Shr(node, level);
        var buddy := Sibling(idx);
        ListedBuddy(alloc, split, level, node);
        if buddy !in alloc[level] && buddy !in split[level] {
          ghost var before := free[level];
          MergeListed(node, level);
          SmallerSet(free[level], before);
          merges := merges + 1;
          HeadFirst(free, lists, head, next, prev, level);
          node := head[level];
          k := 0;
        } else {
          node := after;
          k := k + 1;
        }
      }
      if Complete() {
        NoPairFromList(alloc, split, level, lists[level]);
        NoPairsIsEmpty(alloc, split, level);
      }
    }

    /**
     Merge every pair of free buddies, level by level from the bottom. What is
     counted are the pairs that were free at the outset; a block with a half
     that is itself merged is merged along with it, and not counted.
     */
    method CoalesceAll() returns (merges: nat)
      requires Valid()
      modifies this`head, this`next, this`prev, this`offsets, this`split, this`free, this`lists
      ensures Valid()
      ensures old(Complete()) ==> Complete() && Coalesced()
      ensures forall m :: 0 <= m <= TOP ==> split[m] <= old(split)[m]
      ensures old(Complete()) ==> forall l :: 0 <= l <= TOP ==> split[l] == CanonicalSplit(old(alloc), l)
      ensures merges == 0 ==> split == old(split) && lists == old(lists)
      ensures merges > 0 ==> !old(Coalesced())
      ensures old(Complete()) ==> (merges == 0 <==> old(Coalesced()))
      ensures merges <= old(PairCount(alloc, split, TOP))
      ensures old(Complete()) ==> merges == old(PairCount(alloc, split, TOP))
      ensures old(Complete()) ==>
                old(SplitCount(split, TOP)) - SplitCount(split, TOP) == merges + old(NestedCount(alloc, split, TOP))
    {
      hide AllOk, FreePages, TreeInv, Shl, Shr, Aligned, IsFree, CanonicalSplit, Pairs, SplitCount, NestedCount;
      merges := 0;
      var level := 0;
      NoPairsAnywhere(alloc, split);
      while level < LEVELS - 1
        invariant 0 <= level <= TOP
        invariant Core(alloc) && offsets == map[]
        invariant old(Complete()) ==> Complete() && forall m :: 0 <= m < level ==> NoPairAt(alloc, split, m)
        invariant forall m :: 0 <= m <= TOP ==> split[m] <= old(split)[m]
        invariant merges == 0 ==> split == old(split) && lists == old(lists)
        invariant merges > 0 ==> !old(Coalesced())
        invariant merges <= old(PairCount(alloc, split, level)) && (old(Complete()) ==> merges == old(PairCount(alloc, split, level)))
        invariant forall m :: level <= m < TOP ==> Pairs(alloc, split, m) == old(Pairs(alloc, split, m))
      {
        ghost var s0 := split;
        var merged := CoalesceLevel(level);
        forall m | 0 <= m < level && old(Complete())
          ensures NoPairAt(alloc, split, m)
        {
          PairFrame(alloc, s0, split, m);
        }
        merges := merges + merged;
        level := level + 1;
      }
      NoPairsAnywhere(alloc, split);
      if old(Complete()) {
        forall l | 0 <= l <= TOP
          ensures split[l] == CanonicalSplit(alloc, l)
        {
          Canonical(alloc, split, l);
        }
        MergesNeeded(alloc, old(split), split, TOP);
      }
    }

    /** The bytes of the allocated block around `ptr`, from whichever of its pages `ptr` lies in. */
    method BlockSizeOf(ptr: nat) returns (size: nat)
      requires Valid()
      ensures !(base <= ptr < base + MAX_BLOCK) ==> size == 0
      ensures base <= ptr < base + MAX_BLOCK ==>
                var p := (ptr - base) / MIN_BLOCK;
                && (size == 0 <==> forall l :: 0 <= l <= TOP ==> Shr(p, l) !in alloc[l])
                && (forall l :: 0 <= l <= TOP && Shr(p, l) in alloc[l] ==> size == BlockSize(l))
    {
      size := 0;
      if ptr == 0 {
        return;
      }
      if ptr < base || ptr >= base + MAX_BLOCK {
        return;
      }
      var p := (ptr - base) / MIN_BLOCK;
      var level := 0;
      while level < LEVELS
        invariant 0 <= level <= LEVELS
        invariant forall l :: 0 <= l < level ==> Shr(p, l) !in alloc[l]
      {
        if Shr(p, level) in alloc[level] {
          forall l: nat | l <= TOP && Shr(p, l) in alloc[l]
            ensures l == level
          {
            LeafUnique(alloc, split, p, l, level);
          }
          MinIsLeast(level);
          return BlockSize(level);
        }
        level := level + 1;
      }
    }

    method IsEmpty() returns (empty: bool)
      ensures empty <==> Empty(alloc)
    {
      var level := 0;
      while level < LEVELS
        invariant 0 <= level <= LEVELS
        invariant forall l :: 0 <= l < level ==> alloc[l] == {}
      {
        if alloc[level] != {} {
          return false;
        }
        level := level + 1;
      }
      return true;
    }

    /**
     The kernel takes the pages away and hands back zeroes. The bitmaps and
     list heads live elsewhere, the link words do not. For an empty arena the
     free lists survive exactly when it was coalesced into one block.
     */
    method DropPages()
      requires AllOk(free, lists, head, next, prev)
      modifies this`next, this`prev, this`lists
      ensures AllOk(free, lists, head, next, prev)
      ensures lists == FirstOnly(old(lists)) && next == Zeroed() && prev == Zeroed()
      ensures Coalesced() == old(Coalesced())
      ensures old(Valid()) ==> Valid()
      ensures old(Valid() && Complete()) && Empty(alloc) ==> (Complete() <==> Empty(split)) && (Complete() <==> Coalesced())
    {
      DropKeepsLinks(free, lists, head, next, prev);
      if Valid() && Complete() && Empty(alloc) {
        DropReachableIff(free, lists, head, next, prev);
        EmptyOneBlock(alloc, split, free);
      }
      next, prev := Zeroed(), Zeroed();
      lists := FirstOnly(lists);
    }

    /** The owner of an allocated block may write anything to its pages, list words included. */
    method Scribble(page: nat, a: int, b: int)
      requires Valid() && page < PAGES && exists l :: 0 <= l <= TOP && Shr(page, l) in alloc[l]
      modifies this`next, this`prev
      ensures Valid() && next[page] == a && prev[page] == b
      ensures Complete() == old(Complete())
    {
      hide AllOk;
      AllocatedNotFree(alloc, split, page);
      StrayWords(free, lists, head, next, prev, page, a, b);
      next, prev := next[page := a], prev[page := b];
    }
  }
}
