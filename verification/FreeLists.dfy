/**
 The intrusive doubly linked free lists of a buddy arena. A node is named by
 its page number; `next[p]` and `prev[p]` are the two words stored at the
 start of page `p`. `free[l]` is the set of nodes that belong to level `l`,
 `lists[l]` the part of it reachable from `head[l]`. The two differ once the
 pages of an arena are dropped while a list has several nodes: the nodes left
 out are stranded, but still linked only among themselves.
 */
module FreeLists {
  import opened Basics
  import opened BuddyTree

  const NULL: int := -1

  type Heads = s: seq<int> | |s| == 7 witness [0, 0, 0, 0, 0, 0, 0]
  type Words = s: seq<int> | |s| == 64 witness seq(64, i => 0)
  type Lists = s: seq<seq<nat>> | |s| == 7 witness [[], [], [], [], [], [], []]

  /** The links of `x` point into `free` and are answered by the neighbour. */
  ghost predicate Local(free: set<nat>, next: Words, prev: Words, x: nat)
    requires x < PAGES
  {
    && (next[x] == NULL || (0 <= next[x] < PAGES && next[x] in free && prev[next[x]] == x))
    && (prev[x] == NULL || (0 <= prev[x] < PAGES && prev[x] in free && next[prev[x]] == x))
  }

  /** Consecutive nodes point at each other and the ends at NULL. */
  ghost predicate Linked(xs: seq<nat>, next: Words, prev: Words) {
    && (forall k :: 0 <= k < |xs| ==> xs[k] < PAGES)
    && (forall j, k :: 0 <= j < |xs| && k == j + 1 && k < |xs| ==> next[xs[j]] == xs[k] && prev[xs[k]] == xs[j])
    && (xs != [] ==> prev[xs[0]] == NULL && next[xs[|xs| - 1]] == NULL)
    && (forall j, k :: 0 <= j < k < |xs| ==> xs[j] != xs[k])
  }

  ghost predicate Chain(xs: seq<nat>, head: int, next: Words, prev: Words) {
    && head == (if xs == [] then NULL else xs[0])
    && Linked(xs, next, prev)
  }

  ghost predicate LevelOk(free: set<nat>, xs: seq<nat>, head: int, next: Words, prev: Words) {
    && (forall x :: x in free ==> x < PAGES)
    && (forall x :: x in free ==> Local(free, next, prev, x))
    && (forall k :: 0 <= k < |xs| ==> xs[k] in free)
    && Chain(xs, head, next, prev)
  }

  ghost predicate AllOk(free: Bitmaps, lists: Lists, head: Heads, next: Words, prev: Words) {
    && (forall l :: 0 <= l <= TOP ==> LevelOk(free[l], lists[l], head[l], next, prev))
    && (forall l, m :: 0 <= l < m <= TOP ==> free[l] !! free[m])
  }

  /** Nothing is stranded: every node of a level is on its list. */
  ghost predicate Reachable(free: Bitmaps, lists: Lists) {
    forall l, x :: 0 <= l <= TOP && x in free[l] ==> x in lists[l]
  }

  /** Only level `l` changed, together with the words of its old and new nodes. */
  lemma AllOkUpdate(free: Bitmaps, lists: Lists, head: Heads, next: Words, prev: Words,
                    l: nat, f: set<nat>, xs: seq<nat>, h: int, next': Words, prev': Words)
    requires AllOk(free, lists, head, next, prev) && l <= TOP
    requires LevelOk(f, xs, h, next', prev')
    requires forall m :: 0 <= m <= TOP && m != l ==> f !! free[m]
    requires forall x :: 0 <= x < PAGES && x !in f && x !in free[l] ==> next'[x] == next[x] && prev'[x] == prev[x]
    ensures AllOk(free[l := f], lists[l := xs], head[l := h], next', prev')
  {}

  // ---------------------------------------------------------------------
  // One level: push, and removal of any node
  // ---------------------------------------------------------------------

  function PushPrev(prev: Words, head: int, node: nat): Words
    requires node < PAGES && (head == NULL || 0 <= head < PAGES)
  {
    if head != NULL then prev[node := NULL][head := node] else prev[node := NULL]
  }

  lemma PushLocal(free: set<nat>, next: Words, prev: Words, head: int, node: nat)
    requires forall x :: x in free ==> x < PAGES
    requires forall x :: x in free ==> Local(free, next, prev, x)
    requires node < PAGES && node !in free
    requires head == NULL || (0 <= head < PAGES && head in free && prev[head] == NULL)
    ensures forall x :: x in free + {node} ==>
              Local(free + {node}, next[node := head], PushPrev(prev, head, node), x)
  {}

  lemma PushChain(xs: seq<nat>, next: Words, prev: Words, head: int, node: nat)
    requires Chain(xs, head, next, prev) && node < PAGES && node !in xs
    ensures Chain([node] + xs, node, next[node := head], PushPrev(prev, head, node))
  {}

  lemma PushLevel(free: set<nat>, xs: seq<nat>, head: int, next: Words, prev: Words, node: nat)
    requires LevelOk(free, xs, head, next, prev) && node < PAGES && node !in free
    ensures LevelOk(free + {node}, [node] + xs, node, next[node := head], PushPrev(prev, head, node))
  {
    PushLocal(free, next, prev, head, node);
    PushChain(xs, next, prev, head, node);
  }

  lemma PushOk(free: Bitmaps, lists: Lists, head: Heads, next: Words, prev: Words, l: nat, node: nat)
    requires AllOk(free, lists, head, next, prev) && l <= TOP && node < PAGES
    requires forall m :: 0 <= m <= TOP ==> node !in free[m]
    ensures head[l] == NULL || 0 <= head[l] < PAGES
    ensures AllOk(free[l := free[l] + {node}], lists[l := [node] + lists[l]], head[l := node],
                  next[node := head[l]], PushPrev(prev, head[l], node))
  {
    assert LevelOk(free[l], lists[l], head[l], next, prev);
    PushLevel(free[l], lists[l], head[l], next, prev, node);
    AllOkUpdate(free, lists, head, next, prev, l, free[l] + {node}, [node] + lists[l], node,
                next[node := head[l]], PushPrev(prev, head[l], node));
  }

  /** The words after `node` is unlinked. */
  function UnlinkNext(next: Words, prev: Words, node: nat): Words
    requires node < PAGES && (prev[node] == NULL || 0 <= prev[node] < PAGES)
  {
    if prev[node] != NULL then next[prev[node] := next[node]] else next
  }

  function UnlinkPrev(next: Words, prev: Words, node: nat): Words
    requires node < PAGES && (next[node] == NULL || 0 <= next[node] < PAGES)
  {
    if next[node] != NULL then prev[next[node] := prev[node]] else prev
  }

  lemma UnlinkLocal(free: set<nat>, next: Words, prev: Words, node: nat)
    requires forall x :: x in free ==> x < PAGES
    requires forall x :: x in free ==> Local(free, next, prev, x)
    requires node in free
    ensures Local(free, next, prev, node)
    ensures forall x :: x in free - {node} ==>
              Local(free - {node}, UnlinkNext(next, prev, node), UnlinkPrev(next, prev, node), x)
  {}

  lemma WithoutAt(xs: seq<nat>, k: nat, j: nat)
    requires k < |xs| && j < |xs| - 1
    ensures Without(xs, k)[j] == if j < k then xs[j] else xs[j + 1]
  {}

  /** Consecutive nodes of the shortened list are linked by the patched words. */
  lemma PairWithout(xs: seq<nat>, next: Words, prev: Words, k: nat, j: nat)
    requires Linked(xs, next, prev) && k < |xs| && j + 1 < |xs| - 1
    requires prev[xs[k]] == NULL || 0 <= prev[xs[k]] < PAGES
    requires next[xs[k]] == NULL || 0 <= next[xs[k]] < PAGES
    ensures var ys := Without(xs, k);
            && UnlinkNext(next, prev, xs[k])[ys[j]] == ys[j + 1]
            && UnlinkPrev(next, prev, xs[k])[ys[j + 1]] == ys[j]
  {
    WithoutAt(xs, k, j);
    WithoutAt(xs, k, j + 1);
    assert k > 0 ==> prev[xs[k]] == xs[k - 1];
    assert k + 1 < |xs| ==> next[xs[k]] == xs[k + 1];
    if j + 1 != k {
      var i := if j + 1 < k then j else j + 1;
      assert next[xs[i]] == xs[i + 1] && prev[xs[i + 1]] == xs[i];
      assert k > 0 ==> xs[i] != xs[k - 1];
      assert k + 1 < |xs| ==> xs[i + 1] != xs[k + 1];
    }
  }

  lemma ChainWithout(xs: seq<nat>, head: int, next: Words, prev: Words, k: nat)
    requires Chain(xs, head, next, prev) && k < |xs|
    requires prev[xs[k]] == NULL || 0 <= prev[xs[k]] < PAGES
    requires next[xs[k]] == NULL || 0 <= next[xs[k]] < PAGES
    ensures Chain(Without(xs, k), if prev[xs[k]] != NULL then head else next[xs[k]],
                  UnlinkNext(next, prev, xs[k]), UnlinkPrev(next, prev, xs[k]))
  {
    var ys := Without(xs, k);
    assert k > 0 ==> prev[xs[k]] == xs[k - 1];
    assert k + 1 < |xs| ==> next[xs[k]] == xs[k + 1];
    forall j, i | 0 <= j < |ys| && i == j + 1 && i < |ys|
      ensures UnlinkNext(next, prev, xs[k])[ys[j]] == ys[i] && UnlinkPrev(next, prev, xs[k])[ys[i]] == ys[j]
    {
      PairWithout(xs, next, prev, k, j);
    }
    forall j, i | 0 <= j < i < |ys|
      ensures ys[j] != ys[i]
    {
      WithoutAt(xs, k, j);
      WithoutAt(xs, k, i);
    }
    if ys != [] {
      WithoutAt(xs, k, 0);
      WithoutAt(xs, k, |ys| - 1);
    }
  }

  /** Removing a node that is on the list. */
  lemma RemoveListed(free: set<nat>, xs: seq<nat>, head: int, next: Words, prev: Words, k: nat)
    requires LevelOk(free, xs, head, next, prev) && k < |xs|
    ensures Local(free, next, prev, xs[k])
    ensures LevelOk(free - {xs[k]}, Without(xs, k),
                    if prev[xs[k]] != NULL then head else next[xs[k]],
                    UnlinkNext(next, prev, xs[k]), UnlinkPrev(next, prev, xs[k]))
  {
    UnlinkLocal(free, next, prev, xs[k]);
    ChainWithout(xs, head, next, prev, k);
  }

  // ---------------------------------------------------------------------
  // Removing a stranded node
  // ---------------------------------------------------------------------

  /** The nodes met when following `next` from `p` inside `avail`. */
  ghost function Walk(next: Words, p: int, avail: set<nat>): seq<nat>
    decreases avail
  {
    if 0 <= p < PAGES && p in avail then [p] + Walk(next, next[p], avail - {p}) else []
  }

  /**
   From a node whose predecessor lies outside `avail`, where no node outside
   `avail` has its predecessor inside, the walk follows `next` down to NULL.
   */
  lemma {:induction false} WalkChain(free: set<nat>, next: Words, prev: Words, p: int, avail: set<nat>)
    requires forall x :: x in free ==> x < PAGES
    requires forall x :: x in free ==> Local(free, next, prev, x)
    requires avail <= free && (p == NULL || (0 <= p < PAGES && p in avail && prev[p] !in avail))
    requires forall x :: x in free - avail ==> prev[x] !in avail
    ensures var ys := Walk(next, p, avail);
            && (ys == [] <==> p == NULL) && (p != NULL ==> ys[0] == p)
            && (forall k :: 0 <= k < |ys| ==> ys[k] in avail)
            && (forall j, k :: 0 <= j < |ys| && k == j + 1 && k < |ys| ==> next[ys[j]] == ys[k] && prev[ys[k]] == ys[j])
            && (ys != [] ==> next[ys[|ys| - 1]] == NULL)
            && (forall j, k :: 0 <= j < k < |ys| ==> ys[j] != ys[k])
    decreases avail
  {
    if p != NULL {
      assert Local(free, next, prev, p);
      var q := next[p];
      if q != NULL {
        assert prev[q] == p && q in avail && q != p;
      }
      WalkChain(free, next, prev, q, avail - {p});
      var zs := Walk(next, q, avail - {p});
      var ys := Walk(next, p, avail);
      assert ys == [p] + zs;
    }
  }

  /** The list that becomes reachable when a stranded chain start is removed. */
  ghost function Exposed(free: set<nat>, next: Words, node: nat): seq<nat>
    requires node < PAGES
  {
    Walk(next, next[node], free - {node})
  }

  /** A stranded node's neighbours are stranded too. */
  lemma NeighboursUnlisted(free: set<nat>, xs: seq<nat>, head: int, next: Words, prev: Words, node: nat)
    requires LevelOk(free, xs, head, next, prev) && node in free && node !in xs
    ensures next[node] !in xs && prev[node] !in xs
  {
    assert Local(free, next, prev, node);
    forall k | 0 <= k < |xs|
      ensures xs[k] != next[node] && xs[k] != prev[node]
    {
      assert k > 0 ==> prev[xs[k]] == xs[k - 1];
      assert k + 1 < |xs| ==> next[xs[k]] == xs[k + 1];
    }
  }

  lemma RemoveStrandedInner(free: set<nat>, xs: seq<nat>, head: int, next: Words, prev: Words, node: nat)
    requires LevelOk(free, xs, head, next, prev) && node in free && node !in xs && prev[node] != NULL
    ensures Local(free, next, prev, node)
    ensures LevelOk(free - {node}, xs, head, UnlinkNext(next, prev, node), UnlinkPrev(next, prev, node))
  {
    UnlinkLocal(free, next, prev, node);
    NeighboursUnlisted(free, xs, head, next, prev, node);
    var next', prev' := UnlinkNext(next, prev, node), UnlinkPrev(next, prev, node);
    assert forall k :: 0 <= k < |xs| ==> next'[xs[k]] == next[xs[k]] && prev'[xs[k]] == prev[xs[k]];
  }

  lemma RemoveStrandedStart(free: set<nat>, xs: seq<nat>, head: int, next: Words, prev: Words, node: nat)
    requires LevelOk(free, xs, head, next, prev) && node in free && node !in xs && prev[node] == NULL
    ensures Local(free, next, prev, node)
    ensures LevelOk(free - {node}, Exposed(free, next, node), next[node], next, UnlinkPrev(next, prev, node))
  {
    UnlinkLocal(free, next, prev, node);
    var rest, prev' := free - {node}, UnlinkPrev(next, prev, node);
    assert UnlinkNext(next, prev, node) == next;
    WalkChain(rest, next, prev', next[node], rest);
  }

  // ---------------------------------------------------------------------
  // All levels
  // ---------------------------------------------------------------------

  lemma HeadFirst(free: Bitmaps, lists: Lists, head: Heads, next: Words, prev: Words, l: nat)
    requires AllOk(free, lists, head, next, prev) && l <= TOP
    ensures head[l] == if lists[l] == [] then NULL else lists[l][0]
  {}

  lemma ListedNode(free: Bitmaps, lists: Lists, head: Heads, next: Words, prev: Words, l: nat, k: nat)
    requires AllOk(free, lists, head, next, prev) && l <= TOP && k < |lists[l]|
    ensures var node := lists[l][k];
            && node in free[l] && node < PAGES
            && next[node] == if k + 1 < |lists[l]| then lists[l][k + 1] else NULL
  {}

  lemma SmallerSet(a: set<nat>, b: set<nat>)
    requires a < b
    ensures |a| < |b|
  {
    assert b == a + (b - a) && |b - a| > 0;
  }

  lemma PopOk(free: Bitmaps, lists: Lists, head: Heads, next: Words, prev: Words, l: nat)
    requires AllOk(free, lists, head, next, prev) && l <= TOP && lists[l] != []
    ensures var x := lists[l][0];
            && head[l] == x && x in free[l] && x < PAGES && prev[x] == NULL
            && next[x] == (if |lists[l]| > 1 then lists[l][1] else NULL)
            && AllOk(free[l := free[l] - {x}], lists[l := lists[l][1..]], head[l := next[x]],
                     next, UnlinkPrev(next, prev, x))
  {
    var xs := lists[l];
    assert LevelOk(free[l], xs, head[l], next, prev);
    var x := xs[0];
    RemoveListed(free[l], xs, head[l], next, prev, 0);
    assert Without(xs, 0) == xs[1..];
    assert Local(free[l], next, prev, x) && prev[x] == NULL;
    hide LevelOk;
    AllOkUpdate(free, lists, head, next, prev, l, free[l] - {x}, xs[1..], next[x],
                next, UnlinkPrev(next, prev, x));
  }

  /** What is reachable at a level once `node` is unlinked. */
  ghost function Removed(free: set<nat>, xs: seq<nat>, next: Words, prev: Words, node: nat): seq<nat>
    requires node < PAGES
  {
    if node in xs then var k :| 0 <= k < |xs| && xs[k] == node; Without(xs, k)
    else if prev[node] != NULL then xs
    else Exposed(free, next, node)
  }

  lemma RemoveLevel(free: set<nat>, xs: seq<nat>, head: int, next: Words, prev: Words, node: nat)
    requires LevelOk(free, xs, head, next, prev) && node in free
    ensures Local(free, next, prev, node)
    ensures LevelOk(free - {node}, Removed(free, xs, next, prev, node),
                    if prev[node] != NULL then head else next[node],
                    UnlinkNext(next, prev, node), UnlinkPrev(next, prev, node))
  {
    if node in xs {
      var k :| 0 <= k < |xs| && xs[k] == node && Removed(free, xs, next, prev, node) == Without(xs, k);
      RemoveListed(free, xs, head, next, prev, k);
    } else if prev[node] != NULL {
      RemoveStrandedInner(free, xs, head, next, prev, node);
    } else {
      RemoveStrandedStart(free, xs, head, next, prev, node);
    }
  }

  lemma RemoveOk(free: Bitmaps, lists: Lists, head: Heads, next: Words, prev: Words, l: nat, node: nat)
    requires AllOk(free, lists, head, next, prev) && l <= TOP && node in free[l]
    ensures node < PAGES && Local(free[l], next, prev, node)
    ensures UnlinkNext(next, prev, node)[node] == next[node]
    ensures AllOk(free[l := free[l] - {node}],
                  lists[l := Removed(free[l], lists[l], next, prev, node)],
                  if prev[node] != NULL then head else head[l := next[node]],
                  UnlinkNext(next, prev, node), UnlinkPrev(next, prev, node))
  {
    assert LevelOk(free[l], lists[l], head[l], next, prev);
    RemoveLevel(free[l], lists[l], head[l], next, prev, node);
    var h := if prev[node] != NULL then head[l] else next[node];
    var next', prev' := UnlinkNext(next, prev, node), UnlinkPrev(next, prev, node);
    assert forall x :: 0 <= x < PAGES && x !in free[l] ==> next'[x] == next[x] && prev'[x] == prev[x];
    assert forall m :: 0 <= m <= TOP && m != l ==> free[l] !! free[m];
    AllOkUpdate(free, lists, head, next, prev, l, free[l] - {node},
                Removed(free[l], lists[l], next, prev, node), h, next', prev');
    assert head[l := h] == if prev[node] != NULL then head else head[l := next[node]];
  }

  /** Unlinking a listed node strands no other. */
  lemma RemoveReachable(free: Bitmaps, lists: Lists, next: Words, prev: Words, l: nat, node: nat)
    requires l <= TOP && node in free[l] && node < PAGES
    requires Reachable(free, lists)
    ensures Reachable(free[l := free[l] - {node}], lists[l := Removed(free[l], lists[l], next, prev, node)])
  {}

  /** Words of pages that hold no node may change at will. */
  lemma StrayWords(free: Bitmaps, lists: Lists, head: Heads, next: Words, prev: Words, page: nat, a: int, b: int)
    requires AllOk(free, lists, head, next, prev) && page < PAGES
    requires forall l :: 0 <= l <= TOP ==> page !in free[l]
    ensures AllOk(free, lists, head, next[page := a], prev[page := b])
  {
    forall l | 0 <= l <= TOP
      ensures LevelOk(free[l], lists[l], head[l], next[page := a], prev[page := b])
    {
      assert LevelOk(free[l], lists[l], head[l], next, prev);
      assert page !in free[l];
    }
  }

  // ---------------------------------------------------------------------
  // Dropping the pages
  // ---------------------------------------------------------------------

  function Zeroed(): Words {
    seq(64, i => NULL)
  }

  /** What is still reachable once every link word reads NULL. */
  function FirstOnly(lists: Lists): Lists {
    seq(7, l requires 0 <= l < 7 => if lists[l] == [] then [] else [lists[l][0]])
  }

  /** Zero-filling the pages keeps the link structure, at the price of stranding all but the heads. */
  lemma DropKeepsLinks(free: Bitmaps, lists: Lists, head: Heads, next: Words, prev: Words)
    requires AllOk(free, lists, head, next, prev)
    ensures AllOk(free, FirstOnly(lists), head, Zeroed(), Zeroed())
  {}

  /** Dropping strands nothing exactly when no level has two free blocks. */
  lemma DropReachableIff(free: Bitmaps, lists: Lists, head: Heads, next: Words, prev: Words)
    requires AllOk(free, lists, head, next, prev) && Reachable(free, lists)
    ensures Reachable(free, FirstOnly(lists))
            <==> forall l, x, y :: 0 <= l <= TOP && x in free[l] && y in free[l] ==> x == y
  {}
}
