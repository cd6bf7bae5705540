/**
 The per-node pool of 2 MiB huge pages from which 64 KiB slab pages are
 carved: a bitmap per huge page, a list of partly carved ones and a list of
 fully carved ones per NUMA node, and the counters kept beside them. Bitmaps
 are modelled as the sets of their one bits.
 */
module HugePool {
  import opened Basics
  import opened Slab

  const HUGE_PAGE: nat := 0x20_0000
  const SLABS: nat := 32
  const NODES: nat := 64

  type Bitmaps = map<nat, set<nat>>

  const ALL: set<nat> := set i: nat | 0 <= i < SLABS

  /** One NUMA node: lists of huge pages by base address, and their bitmaps. */
  datatype Node = Node(partials: seq<nat>, fulls: seq<nat>, bits: Bitmaps,
                       alive: nat, obtained: nat, returned: nat, carves: nat, releases: nat)

  const EMPTY: Node := Node([], [], map[], 0, 0, 0, 0, 0)

  // ---------------------------------------------------------------------
  // Carving one huge page
  // ---------------------------------------------------------------------

  function PageAt(base: nat, i: nat): nat {
    base + i * PAGE_SIZE
  }

  function BaseOf(page: nat): nat {
    page - page % HUGE_PAGE
  }

  lemma PageFound(base: nat, i: nat)
    requires base % HUGE_PAGE == 0 && i < SLABS
    ensures BaseOf(PageAt(base, i)) == base
    ensures (PageAt(base, i) - base) % PAGE_SIZE == 0 && (PageAt(base, i) - base) / PAGE_SIZE == i
  {
    hide BaseOf;
    WithinHuge(base, i * PAGE_SIZE);
  }

  lemma WithinHuge(base: nat, offset: nat)
    requires base % HUGE_PAGE == 0 && offset < HUGE_PAGE
    ensures BaseOf(base + offset) == base
  {}

  // ---------------------------------------------------------------------
  // What a node's lists mean
  // ---------------------------------------------------------------------

  /** The carved pages of a node. */
  ghost predicate Carved(n: Node, page: nat) {
    var base := BaseOf(page);
    base in n.bits && (page - base) % PAGE_SIZE == 0 && (page - base) / PAGE_SIZE in n.bits[base]
  }

  ghost function Total(bits: Bitmaps, bases: seq<nat>): nat {
    if bases == [] then 0
    else (if bases[0] in bits then |bits[bases[0]]| else 0) + Total(bits, bases[1..])
  }

  ghost predicate ListsOk(n: Node) {
    && Distinct(n.partials) && Distinct(n.fulls)
    && (forall b :: b in n.bits <==> b in n.partials || b in n.fulls)
    && (forall b :: b in n.partials ==> n.bits[b] < ALL && n.bits[b] != {})
    && (forall b :: b in n.fulls ==> n.bits[b] == ALL)
    && (forall b :: b in n.bits ==> b % HUGE_PAGE == 0)
  }

  /** Live huge pages, and carves still out, are what the counters say. */
  ghost predicate CountersOk(n: Node) {
    && n.obtained == n.alive + n.returned && n.alive == |n.partials| + |n.fulls|
    && n.carves == n.releases + Total(n.bits, n.partials) + SLABS * |n.fulls|
  }

  ghost predicate NodeOk(n: Node) {
    ListsOk(n) && CountersOk(n)
  }

  lemma AllCount()
    ensures |ALL| == SLABS
  {
    BelowIs(SLABS);
    assert ALL == Below(SLABS);
  }

  // ---------------------------------------------------------------------
  // Sums over a list
  // ---------------------------------------------------------------------

  lemma {:induction false} TotalFrame(bits: Bitmaps, bits': Bitmaps, bases: seq<nat>)
    requires forall b :: b in bases ==> (b in bits <==> b in bits') && (b in bits ==> bits[b] == bits'[b])
    ensures Total(bits, bases) == Total(bits', bases)
    decreases |bases|
  {
    if bases != [] {
      assert forall b :: b in bases[1..] ==> b in bases;
      TotalFrame(bits, bits', bases[1..]);
    }
  }

  lemma {:induction false} TotalUpdate(bits: Bitmaps, bases: seq<nat>, k: nat, v: set<nat>)
    requires Distinct(bases) && k < |bases| && bases[k] in bits
    ensures Total(bits[bases[k] := v], bases) + |bits[bases[k]]| == Total(bits, bases) + |v|
    decreases |bases|
  {
    var bits' := bits[bases[k] := v];
    if k == 0 {
      assert bases[0] !in bases[1..];
      TotalFrame(bits, bits', bases[1..]);
    } else {
      TotalUpdate(bits, bases[1..], k - 1, v);
    }
  }

  lemma {:induction false} TotalWithout(bits: Bitmaps, bases: seq<nat>, k: nat)
    requires k < |bases| && bases[k] in bits
    ensures Total(bits, Without(bases, k)) + |bits[bases[k]]| == Total(bits, bases)
    decreases |bases|
  {
    if k == 0 {
      assert Without(bases, 0) == bases[1..];
    } else {
      TotalWithout(bits, bases[1..], k - 1);
      var rest := Without(bases[1..], k - 1);
      assert Without(bases, k) == [bases[0]] + rest;
      assert ([bases[0]] + rest)[1..] == rest;
    }
  }

  lemma TotalPrepend(bits: Bitmaps, b: nat, bases: seq<nat>)
    requires b in bits
    ensures Total(bits, [b] + bases) == |bits[b]| + Total(bits, bases)
  {}

  // ---------------------------------------------------------------------
  // Carving
  // ---------------------------------------------------------------------

  /** A good node, except that its first huge page may be one nothing is carved from yet. */
  ghost predicate Ready(n: Node) {
    && CountersOk(n) && n.partials != [] && Distinct(n.partials) && Distinct(n.fulls)
    && (forall b :: b in n.bits <==> b in n.partials || b in n.fulls)
    && (forall b :: b in n.partials ==> n.bits[b] < ALL)
    && (forall b :: b in n.partials[1..] ==> n.bits[b] != {})
    && (forall b :: b in n.fulls ==> n.bits[b] == ALL)
    && (forall b :: b in n.bits ==> b % HUGE_PAGE == 0)
  }

  /** The node after bit `i` of its first huge page has been set. */
  function AfterCarve(n: Node, i: nat): Node
    requires n.partials != [] && n.partials[0] in n.bits
  {
    var base := n.partials[0];
    var used := n.bits[base] + {i};
    var n1 := n.(bits := n.bits[base := used], carves := n.carves + 1);
    if used == ALL then n1.(partials := n.partials[1..], fulls := [base] + n.fulls) else n1
  }

  lemma CarveStays(n: Node, base: nat, used: set<nat>, n': Node)
    requires Ready(n) && base == n.partials[0] && used < ALL && used != {}
    requires n'.bits == n.bits[base := used] && n'.partials == n.partials && n'.fulls == n.fulls
    ensures ListsOk(n')
  {}

  lemma CarveFills(n: Node, base: nat, n': Node)
    requires Ready(n) && base == n.partials[0]
    requires n'.bits == n.bits[base := ALL] && n'.partials == n.partials[1..] && n'.fulls == [base] + n.fulls
    ensures ListsOk(n')
  {}

  lemma CarveLists(n: Node, i: nat)
    requires Ready(n) && i in ALL && i !in n.bits[n.partials[0]]
    ensures ListsOk(AfterCarve(n, i))
  {
    var base := n.partials[0];
    var used := n.bits[base] + {i};
    assert used <= ALL;
    assert i in used;
    if used == ALL {
      CarveFills(n, base, AfterCarve(n, i));
    } else {
      CarveStays(n, base, used, AfterCarve(n, i));
    }
  }

  lemma CarveCounters(n: Node, i: nat)
    requires Ready(n) && i in ALL && i !in n.bits[n.partials[0]]
    ensures CountersOk(AfterCarve(n, i))
  {
    var base := n.partials[0];
    var used := n.bits[base] + {i};
    var bits' := n.bits[base := used];
    TotalUpdate(n.bits, n.partials, 0, used);
    if used == ALL {
      AllCount();
      assert base !in n.partials[1..];
    }
  }

  lemma CarveSets(n: Node, i: nat, p: nat)
    requires Ready(n) && i < SLABS && i !in n.bits[n.partials[0]]
    ensures var page := PageAt(n.partials[0], i);
            !Carved(n, page) && (Carved(AfterCarve(n, i), p) <==> Carved(n, p) || p == page)
  {
    var base := n.partials[0];
    PageFound(base, i);
    if BaseOf(p) == base && (p - base) % PAGE_SIZE == 0 && (p - base) / PAGE_SIZE == i {
      assert p == PageAt(base, i);
    }
  }

  /** A page from the first partly carved huge page, or from a new one when there is none. */
  method CarveNode(n: Node, supply: Option<nat>) returns (n': Node, page: Option<nat>)
    requires NodeOk(n)
    requires supply.Some? ==> supply.value % HUGE_PAGE == 0 && supply.value !in n.bits
    ensures NodeOk(n')
    ensures page.None? <==> n.partials == [] && supply.None?
    ensures page.None? ==> n' == n
    ensures page.Some? ==>
      && !Carved(n, page.value) && (forall p: nat :: Carved(n', p) <==> Carved(n, p) || p == page.value)
      && BaseOf(page.value) == (if n.partials != [] then n.partials[0] else supply.value)
      && n'.bits.Keys == n.bits.Keys + {BaseOf(page.value)}
      && n'.carves == n.carves + 1 && n'.releases == n.releases && n'.returned == n.returned
    ensures page.Some? ==>
      forall q: nat :: BaseOf(q) == BaseOf(page.value) && (q - BaseOf(q)) % PAGE_SIZE == 0 && q < page.value ==> Carved(n, q)
  {
    n' := n;
    if n.partials == [] {
      if supply.None? {
        return n, None;
      }
      n' := n.(partials := [supply.value], bits := n.bits[supply.value := {}],
               alive := n.alive + 1, obtained := n.obtained + 1);
      AddedReady(n, supply.value, n');
    }
    hide Ready, NodeOk;
    ghost var ready := n';
    CarveFacts(ready);
    var base := n'.partials[0];
    var i := LowestClear(n'.bits[base], 0, SLABS);
    page := Some(PageAt(base, i));
    n' := AfterCarve(n', i);
  }

  /** Everything a carve of the lowest free page of the first huge page does. */
  lemma CarveFacts(n: Node)
    requires Ready(n)
    ensures n.partials != [] && n.partials[0] in n.bits
    ensures var i := LowestClear(n.bits[n.partials[0]], 0, SLABS);
            var page, n' := PageAt(n.partials[0], i), AfterCarve(n, i);
            && i < SLABS && NodeOk(n') && BaseOf(page) == n.partials[0] && !Carved(n, page)
            && (forall p: nat :: Carved(n', p) <==> Carved(n, p) || p == page)
            && (forall q: nat :: BaseOf(q) == BaseOf(page) && (q - BaseOf(q)) % PAGE_SIZE == 0 && q < page ==> Carved(n, q))
  {
    var base := n.partials[0];
    var used := n.bits[base];
    LowestClearIs(used, 0, SLABS);
    var i := LowestClear(used, 0, SLABS);
    SomeClear(used, i);
    CarveLists(n, i);
    CarveCounters(n, i);
    PageFound(base, i);
    var page, n' := PageAt(base, i), AfterCarve(n, i);
    hide AfterCarve, Ready, ListsOk, CountersOk, LowestClear;
    forall p: nat
      ensures Carved(n', p) <==> Carved(n, p) || p == page
    {
      CarveSets(n, i, p);
    }
    CarveSets(n, i, 0);
    forall q: nat | BaseOf(q) == base && (q - BaseOf(q)) % PAGE_SIZE == 0 && q < page
      ensures Carved(n, q)
    {
      assert (q - base) / PAGE_SIZE < i;
    }
  }

  lemma SomeClear(used: set<nat>, i: nat)
    requires used < ALL && i <= SLABS && forall j :: 0 <= j < i ==> j in used
    ensures i < SLABS
  {}

  lemma AddedReady(n: Node, base: nat, n': Node)
    requires NodeOk(n) && n.partials == [] && base % HUGE_PAGE == 0 && base !in n.bits
    requires n' == n.(partials := [base], bits := n.bits[base := {}], alive := n.alive + 1, obtained := n.obtained + 1)
    ensures Ready(n') && forall p: nat :: Carved(n', p) <==> Carved(n, p)
  {
    assert [base][1..] == [];
    assert Total(n'.bits, n'.partials) == 0;
    assert forall b :: b in n'.partials <==> b == base;
    assert 0 in ALL;
  }

  // ---------------------------------------------------------------------
  // Releasing
  // ---------------------------------------------------------------------

  /** Takes the first entry equal to `base` off a list. */
  method Unlink(list: seq<nat>, base: nat) returns (rest: seq<nat>, ghost k: nat)
    requires base in list
    ensures k < |list| && list[k] == base && rest == Without(list, k)
  {
    var j := 0;
    while list[j] != base
      invariant 0 <= j < |list| && base in list[j..]
      decreases |list| - j
    {
      j := j + 1;
    }
    return Without(list, j), j;
  }

  /** A page of the fully carved huge page `base` comes back: it is partly carved again. */
  lemma FromFull(n: Node, base: nat, k: nat, i: nat, n': Node)
    requires NodeOk(n) && k < |n.fulls| && n.fulls[k] == base && i in ALL
    requires n' == n.(bits := n.bits[base := n.bits[base] - {i}], releases := n.releases + 1,
                      fulls := Without(n.fulls, k), partials := [base] + n.partials)
    ensures NodeOk(n') && n'.bits[base] != {}
  {
    assert base in n.fulls && base !in n.partials;
    AllCount();
    assert |ALL - {i}| == SLABS - 1;
    FromFullLists(n, base, k, i, n');
    hide ListsOk, Distinct, Without;
    WithoutIs(n.fulls, k);
    TotalPrepend(n'.bits, base, n.partials);
    TotalFrame(n.bits, n'.bits, n.partials);
  }

  lemma FromFullLists(n: Node, base: nat, k: nat, i: nat, n': Node)
    requires ListsOk(n) && k < |n.fulls| && n.fulls[k] == base && i in ALL && ALL - {i} != {}
    requires n'.bits == n.bits[base := n.bits[base] - {i}]
    requires n'.fulls == Without(n.fulls, k) && n'.partials == [base] + n.partials
    ensures ListsOk(n') && n'.bits[base] != {}
  {
    WithoutIs(n.fulls, k);
    hide Without;
    assert base in n.fulls && n.bits[base] == ALL;
    var ps := [base] + n.partials;
    assert forall b :: b in ps <==> b == base || b in n.partials;
    assert i in ALL && i !in n'.bits[base];
  }

  /** A page of a partly carved huge page comes back and others are still out. */
  lemma FromPartial(n: Node, base: nat, k: nat, i: nat, n': Node)
    requires NodeOk(n) && k < |n.partials| && n.partials[k] == base && i in n.bits[base] && n.bits[base] != {i}
    requires n' == n.(bits := n.bits[base := n.bits[base] - {i}], releases := n.releases + 1)
    ensures NodeOk(n')
  {
    assert base in n.partials;
    TotalUpdate(n.bits, n.partials, k, n.bits[base] - {i});
    assert base !in n.fulls;
    assert n.bits[base] == (n.bits[base] - {i}) + {i};
  }

  /** The last page of a huge page comes back: the huge page goes too. */
  lemma FromLast(n: Node, base: nat, k: nat, i: nat, n': Node)
    requires NodeOk(n) && k < |n.partials| && n.partials[k] == base && n.bits[base] == {i} && n.alive > 0
    requires n' == n.(bits := n.bits - {base}, releases := n.releases + 1, partials := Without(n.partials, k),
                      alive := n.alive - 1, returned := n.returned + 1)
    ensures NodeOk(n')
  {
    WithoutIs(n.partials, k);
    assert base in n.partials;
    assert base !in n.fulls by {
      if base in n.fulls {
        AllCount();
      }
    }
    TotalWithout(n.bits, n.partials, k);
    TotalFrame(n.bits, n'.bits, n'.partials);
  }

  lemma ReleaseSets(n: Node, page: nat, n': Node)
    requires Carved(n, page)
    requires var base := BaseOf(page);
             var left := n.bits[base] - {(page - base) / PAGE_SIZE};
             n'.bits == (if left == {} then n.bits - {base} else n.bits[base := left])
    ensures forall p: nat :: Carved(n', p) <==> Carved(n, p) && p != page
  {
    var base := BaseOf(page);
    var i := (page - base) / PAGE_SIZE;
    forall p: nat
      ensures Carved(n', p) <==> Carved(n, p) && p != page
    {
      if BaseOf(p) == base && (p - base) % PAGE_SIZE == 0 {
        var j := (p - base) / PAGE_SIZE;
        assert j == i ==> p == page;
        assert j in n.bits[base] && j != i ==> j in n.bits[base] - {i};
      }
    }
  }

  lemma OwnedBase(n: Node, base: nat)
    requires NodeOk(n)
    ensures base in n.bits <==> base in n.partials || base in n.fulls
    ensures base in n.bits ==> n.bits[base] <= ALL
    ensures base in n.partials ==> n.alive > 0
  {}

  /**
   Takes a carved page back and refuses anything else. The huge page is given
   up exactly when its last carved page comes back.
   */
  method ReleaseNode(n: Node, page: nat) returns (n': Node, ok: bool, freed: Option<nat>)
    requires NodeOk(n)
    ensures NodeOk(n') && (ok <==> Carved(n, page))
    ensures !ok ==> n' == n && freed.None?
    ensures ok ==>
      && (forall p: nat :: Carved(n', p) <==> Carved(n, p) && p != page)
      && n'.releases == n.releases + 1 && n'.carves == n.carves
      && freed == (if BaseOf(page) in n'.bits then None else Some(BaseOf(page)))
      && n'.bits.Keys == n.bits.Keys - (if freed.Some? then {BaseOf(page)} else {})
    ensures freed.Some? <==> ok && forall p: nat :: Carved(n, p) && BaseOf(p) == BaseOf(page) ==> p == page
  {
    hide NodeOk;
    var base := BaseOf(page);
    OwnedBase(n, base);
    n', ok, freed := n, false, None;
    if base !in n.partials && base !in n.fulls {
      return;
    }
    var offset := page - base;
    if offset % PAGE_SIZE != 0 {
      return;
    }
    var i := offset / PAGE_SIZE;
    if i >= SLABS || i !in n.bits[base] {
      return;
    }
    ok := true;
    var left := n.bits[base] - {i};
    n' := n.(bits := n.bits[base := left], releases := n.releases + 1);
    if base in n.fulls {
      var rest, k := Unlink(n.fulls, base);
      n' := n'.(fulls := rest, partials := [base] + n.partials);
      FromFull(n, base, k, i, n');
      ReleaseSets(n, page, n');
    } else {
      var rest, k := Unlink(n.partials, base);
      if left == {} {
        n' := n'.(bits := n.bits - {base}, partials := rest, alive := n.alive - 1, returned := n.returned + 1);
        FromLast(n, base, k, i, n');
        freed := Some(base);
      } else {
        FromPartial(n, base, k, i, n');
      }
      ReleaseSets(n, page, n');
    }
    LastOut(n, page, i);
  }

  /** Whether any other page of the same huge page is out. */
  lemma LastOut(n: Node, page: nat, i: nat)
    requires NodeOk(n) && Carved(n, page) && i == (page - BaseOf(page)) / PAGE_SIZE
    ensures n.bits[BaseOf(page)] == {i} <==> forall p: nat :: Carved(n, p) && BaseOf(p) == BaseOf(page) ==> p == page
  {
    var base := BaseOf(page);
    if n.bits[base] == {i} {
      forall p: nat | Carved(n, p) && BaseOf(p) == base
        ensures p == page
      {
      }
    } else {
      var j :| j in n.bits[base] && j != i;
      assert j in ALL;
      PageFound(base, j);
      assert Carved(n, PageAt(base, j));
    }
  }

  // ---------------------------------------------------------------------
  // All nodes
  // ---------------------------------------------------------------------

  ghost predicate Apart(nodes: seq<Node>) {
    forall i, j :: 0 <= i < j < |nodes| ==> nodes[i].bits.Keys !! nodes[j].bits.Keys
  }

  ghost predicate OutOf(nodes: seq<Node>, page: nat) {
    exists i :: 0 <= i < |nodes| && Carved(nodes[i], page)
  }

  lemma OutUpdated(nodes: seq<Node>, i: nat, n: Node, p: nat)
    requires i < |nodes|
    ensures OutOf(nodes[i := n], p) <==> Carved(n, p) || exists j :: 0 <= j < |nodes| && j != i && Carved(nodes[j], p)
    ensures OutOf(nodes, p) <==> Carved(nodes[i], p) || exists j :: 0 <= j < |nodes| && j != i && Carved(nodes[j], p)
  {
    hide Carved;
    var nodes' := nodes[i := n];
    if OutOf(nodes', p) {
      var j :| 0 <= j < |nodes'| && Carved(nodes'[j], p);
      assert j != i ==> Carved(nodes[j], p);
    }
    if Carved(n, p) {
      assert Carved(nodes'[i], p);
    }
    if j :| 0 <= j < |nodes| && j != i && Carved(nodes[j], p) {
      assert Carved(nodes'[j], p);
    }
  }

  class Pool {
    var nodes: seq<Node>

    ghost predicate Valid()
      reads this
    {
      |nodes| == NODES && (forall i :: 0 <= i < NODES ==> NodeOk(nodes[i])) && Apart(nodes)
    }

    /** The pages this pool has carved and not taken back. */
    ghost predicate Out(page: nat)
      reads this
    {
      OutOf(nodes, page)
    }

    constructor ()
      ensures Valid() && forall p: nat :: !Out(p)
    {
      nodes := seq(NODES, _ => EMPTY);
    }

    /** The page comes from the node asked for, and no other huge page is touched. */
    method Carve(i: nat, supply: Option<nat>) returns (page: Option<nat>)
      requires Valid()
      requires supply.Some? ==>
        supply.value % HUGE_PAGE == 0 && forall j :: 0 <= j < NODES ==> supply.value !in nodes[j].bits
      modifies this
      ensures Valid()
      ensures page.None? <==> i >= NODES || (old(nodes)[i].partials == [] && supply.None?)
      ensures page.None? ==> nodes == old(nodes)
      ensures page.Some? ==>
        && (forall j :: 0 <= j < NODES && j != i ==> nodes[j] == old(nodes)[j])
        && !old(Out(page.value)) && (forall p: nat :: Out(p) <==> old(Out(p)) || p == page.value)
    {
      if i >= NODES {
        return None;
      }
      hide NodeOk, Carved;
      ghost var before := nodes;
      var n, carved := CarveNode(nodes[i], supply);
      if carved.None? {
        assert nodes[i := n] == nodes;
        return None;
      }
      page := carved;
      CarveOthers(nodes, i, n, page.value);
      nodes := nodes[i := n];
    }

    /** True exactly for pages that are out; which node carved them is found by search. */
    method Release(page: nat) returns (ok: bool, freed: Option<nat>)
      requires Valid()
      modifies this
      ensures Valid() && (ok <==> old(Out(page)))
      ensures !ok ==> nodes == old(nodes) && freed.None?
      ensures ok ==> forall p: nat :: Out(p) <==> old(Out(p)) && p != page
      ensures freed.Some? <==> ok && forall p: nat :: old(Out(p)) && BaseOf(p) == BaseOf(page) ==> p == page
      ensures freed.Some? ==> freed.value == BaseOf(page)
    {
      hide NodeOk, Carved;
      var i := 0;
      while i < NODES
        invariant 0 <= i <= NODES && nodes == old(nodes) && Valid()
        invariant forall j :: 0 <= j < i ==> BaseOf(page) !in nodes[j].bits
      {
        OwnedBase(nodes[i], BaseOf(page));
        if BaseOf(page) in nodes[i].partials || BaseOf(page) in nodes[i].fulls {
          var n;
          n, ok, freed := ReleaseNode(nodes[i], page);
          OnlyOwner(nodes, i, page);
          if ok {
            ReleaseOthers(nodes, i, n, page);
            nodes := nodes[i := n];
          }
          return;
        }
        i := i + 1;
      }
      NoOwner(nodes, page);
      return false, None;
    }
  }

  lemma NoOwner(nodes: seq<Node>, page: nat)
    requires forall j :: 0 <= j < |nodes| ==> BaseOf(page) !in nodes[j].bits
    ensures forall j :: 0 <= j < |nodes| ==> !Carved(nodes[j], page)
  {}

  lemma OnlyOwner(nodes: seq<Node>, i: nat, page: nat)
    requires Apart(nodes) && i < |nodes| && BaseOf(page) in nodes[i].bits
    ensures forall j, p: nat :: 0 <= j < |nodes| && j != i && BaseOf(p) == BaseOf(page) ==> !Carved(nodes[j], p)
  {}

  lemma CarveOthers(nodes: seq<Node>, i: nat, n: Node, page: nat)
    requires Apart(nodes) && i < |nodes| && n.bits.Keys == nodes[i].bits.Keys + {BaseOf(page)}
    requires BaseOf(page) !in nodes[i].bits ==> forall j :: 0 <= j < |nodes| ==> BaseOf(page) !in nodes[j].bits
    requires !Carved(nodes[i], page) && forall p: nat :: Carved(n, p) <==> Carved(nodes[i], p) || p == page
    ensures Apart(nodes[i := n]) && !OutOf(nodes, page)
    ensures forall p: nat :: OutOf(nodes[i := n], p) <==> OutOf(nodes, p) || p == page
  {
    assert forall j :: 0 <= j < |nodes| && j != i ==> !Carved(nodes[j], page);
    hide Carved;
    forall p: nat
      ensures OutOf(nodes[i := n], p) <==> OutOf(nodes, p) || p == page
    {
      OutUpdated(nodes, i, n, p);
    }
  }

  lemma ReleaseOthers(nodes: seq<Node>, i: nat, n: Node, page: nat)
    requires Apart(nodes) && i < |nodes| && n.bits.Keys <= nodes[i].bits.Keys && Carved(nodes[i], page)
    requires forall p: nat :: Carved(n, p) <==> Carved(nodes[i], p) && p != page
    ensures Apart(nodes[i := n])
    ensures forall p: nat :: OutOf(nodes[i := n], p) <==> OutOf(nodes, p) && p != page
  {
    OnlyOwner(nodes, i, page);
    hide Carved;
    forall p: nat
      ensures OutOf(nodes[i := n], p) <==> OutOf(nodes, p) && p != page
    {
      OutUpdated(nodes, i, n, p);
    }
  }
}
