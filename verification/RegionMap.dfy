/**
 The map of live mappings: a fixed array of regions kept sorted by start
 address. Registration shifts the tail up and inserts, removal shifts it
 down, and ownership of an address is decided by binary search.
 */
module RegionMap {
  import opened Basics

  const CAPACITY: nat := 4096
  const UNBOUND: nat := 0xffff

  datatype Region = Region(start: nat, end: nat, node: nat, anchor: bool)

  // ---------------------------------------------------------------------
  // Sorted tables as values
  // ---------------------------------------------------------------------

  predicate Covers(r: Region, addr: nat) {
    r.start <= addr < r.end
  }

  /** Regions are mappings: nonempty, away from NULL, in order and disjoint. */
  ghost predicate Sorted(rs: seq<Region>) {
    && (forall i :: 0 <= i < |rs| ==> 0 < rs[i].start < rs[i].end)
    && (forall i, j :: 0 <= i < j < |rs| ==> rs[i].end <= rs[j].start)
  }

  ghost predicate Member(rs: seq<Region>, addr: nat) {
    exists i :: 0 <= i < |rs| && Covers(rs[i], addr)
  }

  ghost predicate Apart(rs: seq<Region>, r: Region) {
    forall i :: 0 <= i < |rs| ==> rs[i].end <= r.start || r.end <= rs[i].start
  }

  /** `low` splits the table at `addr`: starts up to it, then starts beyond it. */
  ghost predicate SplitsAt(rs: seq<Region>, addr: nat, low: nat) {
    && low <= |rs|
    && (forall i :: 0 <= i < low ==> rs[i].start <= addr)
    && (forall i :: low <= i < |rs| ==> addr < rs[i].start)
  }

  ghost predicate LowerBoundAt(rs: seq<Region>, start: nat, low: nat) {
    && low <= |rs|
    && (forall i :: 0 <= i < low ==> rs[i].start < start)
    && (forall i :: low <= i < |rs| ==> start <= rs[i].start)
  }

  function InsertedAt(rs: seq<Region>, i: nat, r: Region): seq<Region>
    requires i <= |rs|
  {
    rs[..i] + [r] + rs[i..]
  }

  function RemovedAt(rs: seq<Region>, i: nat): seq<Region>
    requires i < |rs|
  {
    rs[..i] + rs[i + 1..]
  }

  // ---------------------------------------------------------------------
  // What the table stands for: the mappings registered and not since dropped
  // ---------------------------------------------------------------------

  /** Start of each mapping held, and where it ends. */
  type Ledger = map<nat, nat>

  ghost predicate CoveredBy(held: Ledger, addr: nat) {
    exists a :: a in held && a <= addr < held[a]
  }

  /** The table lists the mappings of the ledger, each with its own end, and no others. */
  ghost predicate Lists(rs: seq<Region>, held: Ledger) {
    && (forall i :: 0 <= i < |rs| ==> rs[i].start in held && held[rs[i].start] == rs[i].end)
    && (forall a :: a in held ==> HasStart(rs, a))
  }

  ghost predicate HasStart(rs: seq<Region>, a: nat) {
    exists i :: 0 <= i < |rs| && rs[i].start == a
  }

  lemma ListsMembers(rs: seq<Region>, held: Ledger, addr: nat)
    requires Lists(rs, held)
    ensures Member(rs, addr) <==> CoveredBy(held, addr)
  {
    if Member(rs, addr) {
      var i :| 0 <= i < |rs| && Covers(rs[i], addr);
      assert rs[i].start in held;
    }
    if CoveredBy(held, addr) {
      var a :| a in held && a <= addr < held[a];
      assert HasStart(rs, a);
      var i :| 0 <= i < |rs| && rs[i].start == a;
      assert Covers(rs[i], addr);
    }
  }

  lemma NewStart(rs: seq<Region>, r: Region)
    requires Apart(rs, r) && r.start < r.end && Sorted(rs)
    ensures !HasStart(rs, r.start)
  {}

  lemma InsertLists(rs: seq<Region>, held: Ledger, i: nat, r: Region)
    requires Lists(rs, held) && i <= |rs| && Apart(rs, r) && r.start < r.end && Sorted(rs)
    ensures Lists(InsertedAt(rs, i, r), held[r.start := r.end]) && r.start !in held
  {
    hide Sorted, Apart;
    NewStart(rs, r);
    assert r.start !in held;
    var ts, held' := InsertedAt(rs, i, r), held[r.start := r.end];
    assert ts[i] == r;
    forall k | 0 <= k < |ts|
      ensures ts[k].start in held' && held'[ts[k].start] == ts[k].end
    {
      if k != i {
        assert ts[k] == rs[if k < i then k else k - 1];
      }
    }
    forall a | a in held'
      ensures HasStart(ts, a)
    {
      if a != r.start {
        assert HasStart(rs, a);
        var k :| 0 <= k < |rs| && rs[k].start == a;
        assert ts[if k < i then k else k + 1] == rs[k];
      }
    }
  }

  lemma OneStart(rs: seq<Region>, j: nat, k: nat)
    requires Sorted(rs) && j < |rs| && k < |rs| && rs[j].start == rs[k].start
    ensures j == k
  {}

  lemma RemoveLists(rs: seq<Region>, held: Ledger, i: nat)
    requires Lists(rs, held) && i < |rs| && Sorted(rs)
    ensures Lists(RemovedAt(rs, i), held - {rs[i].start})
  {
    hide Sorted;
    var ts, held' := RemovedAt(rs, i), held - {rs[i].start};
    forall k | 0 <= k < |ts|
      ensures ts[k].start in held' && held'[ts[k].start] == ts[k].end
    {
      var m := if k < i then k else k + 1;
      assert ts[k] == rs[m];
      if rs[m].start == rs[i].start {
        OneStart(rs, m, i);
      }
    }
    forall a | a in held'
      ensures HasStart(ts, a)
    {
      assert HasStart(rs, a);
      var k :| 0 <= k < |rs| && rs[k].start == a;
      assert k != i;
      assert ts[if k < i then k else k - 1] == rs[k];
    }
  }

  lemma LowerBoundWithin(rs: seq<Region>, start: nat, low: nat)
    requires LowerBoundAt(rs, start, low)
    ensures low <= |rs|
  {}

  /** On a sorted table one end-check at the split answers membership. */
  lemma SearchDecides(rs: seq<Region>, addr: nat, low: nat)
    requires Sorted(rs) && SplitsAt(rs, addr, low)
    ensures Member(rs, addr) <==> low > 0 && addr < rs[low - 1].end
  {}

  lemma InsertKeepsSorted(rs: seq<Region>, r: Region, i: nat)
    requires Sorted(rs) && Apart(rs, r) && 0 < r.start < r.end && LowerBoundAt(rs, r.start, i)
    ensures Sorted(InsertedAt(rs, i, r))
  {}

  lemma InsertMembers(rs: seq<Region>, r: Region, i: nat, addr: nat)
    requires i <= |rs|
    ensures Member(InsertedAt(rs, i, r), addr) <==> Member(rs, addr) || Covers(r, addr)
  {
    var ts := InsertedAt(rs, i, r);
    if Member(rs, addr) {
      var k :| 0 <= k < |rs| && Covers(rs[k], addr);
      assert ts[if k < i then k else k + 1] == rs[k];
    }
    if Covers(r, addr) {
      assert ts[i] == r;
    }
    if Member(ts, addr) {
      var k :| 0 <= k < |ts| && Covers(ts[k], addr);
      assert k < i ==> ts[k] == rs[k];
      assert k > i ==> ts[k] == rs[k - 1];
    }
  }

  lemma InsertWorks(rs: seq<Region>, r: Region, i: nat)
    requires Sorted(rs) && Apart(rs, r) && 0 < r.start < r.end && LowerBoundAt(rs, r.start, i)
    ensures Sorted(InsertedAt(rs, i, r))
    ensures forall addr: nat :: Member(InsertedAt(rs, i, r), addr) <==> Member(rs, addr) || r.start <= addr < r.end
  {
    InsertKeepsSorted(rs, r, i);
    forall addr: nat
      ensures Member(InsertedAt(rs, i, r), addr) <==> Member(rs, addr) || r.start <= addr < r.end
    {
      InsertMembers(rs, r, i, addr);
    }
  }

  lemma RemoveWorks(rs: seq<Region>, i: nat)
    requires Sorted(rs) && i < |rs|
    ensures Sorted(RemovedAt(rs, i))
    ensures forall addr: nat :: Member(RemovedAt(rs, i), addr) <==> Member(rs, addr) && !Covers(rs[i], addr)
  {
    RemoveKeepsSorted(rs, i);
    forall addr: nat
      ensures Member(RemovedAt(rs, i), addr) <==> Member(rs, addr) && !Covers(rs[i], addr)
    {
      RemoveMembers(rs, i, addr);
    }
  }

  lemma RemoveKeepsSorted(rs: seq<Region>, i: nat)
    requires Sorted(rs) && i < |rs|
    ensures Sorted(RemovedAt(rs, i))
  {}

  lemma CoveredOnce(rs: seq<Region>, i: nat, j: nat, addr: nat)
    requires Sorted(rs) && i < |rs| && j < |rs| && Covers(rs[i], addr) && Covers(rs[j], addr)
    ensures i == j
  {}

  /** What is left after a removal is what the removed region did not cover. */
  lemma RemoveMembers(rs: seq<Region>, i: nat, addr: nat)
    requires Sorted(rs) && i < |rs|
    ensures Member(RemovedAt(rs, i), addr) <==> Member(rs, addr) && !Covers(rs[i], addr)
  {
    hide Sorted;
    var ts := RemovedAt(rs, i);
    if Member(ts, addr) {
      var k :| 0 <= k < |ts| && Covers(ts[k], addr);
      var m := if k < i then k else k + 1;
      assert ts[k] == rs[m];
      if Covers(rs[i], addr) {
        CoveredOnce(rs, i, m, addr);
      }
    }
    if Member(rs, addr) && !Covers(rs[i], addr) {
      var k :| 0 <= k < |rs| && Covers(rs[k], addr);
      assert ts[if k < i then k else k - 1] == rs[k];
    }
  }

  /** Registering a mapping and dropping it again leaves the table as it was. */
  lemma RemoveUndoesInsert(rs: seq<Region>, r: Region, i: nat, j: nat)
    requires Sorted(rs) && Apart(rs, r) && 0 < r.start < r.end && LowerBoundAt(rs, r.start, i)
    requires j < |InsertedAt(rs, i, r)| && InsertedAt(rs, i, r)[j].start == r.start
    ensures j == i && RemovedAt(InsertedAt(rs, i, r), j) == rs
  {}

  // ---------------------------------------------------------------------
  // The map under its lock
  // ---------------------------------------------------------------------

  class Map {
    const table: array<Region>
    var count: nat
    var version: nat

    ghost predicate Searchable()
      reads this, table
    {
      table.Length == CAPACITY && count <= CAPACITY && Sorted(table[..count])
    }

    ghost predicate Valid()
      reads this, table
    {
      Searchable() && version % 2 == 0
    }

    ghost function Contents(): seq<Region>
      reads this, table
      requires count <= table.Length
    {
      table[..count]
    }

    constructor ()
      ensures Valid() && fresh(table) && Contents() == [] && version == 0
    {
      table := new Region[CAPACITY](_ => Region(0, 0, 0, false));
      count := 0;
      version := 0;
    }

    method LowerBound(start: nat) returns (low: nat)
      requires Searchable()
      ensures LowerBoundAt(Contents(), start, low)
    {
      low := 0;
      var high := count;
      while low < high
        invariant low <= high <= count
        invariant forall i :: 0 <= i < low ==> Contents()[i].start < start
        invariant forall i :: high <= i < count ==> start <= Contents()[i].start
      {
        var mid := low + (high - low) / 2;
        if table[mid].start < start {
          low := mid + 1;
        } else {
          high := mid;
        }
      }
    }

    method FindByStart(start: nat) returns (at: Option<nat>)
      requires Valid()
      ensures at.None? ==> forall i :: 0 <= i < count ==> Contents()[i].start != start
      ensures at.Some? ==> at.value < count && Contents()[at.value].start == start
    {
      var low := LowerBound(start);
      if low < count && table[low].start == start {
        return Some(low);
      }
      assert low < count ==> Contents()[low].start > start;
      return None;
    }

    method ShiftUp(idx: nat)
      requires idx <= count < table.Length
      modifies table
      ensures table[..idx] == old(table[..idx]) && table[idx + 1..count + 1] == old(table[idx..count])
    {
      forall i | idx <= i < count {
        table[i + 1] := table[i];
      }
    }

    /** Callers register mappings just obtained from the kernel, so apart from every live one. */
    method Register(start: nat, bytes: nat, anchor: bool) returns (ok: bool, ghost at: nat)
      requires Valid()
      requires 0 < start && 0 < bytes && Apart(Contents(), Region(start, start + bytes, UNBOUND, anchor))
      modifies this, table
      ensures Valid()
      ensures ok <==> old(count) < CAPACITY
      ensures !ok ==> Contents() == old(Contents()) && version == old(version)
      ensures ok ==>
        var r := Region(start, start + bytes, UNBOUND, anchor);
        && version == old(version) + 2
        && LowerBoundAt(old(Contents()), start, at) && Contents() == InsertedAt(old(Contents()), at, r)
        && (forall held :: Lists(old(Contents()), held) ==> Lists(Contents(), held[start := start + bytes]))
        && (forall addr: nat :: Member(Contents(), addr) <==> Member(old(Contents()), addr) || start <= addr < start + bytes)
    {
      hide Sorted, Member, LowerBoundAt, Apart, Lists;
      if count >= CAPACITY {
        return false, 0;
      }
      ghost var before := Contents();
      var r := Region(start, start + bytes, UNBOUND, anchor);
      version := version + 1;
      var idx := LowerBound(start);
      LowerBoundWithin(before, start, idx);
      InsertWorks(before, r, idx);
      forall held | Lists(before, held)
        ensures Lists(InsertedAt(before, idx, r), held[start := start + bytes])
      {
        InsertLists(before, held, idx, r);
      }
      ShiftUp(idx);
      table[idx] := r;
      count := count + 1;
      version := version + 1;
      assert Contents() == InsertedAt(before, idx, r) by {
        assert table[..idx] == before[..idx];
        assert table[idx + 1..count] == before[idx..];
      }
      return true, idx;
    }

    method ShiftDown(idx: nat)
      requires idx < count <= table.Length
      modifies table
      ensures table[..idx] == old(table[..idx]) && table[idx..count - 1] == old(table[idx + 1..count])
    {
      forall i | idx <= i < count - 1 {
        table[i] := table[i + 1];
      }
    }

    /** Drops the mapping that starts exactly at `start`, and does nothing if there is none. */
    method Unregister(start: nat) returns (node: nat, anchor: bool, ghost at: Option<nat>)
      requires Valid()
      modifies this, table
      ensures Valid()
      ensures at.None? ==>
        && (forall i :: 0 <= i < old(count) ==> old(Contents())[i].start != start)
        && Contents() == old(Contents()) && version == old(version) && node == UNBOUND && !anchor
      ensures at.Some? ==>
        && at.value < old(count) && old(Contents())[at.value].start == start
        && Contents() == RemovedAt(old(Contents()), at.value) && version == old(version) + 2
        && node == old(Contents())[at.value].node && anchor == old(Contents())[at.value].anchor
        && (forall held :: Lists(old(Contents()), held) ==> Lists(Contents(), held - {start}))
        && (forall addr: nat :: Member(Contents(), addr) <==>
              Member(old(Contents()), addr) && !Covers(old(Contents())[at.value], addr))
    {
      hide Sorted, Member, Lists;
      ghost var before := Contents();
      var found := FindByStart(start);
      assert Contents() == before;
      if found.None? {
        return UNBOUND, false, None;
      }
      var idx := found.value;
      version := version + 1;
      node, anchor := table[idx].node, table[idx].anchor;
      RemoveWorks(before, idx);
      forall held | Lists(before, held)
        ensures Lists(RemovedAt(before, idx), held - {start})
      {
        RemoveLists(before, held, idx);
      }
      ShiftDown(idx);
      count := count - 1;
      version := version + 1;
      assert Contents() == RemovedAt(before, idx) by {
        assert table[..idx] == before[..idx];
        assert table[idx..count] == before[idx + 1..];
      }
      return node, anchor, Some(idx);
    }

    method Owns(addr: nat) returns (owned: bool)
      requires Valid()
      ensures owned <==> Member(Contents(), addr)
    {
      if addr == 0 {
        return false;
      }
      owned := false;
      var low, high := 0, count;
      while low < high
        invariant low <= high <= count
        invariant forall i :: 0 <= i < low ==> Contents()[i].start <= addr
        invariant forall i :: high <= i < count ==> addr < Contents()[i].start
      {
        var mid := low + (high - low) / 2;
        if table[mid].start <= addr {
          low := mid + 1;
        } else {
          high := mid;
        }
      }
      SearchDecides(Contents(), addr, low);
      if low > 0 {
        owned := addr < table[low - 1].end;
      }
    }
  }
}
