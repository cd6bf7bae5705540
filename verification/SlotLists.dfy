/**
 Lists threaded through the first words of the slots they hold, as bins,
 chains and stacks all are: a head word, the word of each slot naming the next
 one, and NULL at the end.
 */
module SlotLists {
  import opened Basics

  type Memory = map<nat, nat>

  function Word(mem: Memory, a: nat): nat {
    if a in mem then mem[a] else 0
  }

  function First(xs: seq<nat>): nat {
    if xs == [] then 0 else xs[0]
  }

  function Tail(chain: seq<nat>): nat
    requires chain != []
  {
    chain[|chain| - 1]
  }

  /** Consecutive nodes are linked; the word of the last one is not looked at. */
  ghost predicate Linked(mem: Memory, xs: seq<nat>) {
    forall j, k :: 0 <= j < |xs| && k == j + 1 && k < |xs| ==> Word(mem, xs[j]) == xs[k]
  }

  /** From the head word through the first words of the slots to NULL. */
  ghost predicate Threaded(mem: Memory, head: nat, xs: seq<nat>) {
    && head == First(xs)
    && Linked(mem, xs)
    && (xs != [] ==> Word(mem, Tail(xs)) == 0)
  }

  lemma PopList(mem: Memory, head: nat, xs: seq<nat>)
    requires Threaded(mem, head, xs) && xs != []
    ensures Threaded(mem, Word(mem, head), xs[1..])
  {}

  lemma PushList(mem: Memory, head: nat, xs: seq<nat>, x: nat)
    requires Threaded(mem, head, xs) && x !in xs
    ensures Threaded(mem[x := head], x, [x] + xs)
  {}

  lemma SpliceList(mem: Memory, head: nat, xs: seq<nat>, chain: seq<nat>)
    requires Threaded(mem, head, xs) && Linked(mem, chain)
    requires chain != [] && Distinct(chain) && forall x :: x in chain ==> x !in xs
    ensures Threaded(mem[Tail(chain) := head], chain[0], chain + xs)
  {
    var mem', all := mem[Tail(chain) := head], chain + xs;
    assert Tail(chain) in chain;
    forall j, k | 0 <= j < |all| && k == j + 1 && k < |all|
      ensures Word(mem', all[j]) == all[k]
    {
      if j >= |chain| {
        assert xs[j - |chain|] in xs;
      }
    }
    assert xs != [] ==> Tail(all) == Tail(xs) && Tail(xs) in xs;
  }

  /** `k` steps along the first words of slots, as the code walks a list. */
  ghost function Follow(mem: Memory, x: nat, k: nat): nat
    decreases k
  {
    if k == 0 || x == 0 then x else Follow(mem, Word(mem, x), k - 1)
  }

  lemma {:induction false} WalkIs(mem: Memory, head: nat, xs: seq<nat>, k: nat)
    requires Threaded(mem, head, xs) && forall j :: 0 <= j < |xs| ==> xs[j] != 0
    ensures Follow(mem, head, k) == if k < |xs| then xs[k] else 0
    decreases k
  {
    if k > 0 && xs != [] {
      PopList(mem, head, xs);
      WalkIs(mem, Word(mem, head), xs[1..], k - 1);
    }
  }
}
