/**
 The per-core L2 cache: Treiber stacks whose head word packs a 48-bit pointer
 and a 16-bit tag that counts successful exchanges. The algorithm is a state
 machine over atomic steps: loading a head word, writing or reading the first
 word of a node, and comparing and exchanging a head. Between its steps a
 thread may be overtaken any number of times, and whoever owns a node that is
 not on a stack may overwrite its first word with anything.

 `Abs` holds what the proof compares the machine against: the stacks as
 sequences, who owns the other nodes, and how many exchanges each stack has
 seen, now and when each thread last loaded a head.
 */
module CoreCache {
  import opened Basics
  import opened SlotLists

  const PTR_SPACE: nat := 0x1_0000_0000_0000
  const TAGS: nat := 65536

  // ---------------------------------------------------------------------
  // Tagged words
  // ---------------------------------------------------------------------

  function Make(ptr: nat, tag: nat): nat {
    ptr % PTR_SPACE + (tag % TAGS) * PTR_SPACE
  }

  function PtrOf(word: nat): nat {
    word % PTR_SPACE
  }

  function TagOf(word: nat): nat {
    (word / PTR_SPACE) % TAGS
  }

  /** Packing is exact on 48-bit pointers and wraps the tag at 16 bits. */
  lemma UnpackPacked(ptr: nat, tag: nat)
    requires ptr < PTR_SPACE
    ensures PtrOf(Make(ptr, tag)) == ptr && TagOf(Make(ptr, tag)) == tag % TAGS
  {}

  // ---------------------------------------------------------------------
  // The machine
  // ---------------------------------------------------------------------

  datatype Op = Push(stack: nat, chain: seq<nat>) | Pop(stack: nat)

  /** Where a thread stands inside an operation. */
  datatype Local =
    | Idle
    | Loaded(op: Op, seen: nat)            // a head word has been read
    | Ready(op: Op, seen: nat, next: nat)  // push: tail linked; pop: next word read

  /** Head words, first words of nodes (0 when never written) and thread positions. */
  datatype State = State(heads: seq<nat>, mem: Memory, locals: seq<Local>)

  datatype Event =
    | BeginPush(t: nat, stack: nat, chain: seq<nat>)
    | BeginPop(t: nat, stack: nat)
    | Link(t: nat)
    | Read(t: nat)
    | Exchange(t: nat)
    | Retry(t: nat)
    | Write(t: nat, node: nat, value: nat)
    | Give(t: nat, to: nat, node: nat)

  /** Control-flow conditions of a step; ownership is the callers' part, see `Allowed`. */
  predicate Enabled(s: State, e: Event) {
    && e.t < |s.locals|
    && match e
       case BeginPush(t, i, chain) => s.locals[t].Idle? && i < |s.heads| && chain != []
       case BeginPop(t, i) => s.locals[t].Idle? && i < |s.heads|
       case Link(t) => s.locals[t].Loaded? && s.locals[t].op.Push? && s.locals[t].op.chain != []
       case Read(t) => s.locals[t].Loaded? && s.locals[t].op.Pop?
       case Exchange(t) =>
         && s.locals[t].Ready? && s.locals[t].op.stack < |s.heads|
         && s.heads[s.locals[t].op.stack] == s.locals[t].seen
         && (s.locals[t].op.Push? ==> s.locals[t].op.chain != [])
       case Retry(t) => s.locals[t].Ready? && s.locals[t].op.stack < |s.heads|
       case Write(t, node, value) => s.locals[t].Idle?
       case Give(t, to, node) => s.locals[t].Idle? && to < |s.locals|
  }

  /** A pop that has loaded `word` gives up on an empty stack. */
  function AfterLoad(op: Op, word: nat): Local {
    if op.Pop? && PtrOf(word) == 0 then Idle else Loaded(op, word)
  }

  function Next(s: State, e: Event): State
    requires Enabled(s, e)
  {
    var l := s.locals[e.t];
    match e
    case BeginPush(t, i, chain) => s.(locals := s.locals[t := AfterLoad(Push(i, chain), s.heads[i])])
    case BeginPop(t, i) => s.(locals := s.locals[t := AfterLoad(Pop(i), s.heads[i])])
    case Link(t) =>
      s.(mem := s.mem[Tail(l.op.chain) := PtrOf(l.seen)], locals := s.locals[t := Ready(l.op, l.seen, 0)])
    case Read(t) =>
      s.(locals := s.locals[t := Ready(l.op, l.seen, Word(s.mem, PtrOf(l.seen)))])
    case Exchange(t) =>
      var target := if l.op.Push? then l.op.chain[0] else l.next;
      s.(heads := s.heads[l.op.stack := Make(target, TagOf(l.seen) + 1)], locals := s.locals[t := Idle])
    case Retry(t) =>
      s.(locals := s.locals[t := AfterLoad(l.op, s.heads[l.op.stack])])
    case Write(t, node, value) => s.(mem := s.mem[node := value])
    case Give(t, to, node) => s
  }

  // ---------------------------------------------------------------------
  // The abstract stacks
  // ---------------------------------------------------------------------

  datatype Abs = Abs(stacks: seq<seq<nat>>, owned: seq<set<nat>>, done: seq<nat>, since: seq<nat>)

  /** What an observer sees of a step. */
  datatype Action =
    | Silent
    | Loads(t: nat, stack: nat)
    | FoundEmpty(t: nat, stack: nat)
    | Pushes(t: nat, stack: nat, chain: seq<nat>)
    | Pops(t: nat, stack: nat, node: nat)
    | Gives(t: nat, to: nat, node: nat)

  function Observed(s: State, e: Event): Action
    requires Enabled(s, e)
  {
    var l := s.locals[e.t];
    match e
    case BeginPush(t, i, chain) => Loads(t, i)
    case BeginPop(t, i) => if PtrOf(s.heads[i]) == 0 then FoundEmpty(t, i) else Loads(t, i)
    case Link(t) => Silent
    case Read(t) => Silent
    case Exchange(t) =>
      if l.op.Push? then Pushes(t, l.op.stack, l.op.chain) else Pops(t, l.op.stack, PtrOf(l.seen))
    case Retry(t) =>
      var i := l.op.stack;
      if l.op.Pop? && PtrOf(s.heads[i]) == 0 then FoundEmpty(t, i) else Loads(t, i)
    case Write(t, node, value) => Silent
    case Give(t, to, node) => Gives(t, to, node)
  }

  /** The sequential stack allows the action. */
  ghost predicate Legal(a: Abs, x: Action) {
    match x
    case Silent => true
    case Loads(t, i) => t < |a.since| && i < |a.done|
    case FoundEmpty(t, i) => i < |a.stacks| && a.stacks[i] == []
    case Pushes(t, i, chain) =>
      && i < |a.stacks| && i < |a.done| && t < |a.owned| && Distinct(chain)
      && (forall k :: 0 <= k < |chain| ==> chain[k] in a.owned[t])
    case Pops(t, i, node) =>
      i < |a.stacks| && i < |a.done| && t < |a.owned| && a.stacks[i] != [] && a.stacks[i][0] == node
    case Gives(t, to, node) => t < |a.owned| && to < |a.owned| && node in a.owned[t]
  }

  ghost function Apply(a: Abs, x: Action): Abs
    requires Legal(a, x)
  {
    match x
    case Silent => a
    case Loads(t, i) => a.(since := a.since[t := a.done[i]])
    case FoundEmpty(t, i) => a
    case Pushes(t, i, chain) =>
      a.(stacks := a.stacks[i := chain + a.stacks[i]], done := a.done[i := a.done[i] + 1],
         owned := a.owned[t := a.owned[t] - Elements(chain)])
    case Pops(t, i, node) =>
      a.(stacks := a.stacks[i := a.stacks[i][1..]], done := a.done[i := a.done[i] + 1],
         owned := a.owned[t := a.owned[t] + {node}])
    case Gives(t, to, node) =>
      var owned := a.owned[t := a.owned[t] - {node}];
      a.(owned := owned[to := owned[to] + {node}])
  }

  // ---------------------------------------------------------------------
  // What callers promise, and the bound on overtaking
  // ---------------------------------------------------------------------

  /** Callers push chains of nodes they own and write only to nodes they own. */
  ghost predicate Allowed(s: State, a: Abs, e: Event) {
    match e
    case BeginPush(t, i, chain) =>
      t < |a.owned| && Distinct(chain) && Linked(s.mem, chain) && forall k :: 0 <= k < |chain| ==> chain[k] in a.owned[t]
    case Write(t, node, value) => t < |a.owned| && node in a.owned[t]
    case Give(t, to, node) => t < |a.owned| && node in a.owned[t]
    case _ => true
  }

  /** A pop that succeeds does so fewer than 65536 exchanges of the stack after it loaded the head. */
  ghost predicate InWindow(s: State, a: Abs, e: Event)
    requires Enabled(s, e)
  {
    e.Exchange? && s.locals[e.t].op.Pop? ==>
      var i := s.locals[e.t].op.stack;
      i < |a.done| && e.t < |a.since| && a.done[i] < a.since[e.t] + TAGS
  }

  /** The word a succeeding pop is about to store is the address of the node below the top. */
  ghost predicate ReadsNext(s: State, a: Abs, e: Event)
    requires Enabled(s, e)
  {
    e.Exchange? && s.locals[e.t].op.Pop? ==>
      var i := s.locals[e.t].op.stack;
      i < |a.stacks| && a.stacks[i] != [] && PtrOf(s.locals[e.t].next) == First(a.stacks[i][1..])
  }

  // ---------------------------------------------------------------------
  // Simulation
  // ---------------------------------------------------------------------

  ghost predicate GoodAddr(x: nat) {
    0 < x < PTR_SPACE
  }

  /** Every node is in at most one place: one position of one stack, or one owner. */
  ghost predicate Places(a: Abs) {
    && (forall i, k :: 0 <= i < |a.stacks| && 0 <= k < |a.stacks[i]| ==> GoodAddr(a.stacks[i][k]))
    && (forall t, x :: 0 <= t < |a.owned| && x in a.owned[t] ==> GoodAddr(x))
    && (forall i :: 0 <= i < |a.stacks| ==> Distinct(a.stacks[i]))
    && (forall i, j, k, l :: 0 <= i < j < |a.stacks| && 0 <= k < |a.stacks[i]| && 0 <= l < |a.stacks[j]| ==>
          a.stacks[i][k] != a.stacks[j][l])
    && (forall i, k, t :: 0 <= i < |a.stacks| && 0 <= k < |a.stacks[i]| && 0 <= t < |a.owned| ==>
          a.stacks[i][k] !in a.owned[t])
    && (forall t, u :: 0 <= t < u < |a.owned| ==> a.owned[t] !! a.owned[u])
  }

  /** The chain from the head word spells out the stack and ends in NULL. */
  ghost predicate Spells(mem: Memory, word: nat, xs: seq<nat>, done: nat) {
    && word == Make(First(xs), done)
    && Linked(mem, xs)
    && (xs != [] ==> Word(mem, Tail(xs)) == 0)
  }

  ghost predicate ChainHeld(mem: Memory, chain: seq<nat>, owned: set<nat>) {
    && chain != [] && Distinct(chain) && Linked(mem, chain)
    && (forall k :: 0 <= k < |chain| ==> chain[k] in owned)
  }

  /** A loaded head is the current one unless exchanges have happened since. */
  ghost predicate Snapshot(heads: seq<nat>, a: Abs, t: nat, i: nat, seen: nat) {
    && i < |heads| == |a.done| && t < |a.since|
    && a.since[t] <= a.done[i]
    && TagOf(seen) == a.since[t] % TAGS
    && (a.since[t] == a.done[i] ==> seen == heads[i])
  }

  ghost predicate ThreadOk(s: State, a: Abs, t: nat)
    requires t < |s.locals| == |a.owned| && |s.heads| == |a.stacks|
  {
    match s.locals[t]
    case Idle => true
    case Loaded(op, seen) =>
      && Snapshot(s.heads, a, t, op.stack, seen)
      && (op.Push? ==> ChainHeld(s.mem, op.chain, a.owned[t]))
      && (op.Pop? ==> PtrOf(seen) != 0)
    case Ready(op, seen, next) =>
      && Snapshot(s.heads, a, t, op.stack, seen)
      && (op.Push? ==> ChainHeld(s.mem, op.chain, a.owned[t]) && Word(s.mem, Tail(op.chain)) == PtrOf(seen))
      && (op.Pop? ==> PtrOf(seen) != 0)
      && (op.Pop? && a.since[t] == a.done[op.stack] ==>
            a.stacks[op.stack] != [] && next == First(a.stacks[op.stack][1..]))
  }

  ghost predicate Sim(s: State, a: Abs) {
    && |s.heads| == |a.stacks| == |a.done| && |s.locals| == |a.owned| == |a.since|
    && Places(a)
    && (forall i :: 0 <= i < |s.heads| ==> Spells(s.mem, s.heads[i], a.stacks[i], a.done[i]))
    && (forall t :: 0 <= t < |s.locals| ==> ThreadOk(s, a, t))
  }

  // ---------------------------------------------------------------------
  // Each step keeps the relation
  // ---------------------------------------------------------------------

  lemma WriteSpells(mem: Memory, n: nat, v: nat, word: nat, xs: seq<nat>, done: nat)
    requires Spells(mem, word, xs, done) && n !in xs
    ensures Spells(mem[n := v], word, xs, done)
  {}

  lemma WriteChain(mem: Memory, n: nat, v: nat, chain: seq<nat>, owned: set<nat>)
    requires ChainHeld(mem, chain, owned) && n !in chain[..|chain| - 1]
    ensures ChainHeld(mem[n := v], chain, owned)
  {}

  /** A write to a node off the stacks disturbs no stack and no other thread. */
  lemma OwnerWrites(s: State, a: Abs, t: nat, n: nat, v: nat, s': State)
    requires Sim(s, a) && t < |s.locals| && n in a.owned[t] && s' == s.(mem := s.mem[n := v])
    ensures forall i :: 0 <= i < |s.heads| ==> Spells(s'.mem, s.heads[i], a.stacks[i], a.done[i])
    ensures forall u :: 0 <= u < |s.locals| && u != t ==> ThreadOk(s', a, u)
  {
    forall i | 0 <= i < |s.heads|
      ensures Spells(s'.mem, s.heads[i], a.stacks[i], a.done[i])
    {
      assert forall k :: 0 <= k < |a.stacks[i]| ==> a.stacks[i][k] !in a.owned[t];
      WriteSpells(s.mem, n, v, s.heads[i], a.stacks[i], a.done[i]);
    }
    forall u | 0 <= u < |s.locals| && u != t
      ensures ThreadOk(s', a, u)
    {
      assert ThreadOk(s, a, u);
      assert n !in a.owned[u];
      var l := s.locals[u];
      if !l.Idle? && l.op.Push? {
        WriteChain(s.mem, n, v, l.op.chain, a.owned[u]);
        assert Tail(l.op.chain) in a.owned[u];
      }
    }
  }

  lemma HeadEmpty(s: State, a: Abs, i: nat)
    requires Sim(s, a) && i < |s.heads|
    ensures PtrOf(s.heads[i]) == First(a.stacks[i])
    ensures PtrOf(s.heads[i]) == 0 <==> a.stacks[i] == []
    ensures TagOf(s.heads[i]) == a.done[i] % TAGS
  {}

  /** Loading, or reloading, a head. */
  lemma LoadKeeps(s: State, a: Abs, t: nat, op: Op)
    requires Sim(s, a) && t < |s.locals| && op.stack < |s.heads|
    requires op.Push? ==> ChainHeld(s.mem, op.chain, a.owned[t])
    ensures var i := op.stack;
            var s' := s.(locals := s.locals[t := AfterLoad(op, s.heads[i])]);
            if op.Pop? && PtrOf(s.heads[i]) == 0 then Legal(a, FoundEmpty(t, i)) && Sim(s', a)
            else Legal(a, Loads(t, i)) && Sim(s', Apply(a, Loads(t, i)))
  {
    var i := op.stack;
    HeadEmpty(s, a, i);
    var s' := s.(locals := s.locals[t := AfterLoad(op, s.heads[i])]);
    var a' := if op.Pop? && PtrOf(s.heads[i]) == 0 then a else Apply(a, Loads(t, i));
    forall u | 0 <= u < |s'.locals|
      ensures ThreadOk(s', a', u)
    {
      assert ThreadOk(s, a, u);
    }
  }

  lemma LinkKeeps(s: State, a: Abs, t: nat)
    requires Sim(s, a) && Enabled(s, Link(t))
    ensures Sim(Next(s, Link(t)), a)
  {
    var l := s.locals[t];
    var n, v := Tail(l.op.chain), PtrOf(l.seen);
    assert ThreadOk(s, a, t);
    assert n in a.owned[t];
    var s1 := s.(mem := s.mem[n := v]);
    OwnerWrites(s, a, t, n, v, s1);
    WriteChain(s.mem, n, v, l.op.chain, a.owned[t]);
    var s' := Next(s, Link(t));
    forall u | 0 <= u < |s'.locals|
      ensures ThreadOk(s', a, u)
    {
      if u != t {
        assert ThreadOk(s1, a, u);
      }
    }
  }

  /** The word read from a node that is no longer the top may be anything; it is then never used. */
  lemma ReadKeeps(s: State, a: Abs, t: nat)
    requires Sim(s, a) && Enabled(s, Read(t))
    ensures Sim(Next(s, Read(t)), a)
  {
    var l := s.locals[t];
    var i := l.op.stack;
    assert ThreadOk(s, a, t);
    HeadEmpty(s, a, i);
    if a.since[t] == a.done[i] {
      var xs := a.stacks[i];
      assert Spells(s.mem, s.heads[i], xs, a.done[i]);
      assert Word(s.mem, xs[0]) == First(xs[1..]);
    }
    var s' := Next(s, Read(t));
    forall u | 0 <= u < |s'.locals|
      ensures ThreadOk(s', a, u)
    {
      assert ThreadOk(s, a, u);
    }
  }

  lemma WriteKeeps(s: State, a: Abs, t: nat, n: nat, v: nat)
    requires Sim(s, a) && Enabled(s, Write(t, n, v)) && Allowed(s, a, Write(t, n, v))
    ensures Sim(Next(s, Write(t, n, v)), a)
  {
    OwnerWrites(s, a, t, n, v, Next(s, Write(t, n, v)));
  }

  lemma GiveKeeps(s: State, a: Abs, t: nat, to: nat, n: nat)
    requires Sim(s, a) && Enabled(s, Give(t, to, n)) && Allowed(s, a, Give(t, to, n))
    ensures Legal(a, Gives(t, to, n)) && Sim(s, Apply(a, Gives(t, to, n)))
  {
    var a' := Apply(a, Gives(t, to, n));
    forall u | 0 <= u < |s.locals|
      ensures ThreadOk(s, a', u)
    {
      assert ThreadOk(s, a, u);
    }
  }

  // ---------------------------------------------------------------------
  // Successful exchanges
  // ---------------------------------------------------------------------

  /**
   Within the window an equal tag means that nothing happened since the load,
   so the word read then is still the right one.
   */
  lemma WindowSuffices(s: State, a: Abs, e: Event)
    requires Sim(s, a) && Enabled(s, e) && InWindow(s, a, e)
    ensures ReadsNext(s, a, e)
  {
    if e.Exchange? && s.locals[e.t].op.Pop? {
      var i := s.locals[e.t].op.stack;
      assert ThreadOk(s, a, e.t);
      HeadEmpty(s, a, i);
      var rest := a.stacks[i][1..];
      assert rest != [] ==> GoodAddr(a.stacks[i][1]);
    }
  }

  lemma PushSpells(mem: Memory, chain: seq<nat>, owned: set<nat>, word: nat, xs: seq<nat>, done: nat)
    requires ChainHeld(mem, chain, owned) && Spells(mem, word, xs, done)
    requires Word(mem, Tail(chain)) == First(xs)
    ensures Spells(mem, Make(chain[0], done + 1), chain + xs, done + 1)
  {}

  /** Moving a chain from its owner to the top of a stack keeps every node in one place. */
  lemma PushPlaces(a: Abs, t: nat, i: nat, chain: seq<nat>)
    requires Places(a) && i < |a.stacks| == |a.done| && t < |a.owned| == |a.since|
    requires Distinct(chain) && forall k :: 0 <= k < |chain| ==> chain[k] in a.owned[t]
    ensures Legal(a, Pushes(t, i, chain)) && Places(Apply(a, Pushes(t, i, chain)))
  {}

  /** A push needs no bound: whatever happened since its load, it links to the head it replaces. */
  lemma PushKeeps(s: State, a: Abs, t: nat)
    requires Sim(s, a) && Enabled(s, Exchange(t))
    requires s.locals[t].op.Push?
    ensures Legal(a, Observed(s, Exchange(t))) && Sim(Next(s, Exchange(t)), Apply(a, Observed(s, Exchange(t))))
  {
    var l := s.locals[t];
    var i, chain := l.op.stack, l.op.chain;
    HeadEmpty(s, a, i);
    assert ThreadOk(s, a, t);
    PushPlaces(a, t, i, chain);
    var s', a' := Next(s, Exchange(t)), Apply(a, Pushes(t, i, chain));
    PushSpells(s.mem, chain, a.owned[t], s.heads[i], a.stacks[i], a.done[i]);
    NextTag(a.done[i], chain[0]);
    forall j | 0 <= j < |s'.heads|
      ensures Spells(s'.mem, s'.heads[j], a'.stacks[j], a'.done[j])
    {
      assert j != i ==> Spells(s.mem, s.heads[j], a.stacks[j], a.done[j]);
    }
    OthersAfterExchange(s, a, t, s', a');
  }

  lemma NextTag(done: nat, p: nat)
    ensures Make(p, done % TAGS + 1) == Make(p, done + 1)
  {}

  /** An exchange by one thread leaves the others behind or untouched. */
  lemma OthersAfterExchange(s: State, a: Abs, t: nat, s': State, a': Abs)
    requires Sim(s, a) && Enabled(s, Exchange(t)) && s' == Next(s, Exchange(t))
    requires |a'.stacks| == |a.stacks| && |a'.owned| == |a.owned| && a'.since == a.since
    requires a'.done == a.done[s.locals[t].op.stack := a.done[s.locals[t].op.stack] + 1]
    requires forall u :: 0 <= u < |a.owned| && u != t ==> a'.owned[u] == a.owned[u]
    requires forall j :: 0 <= j < |a.stacks| && j != s.locals[t].op.stack ==> a'.stacks[j] == a.stacks[j]
    ensures forall u :: 0 <= u < |s'.locals| ==> ThreadOk(s', a', u)
  {
    forall u | 0 <= u < |s'.locals|
      ensures ThreadOk(s', a', u)
    {
      assert ThreadOk(s, a, u);
    }
  }

  lemma PopPlaces(a: Abs, t: nat, i: nat)
    requires Places(a) && i < |a.stacks| == |a.done| && t < |a.owned| == |a.since|
    requires a.stacks[i] != []
    ensures Legal(a, Pops(t, i, a.stacks[i][0])) && Places(Apply(a, Pops(t, i, a.stacks[i][0])))
  {}

  lemma PopKeeps(s: State, a: Abs, t: nat)
    requires Sim(s, a) && Enabled(s, Exchange(t)) && s.locals[t].op.Pop? && ReadsNext(s, a, Exchange(t))
    ensures Legal(a, Observed(s, Exchange(t))) && Sim(Next(s, Exchange(t)), Apply(a, Observed(s, Exchange(t))))
  {
    var l := s.locals[t];
    var i := l.op.stack;
    HeadEmpty(s, a, i);
    var xs := a.stacks[i];
    PopPlaces(a, t, i);
    var s', a' := Next(s, Exchange(t)), Apply(a, Pops(t, i, xs[0]));
    NextTag(a.done[i], l.next);
    hide Places, ThreadOk;
    forall j | 0 <= j < |s'.heads|
      ensures Spells(s'.mem, s'.heads[j], a'.stacks[j], a'.done[j])
    {
      assert Spells(s.mem, s.heads[j], a.stacks[j], a.done[j]);
    }
    OthersAfterExchange(s, a, t, s', a');
  }

  lemma HeadPointer(p: nat, tag: nat)
    ensures PtrOf(Make(p, tag)) == PtrOf(p)
  {}

  lemma StaleWord(s: State, a: Abs, t: nat)
    requires Sim(s, a) && Enabled(s, Exchange(t)) && s.locals[t].op.Pop? && !ReadsNext(s, a, Exchange(t))
    ensures Legal(a, Observed(s, Exchange(t))) && !Sim(Next(s, Exchange(t)), Apply(a, Observed(s, Exchange(t))))
  {
    var l := s.locals[t];
    var i := l.op.stack;
    HeadEmpty(s, a, i);
    assert ThreadOk(s, a, t);
    var xs := a.stacks[i];
    var s', a' := Next(s, Exchange(t)), Apply(a, Pops(t, i, xs[0]));
    assert xs[1..] != [] ==> GoodAddr(xs[1]);
    hide Places, ThreadOk, Make, PtrOf, TagOf;
    HeadPointer(l.next, TagOf(l.seen) + 1);
    UnpackPacked(First(xs[1..]), a.done[i] + 1);
    assert !Spells(s'.mem, s'.heads[i], a'.stacks[i], a'.done[i]);
  }

  // ---------------------------------------------------------------------
  // Runs
  // ---------------------------------------------------------------------

  /**
   Any step the code can take is a step the sequential stacks allow, at the
   moment it happens; and the memory goes on spelling out the stacks exactly
   unless the step is a pop that stores a stale word.
   */
  lemma StepExact(s: State, a: Abs, e: Event)
    requires Sim(s, a) && Enabled(s, e) && Allowed(s, a, e)
    ensures Legal(a, Observed(s, e))
    ensures Sim(Next(s, e), Apply(a, Observed(s, e))) <==> ReadsNext(s, a, e)
  {
    hide Sim, Places;
    match e
    case BeginPush(t, i, chain) => LoadKeeps(s, a, t, Push(i, chain));
    case BeginPop(t, i) => LoadKeeps(s, a, t, Pop(i));
    case Link(t) => LinkKeeps(s, a, t);
    case Read(t) => ReadKeeps(s, a, t);
    case Exchange(t) =>
      if s.locals[t].op.Push? {
        PushKeeps(s, a, t);
      } else {
        if ReadsNext(s, a, e) {
          PopKeeps(s, a, t);
        } else {
          StaleWord(s, a, t);
        }
      }
    case Retry(t) =>
      PendingChain(s, a, t);
      LoadKeeps(s, a, t, s.locals[t].op);
    case Write(t, n, v) => WriteKeeps(s, a, t, n, v);
    case Give(t, to, n) => GiveKeeps(s, a, t, to, n);
  }

  /** What the callers can see to: pops made inside the window. */
  lemma StepLinearizes(s: State, a: Abs, e: Event)
    requires Sim(s, a) && Enabled(s, e) && Allowed(s, a, e) && InWindow(s, a, e)
    ensures Legal(a, Observed(s, e)) && Sim(Next(s, e), Apply(a, Observed(s, e)))
  {
    StepExact(s, a, e);
    WindowSuffices(s, a, e);
  }

  lemma PendingChain(s: State, a: Abs, t: nat)
    requires Sim(s, a) && Enabled(s, Retry(t))
    ensures |s.locals| == |a.owned|
    ensures s.locals[t].op.Push? ==> ChainHeld(s.mem, s.locals[t].op.chain, a.owned[t])
  {
    assert ThreadOk(s, a, t);
  }

  ghost function Advance(a: Abs, x: Action): Abs {
    if Legal(a, x) then Apply(a, x) else a
  }

  /** A run the code can make, with callers keeping their promises; nothing is said of the window. */
  ghost predicate Steps(s: State, a: Abs, es: seq<Event>)
    decreases |es|
  {
    es == [] ||
    (Enabled(s, es[0]) && Allowed(s, a, es[0]) && Steps(Next(s, es[0]), Advance(a, Observed(s, es[0])), es[1..]))
  }

  /** The memory spells out the sequential stacks after every step of the run. */
  ghost predicate AlwaysSpelled(s: State, a: Abs, es: seq<Event>)
    requires Steps(s, a, es)
    decreases |es|
  {
    Sim(s, a) && (es == [] || AlwaysSpelled(Next(s, es[0]), Advance(a, Observed(s, es[0])), es[1..]))
  }

  ghost predicate AlwaysReadsNext(s: State, a: Abs, es: seq<Event>)
    requires Steps(s, a, es)
    decreases |es|
  {
    es == [] ||
    (ReadsNext(s, a, es[0]) && AlwaysReadsNext(Next(s, es[0]), Advance(a, Observed(s, es[0])), es[1..]))
  }

  /**
   The exact condition for a whole run, with any amount of overtaking: the
   stacks stay intact throughout if and only if no pop that succeeds stores a
   stale word.
   */
  lemma {:induction false} RunExact(s: State, a: Abs, es: seq<Event>)
    requires Sim(s, a) && Steps(s, a, es)
    ensures AlwaysSpelled(s, a, es) <==> AlwaysReadsNext(s, a, es)
    decreases |es|
  {
    hide Sim, Enabled, Allowed, Next, Observed, ReadsNext, Legal, Apply;
    if es != [] {
      var e := es[0];
      StepExact(s, a, e);
      var s', a' := Next(s, e), Advance(a, Observed(s, e));
      if Sim(s', a') {
        RunExact(s', a', es[1..]);
      } else {
        assert !AlwaysSpelled(s', a', es[1..]);
      }
    }
  }

  /** A run in which no pop succeeds after being overtaken 65536 times or more. */
  ghost predicate Run(s: State, a: Abs, es: seq<Event>)
    decreases |es|
  {
    es == [] ||
    (Enabled(s, es[0]) && Allowed(s, a, es[0]) && InWindow(s, a, es[0])
     && Run(Next(s, es[0]), Advance(a, Observed(s, es[0])), es[1..]))
  }

  /** The state after the events, as long as they are enabled. */
  ghost function Outcome(s: State, es: seq<Event>): State
    decreases |es|
  {
    if es == [] || !Enabled(s, es[0]) then s else Outcome(Next(s, es[0]), es[1..])
  }

  ghost function History(s: State, es: seq<Event>): seq<Action>
    decreases |es|
  {
    if es == [] || !Enabled(s, es[0]) then [] else [Observed(s, es[0])] + History(Next(s, es[0]), es[1..])
  }

  ghost function Replay(a: Abs, h: seq<Action>): Abs
    decreases |h|
  {
    if h == [] then a else Replay(Advance(a, h[0]), h[1..])
  }

  ghost predicate LegalHistory(a: Abs, h: seq<Action>)
    decreases |h|
  {
    h == [] || (Legal(a, h[0]) && LegalHistory(Apply(a, h[0]), h[1..]))
  }

  /**
   Linearizability of whole runs: what the threads observe, in the order of
   their loads and exchanges, is a history of sequential stacks, and the
   memory at the end spells out the stacks this history leaves.
   */
  lemma {:induction false} RunLinearizes(s: State, a: Abs, es: seq<Event>)
    requires Sim(s, a) && Run(s, a, es)
    ensures LegalHistory(a, History(s, es))
    ensures Sim(Outcome(s, es), Replay(a, History(s, es)))
    decreases |es|
  {
    if es != [] {
      var e := es[0];
      StepLinearizes(s, a, e);
      RunLinearizes(Next(s, e), Apply(a, Observed(s, e)), es[1..]);
      assert History(s, es)[1..] == History(Next(s, e), es[1..]);
    }
  }

  // ---------------------------------------------------------------------
  // Every operation returns with its result, and only with its result
  // ---------------------------------------------------------------------

  /** The operation a thread is inside of, as a list of at most one. */
  function PendingOp(l: Local): seq<Op> {
    if l.Idle? then [] else [l.op]
  }

  /** The operation an event begins. */
  function Begins(e: Event): seq<Op> {
    match e
    case BeginPush(t, i, chain) => [Push(i, chain)]
    case BeginPop(t, i) => [Pop(i)]
    case _ => []
  }

  /** The actions with which operations end. */
  predicate IsResult(x: Action) {
    x.Pushes? || x.Pops? || x.FoundEmpty?
  }

  /** `x` is how `op` of thread `t` may end: a push pushes its chain, a pop yields a node or finds the stack empty. */
  predicate Answers(x: Action, op: Op, t: nat) {
    match op
    case Push(i, chain) => x == Pushes(t, i, chain)
    case Pop(i) => x == FoundEmpty(t, i) || (x.Pops? && x.t == t && x.stack == i)
  }

  /** What a thread returns in a step, as a list of at most one. */
  function ResultOf(x: Action, t: nat): seq<Action> {
    if IsResult(x) && x.t == t then [x] else []
  }

  function OpsIn(l: Local, e: Event, t: nat): seq<Op> {
    PendingOp(l) + (if e.t == t then Begins(e) else [])
  }

  /** The results answer the operations one by one and in order; at most the last operation is still open. */
  ghost predicate Matched(ops: seq<Op>, results: seq<Action>, open: seq<Op>, t: nat) {
    && |open| <= 1 && |ops| == |results| + |open|
    && (forall k :: 0 <= k < |results| ==> Answers(results[k], ops[k], t))
    && (open != [] ==> ops[|results|] == open[0])
  }

  /**
   One step: a thread inside an operation leaves it exactly when the step is
   observed as that operation's result, and otherwise stays inside the same
   operation; a step of another thread does neither.
   */
  lemma StepAnswers(s: State, e: Event, t: nat)
    requires Enabled(s, e) && t < |s.locals|
    ensures |Next(s, e).locals| == |s.locals|
    ensures Matched(OpsIn(s.locals[t], e, t), ResultOf(Observed(s, e), t), PendingOp(Next(s, e).locals[t]), t)
    ensures |OpsIn(s.locals[t], e, t)| <= 1
  {}

  /** Events that can happen one after the other. */
  ghost predicate Possible(s: State, es: seq<Event>)
    decreases |es|
  {
    es == [] || (Enabled(s, es[0]) && Possible(Next(s, es[0]), es[1..]))
  }

  function BegunBy(es: seq<Event>, t: nat): seq<Op> {
    if es == [] then [] else (if es[0].t == t then Begins(es[0]) else []) + BegunBy(es[1..], t)
  }

  function ResultsOf(h: seq<Action>, t: nat): seq<Action> {
    if h == [] then [] else ResultOf(h[0], t) + ResultsOf(h[1..], t)
  }

  lemma MatchedThen(ops: seq<Op>, results: seq<Action>, middle: seq<Op>, more: seq<Op>, later: seq<Action>, open: seq<Op>, t: nat)
    requires Matched(ops, results, middle, t) && Matched(middle + more, later, open, t)
    ensures Matched(ops + more, results + later, open, t)
  {
    var all, answers := ops + more, results + later;
    forall k | |results| <= k < |all|
      ensures all[k] == (middle + more)[k - |results|]
    {
    }
  }

  /**
   Along any run, however the threads interleave and retry: what a thread
   returns, in order, are the results of the operations it was in or began,
   in order, one each; only an operation it is still inside of is open.
   */
  lemma {:induction false} OperationsReturn(s: State, es: seq<Event>, t: nat)
    requires Possible(s, es) && t < |s.locals|
    ensures |Outcome(s, es).locals| == |s.locals|
    ensures Matched(PendingOp(s.locals[t]) + BegunBy(es, t), ResultsOf(History(s, es), t),
                    PendingOp(Outcome(s, es).locals[t]), t)
    decreases |es|
  {
    hide Enabled, Next, Observed, Matched, Begins, ResultOf, PendingOp;
    if es == [] {
      NothingYet(s.locals[t], t);
    } else {
      var e, s' := es[0], Next(s, es[0]);
      StepAnswers(s, e, t);
      OperationsReturn(s', es[1..], t);
      var x, rest, h := Observed(s, e), BegunBy(es[1..], t), History(s', es[1..]);
      assert History(s, es)[1..] == h;
      assert PendingOp(s.locals[t]) + BegunBy(es, t) == OpsIn(s.locals[t], e, t) + rest;
      MatchedThen(OpsIn(s.locals[t], e, t), ResultOf(x, t), PendingOp(s'.locals[t]), rest, ResultsOf(h, t),
                  PendingOp(Outcome(s, es).locals[t]), t);
    }
  }

  lemma NothingYet(l: Local, t: nat)
    ensures Matched(PendingOp(l) + [], [], PendingOp(l), t)
  {}

  /** The thread is inside an operation until the last event and out of it then. */
  ghost predicate ReturnsAtEnd(s: State, es: seq<Event>, t: nat)
    decreases |es|
  {
    && es != [] && Enabled(s, es[0]) && t < |s.locals|
    && var s' := Next(s, es[0]);
       if |es| == 1 then s'.locals[t].Idle? else !s'.locals[t].Idle? && ReturnsAtEnd(s', es[1..], t)
  }

  lemma {:induction false} BusyBeginsNothing(s: State, es: seq<Event>, t: nat)
    requires ReturnsAtEnd(s, es, t) && !s.locals[t].Idle?
    ensures Possible(s, es) && BegunBy(es, t) == [] && t < |Outcome(s, es).locals| && Outcome(s, es).locals[t].Idle?
    decreases |es|
  {
    if |es| == 1 {
      assert es[1..] == [];
    } else {
      BusyBeginsNothing(Next(s, es[0]), es[1..], t);
    }
  }

  /**
   From the event that begins an operation to the thread's next rest, the
   history has exactly one result of the thread: for a push the push of its
   own chain, for a pop a node or the word that the stack was empty.
   */
  lemma OneResult(s: State, e: Event, es: seq<Event>)
    requires Begins(e) != [] && ReturnsAtEnd(s, [e] + es, e.t)
    ensures |ResultsOf(History(s, [e] + es), e.t)| == 1
    ensures Answers(ResultsOf(History(s, [e] + es), e.t)[0], Begins(e)[0], e.t)
  {
    var all, t := [e] + es, e.t;
    assert all[1..] == es && all[0] == e;
    if es == [] {
      assert Outcome(Next(s, e), []) == Next(s, e);
      assert BegunBy(es, t) == [];
    } else {
      BusyBeginsNothing(Next(s, e), es, t);
    }
    assert BegunBy(all, t) == Begins(e);
    OperationsReturn(s, all, t);
  }

  /** An exchange that finds another head word lost to one that succeeded since the load. */
  lemma LostToAnother(s: State, a: Abs, t: nat)
    requires Sim(s, a) && t < |s.locals| && s.locals[t].Ready? && s.locals[t].op.stack < |s.heads|
    requires s.heads[s.locals[t].op.stack] != s.locals[t].seen
    ensures a.since[t] < a.done[s.locals[t].op.stack]
  {
    assert ThreadOk(s, a, t);
  }

  lemma OneMore(s: State, e: Event, es: seq<Event>)
    requires Enabled(s, e) && Possible(Next(s, e), es)
    ensures Possible(s, [e] + es) && Outcome(s, [e] + es) == Outcome(Next(s, e), es)
  {
    assert ([e] + es)[1..] == es;
  }

  /** Two steps after a load that is still current, the operation is over. */
  lemma FreshFinishes(s: State, t: nat) returns (es: seq<Event>)
    requires t < |s.locals| && s.locals[t].Loaded? && s.locals[t].op.stack < |s.heads|
    requires s.locals[t].seen == s.heads[s.locals[t].op.stack] && (s.locals[t].op.Push? ==> s.locals[t].op.chain != [])
    ensures |es| == 2 && Possible(s, es) && t < |Outcome(s, es).locals| && Outcome(s, es).locals[t].Idle?
    ensures forall k :: 0 <= k < |es| ==> es[k].t == t
  {
    var e := if s.locals[t].op.Push? then Link(t) else Read(t);
    var s1 := Next(s, e);
    var s2 := Next(s1, Exchange(t));
    assert Outcome(s2, []) == s2;
    OneMore(s1, Exchange(t), []);
    OneMore(s, e, [Exchange(t)]);
    assert [Exchange(t)] + [] == [Exchange(t)];
    es := [e] + [Exchange(t)];
  }

  /** An exchange that may have lost is retried from a new load, which ends the pop of an empty stack at once. */
  lemma RetryFinishes(s: State, t: nat) returns (es: seq<Event>)
    requires t < |s.locals| && s.locals[t].Ready? && s.locals[t].op.stack < |s.heads|
    requires s.locals[t].op.Push? ==> s.locals[t].op.chain != []
    ensures |es| <= 3 && Possible(s, es) && t < |Outcome(s, es).locals| && Outcome(s, es).locals[t].Idle?
    ensures forall k :: 0 <= k < |es| ==> es[k].t == t
  {
    var s1 := Next(s, Retry(t));
    var rest := [];
    if s1.locals[t].Idle? {
      assert Outcome(s1, []) == s1;
    } else {
      rest := FreshFinishes(s1, t);
    }
    OneMore(s, Retry(t), rest);
    es := [Retry(t)] + rest;
  }

  /**
   From any reachable state, however far behind, a thread left to itself is
   out of its operation within four steps, and so with its result. Since a
   lost exchange means that another thread's succeeded, some operation always
   completes.
   */
  lemma AloneFinishes(s: State, a: Abs, t: nat) returns (es: seq<Event>)
    requires Sim(s, a) && t < |s.locals| && !s.locals[t].Idle?
    ensures |es| <= 4 && Possible(s, es) && t < |Outcome(s, es).locals| && Outcome(s, es).locals[t].Idle?
    ensures forall k :: 0 <= k < |es| ==> es[k].t == t
  {
    assert ThreadOk(s, a, t);
    hide Sim;
    if s.locals[t].Ready? {
      es := RetryFinishes(s, t);
    } else {
      var e := if s.locals[t].op.Push? then Link(t) else Read(t);
      var rest := RetryFinishes(Next(s, e), t);
      OneMore(s, e, rest);
      es := [e] + rest;
    }
  }

  // ---------------------------------------------------------------------
  // Nodes are neither lost nor handed out twice
  // ---------------------------------------------------------------------

  ghost predicate OnStack(a: Abs, x: nat) {
    exists i :: 0 <= i < |a.stacks| && x in a.stacks[i]
  }

  ghost function TimesPushed(h: seq<Action>, x: nat): nat {
    if h == [] then 0 else (if h[0].Pushes? && x in h[0].chain then 1 else 0) + TimesPushed(h[1..], x)
  }

  ghost function TimesPopped(h: seq<Action>, x: nat): nat {
    if h == [] then 0 else (if h[0].Pops? && h[0].node == x then 1 else 0) + TimesPopped(h[1..], x)
  }

  ghost predicate WellFormed(a: Abs) {
    Places(a) && |a.stacks| == |a.done| && |a.owned| == |a.since|
  }

  lemma ApplyPlaces(a: Abs, x: Action)
    requires WellFormed(a) && Legal(a, x)
    ensures WellFormed(Apply(a, x))
  {
    match x
    case Pushes(t, i, chain) => PushPlaces(a, t, i, chain);
    case Pops(t, i, node) => PopPlaces(a, t, i);
    case Gives(t, to, node) =>
    case _ =>
  }

  lemma PushOnStack(a: Abs, t: nat, i: nat, chain: seq<nat>, n: nat)
    requires WellFormed(a) && Legal(a, Pushes(t, i, chain))
    ensures OnStack(Apply(a, Pushes(t, i, chain)), n) <==> OnStack(a, n) || n in chain
    ensures n in chain ==> !OnStack(a, n)
  {
    var a' := Apply(a, Pushes(t, i, chain));
    assert a'.stacks[i] == chain + a.stacks[i];
    if OnStack(a, n) {
      var j :| 0 <= j < |a.stacks| && n in a.stacks[j];
      assert n in a'.stacks[j];
    }
    if n in chain {
      assert n in a'.stacks[i];
    }
    if OnStack(a', n) && n !in chain {
      var j :| 0 <= j < |a'.stacks| && n in a'.stacks[j];
      assert n in a.stacks[j];
    }
  }

  lemma PopOnStack(a: Abs, t: nat, i: nat, n: nat)
    requires WellFormed(a) && i < |a.stacks| && t < |a.owned| && a.stacks[i] != []
    ensures var x := a.stacks[i][0];
            OnStack(a, x) && (OnStack(Apply(a, Pops(t, i, x)), n) <==> OnStack(a, n) && n != x)
  {
    var x := a.stacks[i][0];
    var a' := Apply(a, Pops(t, i, x));
    assert a.stacks[i] == [x] + a'.stacks[i];
    assert x in a.stacks[i];
    if OnStack(a, n) && n != x {
      var j :| 0 <= j < |a.stacks| && n in a.stacks[j];
      assert n in a'.stacks[j];
    }
    if OnStack(a', n) {
      var j :| 0 <= j < |a'.stacks| && n in a'.stacks[j];
      assert n in a.stacks[j];
      assert n != x by {
        var k :| 0 <= k < |a'.stacks[j]| && a'.stacks[j][k] == n;
        if j == i {
          assert a.stacks[i][k + 1] == n;
        }
      }
    }
  }

  lemma StepCounts(a: Abs, x: Action, n: nat)
    requires WellFormed(a) && Legal(a, x)
    ensures (if OnStack(Apply(a, x), n) then 1 else 0) + (if x.Pops? && x.node == n then 1 else 0)
            == (if OnStack(a, n) then 1 else 0) + (if x.Pushes? && n in x.chain then 1 else 0)
  {
    match x
    case Pushes(t, i, chain) => PushOnStack(a, t, i, chain, n);
    case Pops(t, i, node) => PopOnStack(a, t, i, n);
    case _ => assert Apply(a, x).stacks == a.stacks;
  }

  /**
   Along every legal history a node is popped exactly as often as it entered
   a stack, less one if it is still there: no push is answered twice.
   */
  lemma {:induction false} PoppedAtMostOnce(a: Abs, h: seq<Action>, n: nat)
    requires WellFormed(a) && LegalHistory(a, h)
    ensures (if OnStack(Replay(a, h), n) then 1 else 0) + TimesPopped(h, n)
            == (if OnStack(a, n) then 1 else 0) + TimesPushed(h, n)
    decreases |h|
  {
    if h != [] {
      ApplyPlaces(a, h[0]);
      StepCounts(a, h[0], n);
      PoppedAtMostOnce(Apply(a, h[0]), h[1..], n);
    }
  }

  // ---------------------------------------------------------------------
  // The window cannot be wider
  // ---------------------------------------------------------------------

  /** `es` is a run from the first pair of states to the second. */
  ghost predicate Reaches(s: State, a: Abs, es: seq<Event>, s': State, a': Abs)
    decreases |es|
  {
    if es == [] then s == s' && a == a'
    else
      && Enabled(s, es[0]) && Allowed(s, a, es[0]) && InWindow(s, a, es[0])
      && Reaches(Next(s, es[0]), Advance(a, Observed(s, es[0])), es[1..], s', a')
  }

  lemma {:induction false} ReachesRun(s: State, a: Abs, es: seq<Event>, s': State, a': Abs)
    requires Reaches(s, a, es, s', a')
    ensures Run(s, a, es) && Outcome(s, es) == s' && Replay(a, History(s, es)) == a'
    decreases |es|
  {
    if es != [] {
      ReachesRun(Next(s, es[0]), Advance(a, Observed(s, es[0])), es[1..], s', a');
      assert History(s, es)[1..] == History(Next(s, es[0]), es[1..]);
    }
  }

  lemma {:induction false} ReachesThen(s: State, a: Abs, es: seq<Event>, s1: State, a1: Abs, fs: seq<Event>, s2: State, a2: Abs)
    requires Reaches(s, a, es, s1, a1) && Reaches(s1, a1, fs, s2, a2)
    ensures Reaches(s, a, es + fs, s2, a2)
    decreases |es|
  {
    hide Enabled, Next, Allowed, InWindow, Observed, Advance;
    if es == [] {
      assert es + fs == fs;
    } else {
      ReachesThen(Next(s, es[0]), Advance(a, Observed(s, es[0])), es[1..], s1, a1, fs, s2, a2);
      assert (es + fs)[1..] == es[1..] + fs;
    }
  }

  ghost predicate Takes(s: State, a: Abs, e: Event, s': State, a': Abs) {
    && Enabled(s, e) && Allowed(s, a, e) && InWindow(s, a, e)
    && s' == Next(s, e) && a' == Advance(a, Observed(s, e))
  }

  lemma ThreeSteps(s: State, a: Abs, e0: Event, s1: State, a1: Abs, e1: Event, s2: State, a2: Abs, e2: Event, s3: State, a3: Abs)
    requires Takes(s, a, e0, s1, a1) && Takes(s1, a1, e1, s2, a2) && Takes(s2, a2, e2, s3, a3)
    ensures Reaches(s, a, [e0, e1, e2], s3, a3)
  {
    hide Enabled, Next, Allowed, InWindow, Observed, Advance;
    var es := [e0, e1, e2];
    assert es[1..] == [e1, e2] && es[1..][1..] == [e2] && es[1..][1..][1..] == [];
    assert Reaches(s3, a3, [], s3, a3);
    assert Reaches(s2, a2, [e2], s3, a3);
    assert Reaches(s1, a1, [e1, e2], s3, a3);
  }

  function PushEvents(t: nat, node: nat): seq<Event> {
    [BeginPush(t, 0, [node]), Link(t), Exchange(t)]
  }

  function PopEvents(t: nat): seq<Event> {
    [BeginPop(t, 0), Read(t), Exchange(t)]
  }

  /** One undisturbed push of a single node on a single-stack cache. */
  lemma PushAlone(mem: Memory, p: nat, n: nat, victim: Local, node: nat, a: Abs)
    requires p < PTR_SPACE && |a.done| == |a.stacks| == 1 && |a.owned| == |a.since| == 2
    requires a.done[0] == n && node in a.owned[1]
    ensures Reaches(State([Make(p, n)], mem, [victim, Idle]), a, PushEvents(1, node),
                    State([Make(node, n + 1)], mem[node := p], [victim, Idle]),
                    Abs([[node] + a.stacks[0]], [a.owned[0], a.owned[1] - {node}], [n + 1], [a.since[0], n]))
  {
    hide Make, TagOf, PtrOf, Reaches;
    UnpackPacked(p, n);
    NextTag(n, node);
    var w := Make(p, n);
    var s := State([w], mem, [victim, Idle]);
    var s1 := State([w], mem, [victim, Loaded(Push(0, [node]), w)]);
    var s2 := State([w], mem[node := p], [victim, Ready(Push(0, [node]), w, 0)]);
    var s3 := State([Make(node, n + 1)], mem[node := p], [victim, Idle]);
    var a1 := a.(since := [a.since[0], n]);
    var a3 := Abs([[node] + a.stacks[0]], [a.owned[0], a.owned[1] - {node}], [n + 1], [a.since[0], n]);
    assert Takes(s, a, BeginPush(1, 0, [node]), s1, a1) by {
      assert Next(s, BeginPush(1, 0, [node])) == s1;
      assert Advance(a, Loads(1, 0)) == a1;
    }
    assert Takes(s1, a1, Link(1), s2, a1) by {
      assert Next(s1, Link(1)) == s2;
    }
    assert Takes(s2, a1, Exchange(1), s3, a3) by {
      assert [node][0] == node;
      assert Elements([node]) == {node};
    }
    ThreeSteps(s, a, BeginPush(1, 0, [node]), s1, a1, Link(1), s2, a1, Exchange(1), s3, a3);
  }

  lemma LoadTakes(s: State, a: Abs, s1: State, a1: Abs)
    requires |s.heads| == 1 && |s.locals| == 2 && s.locals[1].Idle? && |a.done| == 1 && |a.since| == 2
    requires PtrOf(s.heads[0]) != 0
    requires s1 == s.(locals := [s.locals[0], Loaded(Pop(0), s.heads[0])])
    requires a1 == a.(since := [a.since[0], a.done[0]])
    ensures Takes(s, a, BeginPop(1, 0), s1, a1)
  {}

  lemma ReadTakes(s: State, a: Abs, s1: State)
    requires |s.locals| == 2 && s.locals[1].Loaded? && s.locals[1].op.Pop?
    requires s1 == s.(locals := [s.locals[0], Ready(s.locals[1].op, s.locals[1].seen, Word(s.mem, PtrOf(s.locals[1].seen)))])
    ensures Takes(s, a, Read(1), s1, a)
  {}

  lemma PopTakes(s: State, a: Abs, s1: State, a1: Abs)
    requires |s.heads| == |a.done| == |a.stacks| == 1 && |s.locals| == |a.since| == |a.owned| == 2
    requires s.locals[1].Ready? && s.locals[1].op == Pop(0) && s.locals[1].seen == s.heads[0]
    requires a.stacks[0] != [] && a.stacks[0][0] == PtrOf(s.heads[0]) && a.since[1] == a.done[0]
    requires s1 == s.(heads := [Make(s.locals[1].next, TagOf(s.heads[0]) + 1)], locals := [s.locals[0], Idle])
    requires a1 == a.(stacks := [a.stacks[0][1..]], owned := [a.owned[0], a.owned[1] + {PtrOf(s.heads[0])}],
                      done := [a.done[0] + 1])
    ensures Takes(s, a, Exchange(1), s1, a1)
  {}

  lemma PopAlone(mem: Memory, p: nat, n: nat, victim: Local, a: Abs)
    requires 0 < p < PTR_SPACE && |a.done| == |a.stacks| == 1 && |a.owned| == |a.since| == 2
    requires a.done[0] == n && a.stacks[0] != [] && a.stacks[0][0] == p
    ensures Reaches(State([Make(p, n)], mem, [victim, Idle]), a, PopEvents(1),
                    State([Make(Word(mem, p), n + 1)], mem, [victim, Idle]),
                    Abs([a.stacks[0][1..]], [a.owned[0], a.owned[1] + {p}], [n + 1], [a.since[0], n]))
  {
    hide Make, TagOf, PtrOf, Word, Reaches, Takes;
    UnpackPacked(p, n);
    NextTag(n, Word(mem, p));
    var w := Make(p, n);
    var s := State([w], mem, [victim, Idle]);
    var s1 := State([w], mem, [victim, Loaded(Pop(0), w)]);
    var s2 := State([w], mem, [victim, Ready(Pop(0), w, Word(mem, p))]);
    var s3 := State([Make(Word(mem, p), n + 1)], mem, [victim, Idle]);
    var a1 := a.(since := [a.since[0], n]);
    var a3 := Abs([a.stacks[0][1..]], [a.owned[0], a.owned[1] + {p}], [n + 1], [a.since[0], n]);
    LoadTakes(s, a, s1, a1);
    ReadTakes(s1, a1, s2);
    PopTakes(s2, a1, s3, a3);
    ThreeSteps(s, a, BeginPop(1, 0), s1, a1, Read(1), s2, a1, Exchange(1), s3, a3);
  }

  // Four nodes and two threads: the victim has read A's successor B and stopped.
  const A: nat := 16
  const B: nat := 32
  const C: nat := 48
  const D: nat := 64

  function Victim(): Local {
    Ready(Pop(0), Make(A, 0), B)
  }

  /** A is on top again, above C; B belongs to the other thread. */
  ghost function Spun(n: nat): State {
    State([Make(A, n)], map[A := C, B := 0, C := 0, D := A], [Victim(), Idle])
  }

  ghost function SpunAbs(n: nat): Abs
    requires n > 0
  {
    Abs([[A, C]], [{}, {B, D}], [n], [0, n - 1])
  }

  function Spins(k: nat): seq<Event> {
    if k == 0 then [] else Spins(k - 1) + (PushEvents(1, D) + PopEvents(1))
  }

  /** Pushing and popping D moves the tag on by two and changes nothing else. */
  lemma SpinOnce(n: nat)
    requires n > 0
    ensures Reaches(Spun(n), SpunAbs(n), PushEvents(1, D) + PopEvents(1), Spun(n + 2), SpunAbs(n + 2))
  {
    hide Reaches, Make;
    var mem := Spun(n).mem;
    PushAlone(mem, A, n, Victim(), D, SpunAbs(n));
    assert mem[D := A] == mem;
    var mid := State([Make(D, n + 1)], mem, [Victim(), Idle]);
    var midAbs := Abs([[D, A, C]], [{}, {B}], [n + 1], [0, n]);
    assert [D] + [A, C] == [D, A, C] && {B, D} - {D} == {B};
    PopAlone(mem, D, n + 1, Victim(), midAbs);
    assert [D, A, C][1..] == [A, C] && {B} + {D} == {B, D};
    ReachesThen(Spun(n), SpunAbs(n), PushEvents(1, D), mid, midAbs, PopEvents(1), Spun(n + 2), SpunAbs(n + 2));
  }

  lemma {:induction false} SpinMany(k: nat)
    ensures Reaches(Spun(4), SpunAbs(4), Spins(k), Spun(4 + 2 * k), SpunAbs(4 + 2 * k))
  {
    hide Reaches, Spun, SpunAbs;
    if k == 0 {
      ReachesNow(Spun(4), SpunAbs(4));
    } else {
      SpinMany(k - 1);
      SpinOnce(2 + 2 * k);
      ReachesThen(Spun(4), SpunAbs(4), Spins(k - 1), Spun(2 + 2 * k), SpunAbs(2 + 2 * k),
                  PushEvents(1, D) + PopEvents(1), Spun(4 + 2 * k), SpunAbs(4 + 2 * k));
    }
  }

  lemma ReachesNow(s: State, a: Abs)
    ensures Reaches(s, a, [], s, a)
  {}

  /** The other thread pops A and B, then pushes C and A back. */
  function Swap(): seq<Event> {
    (PopEvents(1) + PopEvents(1)) + (PushEvents(1, C) + PushEvents(1, A))
  }

  ghost function Start(): State {
    State([Make(A, 0)], map[A := B, B := 0, C := 0, D := A], [Idle, Idle])
  }

  ghost function StartAbs(): Abs {
    Abs([[A, B]], [{}, {C, D}], [0], [0, 0])
  }

  ghost function Stalled(): State {
    Start().(locals := [Victim(), Idle])
  }

  lemma SwapReaches()
    ensures Reaches(Stalled(), StartAbs(), Swap(), Spun(4), SpunAbs(4))
  {
    hide Reaches, Make;
    var m0 := map[A := B, B := 0, C := 0, D := A];
    var v := Victim();
    var a0 := StartAbs();
    PopAlone(m0, A, 0, v, a0);
    var s1, a1 := State([Make(B, 1)], m0, [v, Idle]), Abs([[B]], [{}, {A, C, D}], [1], [0, 0]);
    assert [A, B][1..] == [B] && {C, D} + {A} == {A, C, D};
    PopAlone(m0, B, 1, v, a1);
    var s2, a2 := State([Make(0, 2)], m0, [v, Idle]), Abs([[]], [{}, {A, B, C, D}], [2], [0, 1]);
    assert [B][1..] == [] && {A, C, D} + {B} == {A, B, C, D};
    PushAlone(m0, 0, 2, v, C, a2);
    var s3, a3 := State([Make(C, 3)], m0, [v, Idle]), Abs([[C]], [{}, {A, B, D}], [3], [0, 2]);
    assert [C] + [] == [C] && {A, B, C, D} - {C} == {A, B, D} && m0[C := 0] == m0;
    PushAlone(m0, C, 3, v, A, a3);
    assert [A] + [C] == [A, C] && {A, B, D} - {A} == {B, D} && m0[A := C] == Spun(4).mem;
    ReachesThen(Stalled(), a0, PopEvents(1), s1, a1, PopEvents(1), s2, a2);
    ReachesThen(s2, a2, PushEvents(1, C), s3, a3, PushEvents(1, A), Spun(4), SpunAbs(4));
    ReachesThen(Stalled(), a0, PopEvents(1) + PopEvents(1), s2, a2, PushEvents(1, C) + PushEvents(1, A), Spun(4), SpunAbs(4));
  }

  lemma StallReaches()
    ensures Reaches(Start(), StartAbs(), [BeginPop(0, 0), Read(0)], Stalled(), StartAbs())
  {}

  lemma StartSims()
    ensures Sim(Start(), StartAbs())
  {
    var s, a := Start(), StartAbs();
    assert Spells(s.mem, s.heads[0], a.stacks[0], a.done[0]);
  }

  /**
   The bound is exact: there is a run from a good state, with callers keeping
   their promises and every exchange inside the window, after which one more
   exchange, made exactly 65536 exchanges after its load, succeeds and leaves
   the stack headed by a node that another thread owns.
   */
  lemma WindowIsExact() returns (s: State, a: Abs, es: seq<Event>, e: Event)
    ensures Sim(s, a) && Run(s, a, es)
    ensures var s1, a1 := Outcome(s, es), Replay(a, History(s, es));
            && Enabled(s1, e) && e == Exchange(0) && Allowed(s1, a1, e)
            && |a1.done| == 1 && |a1.since| == |a1.owned| == 2
            && a1.done[0] == a1.since[0] + TAGS
            && PtrOf(Next(s1, e).heads[0]) in a1.owned[1]
            && !Sim(Next(s1, e), Advance(a1, Observed(s1, e)))
  {
    hide Sim, Reaches, Enabled, Next, Allowed, Observed, Advance, PtrOf, Swap, Spins, Start, StartAbs, Stalled, Spun, SpunAbs;
    s, a, e := Start(), StartAbs(), Exchange(0);
    var k := 32766;
    var es1 := Swap() + Spins(k);
    es := [BeginPop(0, 0), Read(0)] + es1;
    StartSims();
    StallReaches();
    SwapReaches();
    SpinMany(k);
    var s1, a1 := Spun(TAGS), SpunAbs(TAGS);
    ReachesThen(Stalled(), StartAbs(), Swap(), Spun(4), SpunAbs(4), Spins(k), s1, a1);
    ReachesThen(s, a, [BeginPop(0, 0), Read(0)], Stalled(), StartAbs(), es1, s1, a1);
    ReachesRun(s, a, es, s1, a1);
    WrongHead();
  }

  lemma WrongHead()
    ensures var s1, a1, e := Spun(TAGS), SpunAbs(TAGS), Exchange(0);
            && Enabled(s1, e) && Allowed(s1, a1, e)
            && |a1.done| == 1 && |a1.since| == |a1.owned| == 2 && a1.done[0] == a1.since[0] + TAGS
            && PtrOf(Next(s1, e).heads[0]) in a1.owned[1]
            && !Sim(Next(s1, e), Advance(a1, Observed(s1, e)))
  {}

  // ---------------------------------------------------------------------
  // Popping a batch: one node at a time, chaining the nodes as they come
  // ---------------------------------------------------------------------

  /** How far the linking of the nodes popped so far has come. */
  datatype Phase =
    | Pending  // the newest node is not yet linked from the one before
    | Open     // linked; the last word is whatever it was on the stack
    | Closed   // NULL is stored in the last node and the batch is returned

  datatype Batch = Batch(chain: seq<nat>, phase: Phase)

  /** The words of a chain in the making. */
  ghost predicate Chained(mem: Memory, chain: seq<nat>, phase: Phase) {
    && (phase.Pending? ==> |chain| >= 2)
    && Linked(mem, if phase.Pending? then chain[..|chain| - 1] else chain)
    && (phase.Closed? && chain != [] ==> Word(mem, Tail(chain)) == 0)
  }

  ghost predicate BatchOk(mem: Memory, owned: set<nat>, b: Batch) {
    && Distinct(b.chain)
    && (forall k :: 0 <= k < |b.chain| ==> b.chain[k] in owned)
    && Chained(mem, b.chain, b.phase)
  }

  /** What the batch loop of thread `t` does next; other threads do as they please. */
  ghost predicate BatchMove(s: State, e: Event, t: nat, b: Batch)
    requires Enabled(s, e)
  {
    e.t != t ||
    match e
    case BeginPop(_, _) => b.phase.Open?
    case Read(_) => b.phase.Open?
    case Retry(_) => b.phase.Open? && s.locals[t].op.Pop?
    case Exchange(_) => b.phase.Open? && s.locals[t].op.Pop?
    case Write(_, node, value) =>
      if b.phase.Pending? then |b.chain| >= 2 && node == b.chain[|b.chain| - 2] && value == Tail(b.chain)
      else b.phase.Open? && b.chain != [] && node == Tail(b.chain) && value == 0
    case _ => false
  }

  ghost function Collect(s: State, e: Event, t: nat, b: Batch): Batch
    requires Enabled(s, e)
  {
    if e.t != t then b
    else if e.Exchange? then Batch(b.chain + [PtrOf(s.locals[t].seen)], if b.chain == [] then Open else Pending)
    else if e.Write? then Batch(b.chain, if b.phase.Pending? then Open else Closed)
    else b
  }

  /** A popped node was nobody's and becomes the popper's. */
  lemma PopTakesOver(s: State, a: Abs, t: nat)
    requires Sim(s, a) && Enabled(s, Exchange(t)) && s.locals[t].op.Pop?
    ensures t < |a.owned| && PtrOf(s.locals[t].seen) !in a.owned[t]
    ensures var a' := Advance(a, Observed(s, Exchange(t)));
            |a'.owned| == |a.owned| && a'.owned[t] == a.owned[t] + {PtrOf(s.locals[t].seen)}
  {
    var i, x := s.locals[t].op.stack, PtrOf(s.locals[t].seen);
    HeadEmpty(s, a, i);
    assert ThreadOk(s, a, t);
    assert a.stacks[i][0] == x;
    assert a.stacks[i][0] !in a.owned[t];
  }

  lemma BatchGrows(mem: Memory, owned: set<nat>, b: Batch, x: nat)
    requires BatchOk(mem, owned, b) && b.phase.Open? && x !in owned
    ensures BatchOk(mem, owned + {x}, Batch(b.chain + [x], if b.chain == [] then Open else Pending))
  {
    var chain := b.chain + [x];
    assert chain[..|b.chain|] == b.chain;
  }

  lemma BatchLinks(mem: Memory, owned: set<nat>, b: Batch)
    requires BatchOk(mem, owned, b)
    ensures b.phase.Pending? ==> BatchOk(mem[b.chain[|b.chain| - 2] := Tail(b.chain)], owned, Batch(b.chain, Open))
    ensures b.phase.Open? && b.chain != [] ==> BatchOk(mem[Tail(b.chain) := 0], owned, Batch(b.chain, Closed))
  {}

  /** What one thread does takes nothing from another and writes none of its nodes. */
  lemma OthersKeep(s: State, a: Abs, e: Event, t: nat)
    requires Sim(s, a) && Enabled(s, e) && Allowed(s, a, e) && e.t != t && t < |a.owned|
    ensures var a' := Advance(a, Observed(s, e));
            t < |a'.owned| && a.owned[t] <= a'.owned[t]
    ensures forall x :: x in a.owned[t] ==> Word(Next(s, e).mem, x) == Word(s.mem, x)
  {
    if e.Link? {
      assert ThreadOk(s, a, e.t);
      assert Tail(s.locals[e.t].op.chain) in a.owned[e.t];
    }
    assert e.t < t ==> a.owned[e.t] !! a.owned[t];
    assert t < e.t ==> a.owned[t] !! a.owned[e.t];
    hide Places, ThreadOk, Spells;
  }

  lemma BatchUndisturbed(mem: Memory, owned: set<nat>, b: Batch, mem': map<nat, nat>, owned': set<nat>)
    requires BatchOk(mem, owned, b) && owned <= owned'
    requires forall x :: x in owned ==> Word(mem', x) == Word(mem, x)
    ensures BatchOk(mem', owned', b)
  {}

  ghost predicate BatchRun(s: State, es: seq<Event>, t: nat, b: Batch)
    decreases |es|
  {
    es == [] ||
    (Enabled(s, es[0]) && BatchMove(s, es[0], t, b) && BatchRun(Next(s, es[0]), es[1..], t, Collect(s, es[0], t, b)))
  }

  ghost function Collected(s: State, es: seq<Event>, t: nat, b: Batch): Batch
    decreases |es|
  {
    if es == [] || !Enabled(s, es[0]) then b
    else Collected(Next(s, es[0]), es[1..], t, Collect(s, es[0], t, b))
  }

  ghost function PoppedBy(h: seq<Action>, t: nat): seq<nat> {
    if h == [] then [] else (if h[0].Pops? && h[0].t == t then [h[0].node] else []) + PoppedBy(h[1..], t)
  }

  lemma BatchStep(s: State, a: Abs, e: Event, t: nat, b: Batch)
    requires Sim(s, a) && Enabled(s, e) && Allowed(s, a, e) && InWindow(s, a, e)
    requires t < |a.owned| && BatchOk(s.mem, a.owned[t], b) && BatchMove(s, e, t, b)
    ensures var a' := Advance(a, Observed(s, e));
            t < |a'.owned| && BatchOk(Next(s, e).mem, a'.owned[t], Collect(s, e, t, b))
  {
    hide Sim, BatchOk;
    if e.t != t {
      OthersKeep(s, a, e, t);
      BatchUndisturbed(s.mem, a.owned[t], b, Next(s, e).mem, Advance(a, Observed(s, e)).owned[t]);
    } else if e.Exchange? {
      PopTakesOver(s, a, t);
      BatchGrows(s.mem, a.owned[t], b, PtrOf(s.locals[t].seen));
    } else if e.Write? {
      BatchLinks(s.mem, a.owned[t], b);
    }
  }

  lemma CollectAppends(s: State, e: Event, t: nat, b: Batch)
    requires Enabled(s, e) && BatchMove(s, e, t, b)
    ensures Collect(s, e, t, b).chain == b.chain + PoppedBy([Observed(s, e)], t)
  {}

  lemma EmptyHistory(t: nat)
    ensures PoppedBy([], t) == []
  {}

  lemma PoppedByCons(x: Action, h: seq<Action>, t: nat)
    ensures PoppedBy([x] + h, t) == PoppedBy([x], t) + PoppedBy(h, t)
  {}

  /**
   A batch pop overtaken by anyone at any point yields a chain of nodes in the
   order they were popped, correctly linked, owned by the popper and, once
   returned, ended by NULL: exactly what a batch push requires of its argument.
   */
  lemma {:induction false} PopBatchChains(s: State, a: Abs, es: seq<Event>, t: nat, b: Batch)
    requires Sim(s, a) && Run(s, a, es) && BatchRun(s, es, t, b)
    requires t < |a.owned| && BatchOk(s.mem, a.owned[t], b)
    ensures var s', a', b' := Outcome(s, es), Replay(a, History(s, es)), Collected(s, es, t, b);
            && t < |a'.owned| && BatchOk(s'.mem, a'.owned[t], b')
            && b'.chain == b.chain + PoppedBy(History(s, es), t)
    decreases |es|
  {
    hide Sim, BatchOk, BatchMove, Enabled, Next, Allowed, InWindow, Observed, Legal, Apply, Collect, PoppedBy;
    if es == [] {
      assert PoppedBy([], t) == [] by { EmptyHistory(t); }
      assert b.chain + [] == b.chain;
    } else {
      var e := es[0];
      StepLinearizes(s, a, e);
      BatchStep(s, a, e, t, b);
      PopBatchChains(Next(s, e), Advance(a, Observed(s, e)), es[1..], t, Collect(s, e, t, b));
      assert History(s, es)[1..] == History(Next(s, e), es[1..]);
      CollectAppends(s, e, t, b);
      PoppedByCons(Observed(s, e), History(Next(s, e), es[1..]), t);
    }
  }
}
