/**
 The lock-free ownership query against concurrent writers of the region map.
 A writer makes the version odd, stores into the table in any order and with
 any intermediate contents, and makes the version even again once the new
 table is in place. A reader takes one load at a time: version, count, one
 entry per probe of its binary search, and the version again; it also keeps
 the verdict of its last query for the 64 KiB page it was about.
 */
module Seqlock {
  import opened Basics
  import opened RegionMap

  const TRIES: nat := 4

  datatype Answer = Owned | NotOwned | Unknown

  /** One load away from its next position. */
  datatype Reader =
    | Resting
    | Peeking(addr: nat)
    | Starting(addr: nat, tries: nat)
    | Sizing(addr: nat, tries: nat, seen: nat)
    | Probing(addr: nat, tries: nat, seen: nat, count: nat, low: nat, high: nat)
    | FirstCheck(addr: nat, tries: nat, seen: nat, at: nat)
    | LastCheck(addr: nat, tries: nat, seen: nat, at: nat)
    | Closing(addr: nat, tries: nat, seen: nat, owned: bool)
    | Answered(addr: nat, answer: Answer)

  datatype Cache = Cache(page: nat, version: nat, verdict: bool)

  datatype Writer = Quiet | Writing(target: seq<Region>)

  datatype State = State(table: seq<Region>, count: nat, version: nat, writer: Writer,
                         readers: seq<Reader>, caches: seq<Cache>)

  datatype Event =
    | BeginRegister(r: Region, i: nat)
    | BeginUnregister(start: nat, i: nat)
    | StoreEntry(i: nat, r: Region)
    | StoreCount
    | EndWrite
    | StampNode(i: nat, node: nat)
    | Ask(t: nat, addr: nat)
    | Load(t: nat)
    | Rest(t: nat)

  // ---------------------------------------------------------------------
  // The machine
  // ---------------------------------------------------------------------

  function Contents(s: State): seq<Region>
    requires s.count <= |s.table|
  {
    s.table[..s.count]
  }

  /** Callers round every mapping to the 64 KiB page. */
  ghost predicate PageAligned(r: Region) {
    r.start % PAGE_SIZE == 0 && r.end % PAGE_SIZE == 0
  }

  function EntryAt(s: State, i: nat): Region {
    if i < |s.table| then s.table[i] else Region(0, 0, 0, false)
  }

  function Retry(addr: nat, tries: nat): Reader {
    if tries + 1 < TRIES then Starting(addr, tries + 1) else Answered(addr, Unknown)
  }

  function AfterProbe(addr: nat, tries: nat, seen: nat, count: nat, low: nat, high: nat): Reader {
    if low < high then Probing(addr, tries, seen, count, low, high)
    else if low > 0 && low <= count then FirstCheck(addr, tries, seen, low - 1)
    else Closing(addr, tries, seen, false)
  }

  function Mid(low: nat, high: nat): nat {
    if low <= high then low + (high - low) / 2 else low
  }

  lemma MidBetween(low: nat, high: nat)
    requires low < high
    ensures low <= Mid(low, high) < high
    ensures Mid(low, high) - low <= (high - low) / 2 && high - Mid(low, high) - 1 <= (high - low) / 2
  {}

  function Verdict(owned: bool): Answer {
    if owned then Owned else NotOwned
  }

  function Asked(addr: nat, c: Cache): Reader {
    if addr == 0 then Answered(addr, NotOwned)
    else if PageOf(addr) == c.page then Peeking(addr)
    else Starting(addr, 0)
  }

  predicate Busy(l: Reader) {
    !l.Resting? && !l.Answered?
  }

  function AfterLoad(s: State, l: Reader, c: Cache): Reader
    requires Busy(l)
  {
    match l
    case Peeking(addr) =>
      if s.version == c.version && s.version % 2 == 0 then Answered(addr, Verdict(c.verdict)) else Starting(addr, 0)
    case Starting(addr, tries) =>
      if s.version % 2 != 0 then Retry(addr, tries) else Sizing(addr, tries, s.version)
    case Sizing(addr, tries, seen) => AfterProbe(addr, tries, seen, s.count, 0, s.count)
    case Probing(addr, tries, seen, count, low, high) =>
      var mid := Mid(low, high);
      if EntryAt(s, mid).start <= addr then AfterProbe(addr, tries, seen, count, mid + 1, high)
      else AfterProbe(addr, tries, seen, count, low, mid)
    case FirstCheck(addr, tries, seen, at) =>
      if addr >= EntryAt(s, at).start then LastCheck(addr, tries, seen, at) else Closing(addr, tries, seen, false)
    case LastCheck(addr, tries, seen, at) => Closing(addr, tries, seen, addr < EntryAt(s, at).end)
    case Closing(addr, tries, seen, owned) =>
      if s.version == seen then Answered(addr, Verdict(owned)) else Retry(addr, tries)
  }

  function CacheAfterLoad(s: State, l: Reader, c: Cache): Cache {
    if l.Closing? && s.version == l.seen then Cache(PageOf(l.addr), s.version, l.owned) else c
  }

  ghost predicate Enabled(s: State, e: Event) {
    match e
    case BeginRegister(r, i) =>
      && s.writer.Quiet? && s.count < CAPACITY && s.count <= |s.table|
      && 0 < r.start < r.end && PageAligned(r) && Apart(Contents(s), r) && LowerBoundAt(Contents(s), r.start, i)
    case BeginUnregister(start, i) => s.writer.Quiet? && i < s.count <= |s.table| && s.table[i].start == start
    case StoreEntry(i, r) => s.writer.Writing? && i < |s.table|
    case StoreCount => s.writer.Writing?
    case EndWrite => s.writer.Writing? && s.count <= |s.table| && Contents(s) == s.writer.target
    case StampNode(i, node) => s.writer.Quiet? && i < s.count <= |s.table|
    case Ask(t, addr) => t < |s.readers| == |s.caches| && s.readers[t].Resting?
    case Load(t) => t < |s.readers| == |s.caches| && Busy(s.readers[t])
    case Rest(t) => t < |s.readers| && s.readers[t].Answered?
  }

  ghost function Next(s: State, e: Event): State
    requires Enabled(s, e)
  {
    match e
    case BeginRegister(r, i) =>
      s.(version := s.version + 1, writer := Writing(InsertedAt(Contents(s), i, r)))
    case BeginUnregister(start, i) =>
      s.(version := s.version + 1, writer := Writing(RemovedAt(Contents(s), i)))
    case StoreEntry(i, r) => s.(table := s.table[i := r])
    case StoreCount => s.(count := |s.writer.target|)
    case EndWrite => s.(version := s.version + 1, writer := Quiet)
    case StampNode(i, node) => s.(table := s.table[i := s.table[i].(node := node)])
    case Ask(t, addr) => s.(readers := s.readers[t := Asked(addr, s.caches[t])])
    case Load(t) =>
      s.(readers := s.readers[t := AfterLoad(s, s.readers[t], s.caches[t])],
         caches := s.caches[t := CacheAfterLoad(s, s.readers[t], s.caches[t])])
    case Rest(t) => s.(readers := s.readers[t := Resting])
  }

  // ---------------------------------------------------------------------
  // What every reachable state satisfies
  // ---------------------------------------------------------------------

  ghost predicate Proper(rs: seq<Region>) {
    && |rs| <= CAPACITY && Sorted(rs)
    && (forall i :: 0 <= i < |rs| ==> PageAligned(rs[i]))
  }

  ghost predicate TableOk(s: State) {
    && |s.table| == CAPACITY && s.count <= CAPACITY
    && (s.writer.Quiet? <==> s.version % 2 == 0)
    && (s.writer.Quiet? ==> Proper(Contents(s)))
    && (s.writer.Writing? ==> Proper(s.writer.target))
    && (s.version == 0 ==> s.count == 0)
  }

  /** The cached verdict holds for every address of its page while the version stands. */
  ghost predicate CacheOk(rs: seq<Region>, version: nat, c: Cache) {
    && c.version <= version && c.version % 2 == 0
    && (c.version == version ==>
          forall addr: nat :: addr > 0 && PageOf(addr) == c.page ==> (c.verdict <==> Member(rs, addr)))
  }

  /** What a reader has learnt is about the current table as long as the version stands. */
  ghost predicate ReaderOk(rs: seq<Region>, version: nat, l: Reader) {
    match l
    case Resting => true
    case Answered(_, _) => true
    case Peeking(addr) => addr > 0
    case Starting(addr, tries) => addr > 0 && tries < TRIES
    case Sizing(addr, tries, seen) => addr > 0 && tries < TRIES && Snapshot(seen, version)
    case Probing(addr, tries, seen, count, low, high) =>
      && addr > 0 && tries < TRIES && Snapshot(seen, version)
      && low < high <= count <= CAPACITY
      && (seen == version ==>
            && count == |rs|
            && (forall i :: 0 <= i < low ==> rs[i].start <= addr)
            && (forall i :: high <= i < count ==> addr < rs[i].start))
    case FirstCheck(addr, tries, seen, at) =>
      && addr > 0 && tries < TRIES && Snapshot(seen, version) && at < CAPACITY
      && (seen == version ==> SplitsAt(rs, addr, at + 1))
    case LastCheck(addr, tries, seen, at) =>
      && addr > 0 && tries < TRIES && Snapshot(seen, version) && at < CAPACITY
      && (seen == version ==> SplitsAt(rs, addr, at + 1))
    case Closing(addr, tries, seen, owned) =>
      && addr > 0 && tries < TRIES && Snapshot(seen, version)
      && (seen == version ==> (owned <==> Member(rs, addr)))
  }

  ghost predicate Snapshot(seen: nat, version: nat) {
    seen % 2 == 0 && seen <= version
  }

  ghost predicate Inv(s: State) {
    && TableOk(s) && |s.readers| == |s.caches|
    && (forall t :: 0 <= t < |s.caches| ==> CacheOk(Contents(s), s.version, s.caches[t]))
    && (forall t :: 0 <= t < |s.readers| ==> ReaderOk(Contents(s), s.version, s.readers[t]))
    && (forall t :: 0 <= t < |s.readers| && s.readers[t].Peeking? ==> PageOf(s.readers[t].addr) == s.caches[t].page)
  }

  // ---------------------------------------------------------------------
  // Writers
  // ---------------------------------------------------------------------

  lemma LaterVersion(rs: seq<Region>, rs': seq<Region>, version: nat, version': nat, l: Reader, c: Cache)
    requires ReaderOk(rs, version, l) && CacheOk(rs, version, c) && version < version'
    ensures ReaderOk(rs', version', l) && CacheOk(rs', version', c)
  {}

  /** An odd version is nobody's snapshot, so stores made under it hurt no reader. */
  lemma OddVersion(rs: seq<Region>, rs': seq<Region>, version: nat, l: Reader, c: Cache)
    requires ReaderOk(rs, version, l) && CacheOk(rs, version, c) && version % 2 != 0
    ensures ReaderOk(rs', version, l) && CacheOk(rs', version, c)
  {}

  ghost predicate SameSpans(rs: seq<Region>, rs': seq<Region>) {
    && |rs| == |rs'|
    && (forall i :: 0 <= i < |rs| ==> rs[i].start == rs'[i].start && rs[i].end == rs'[i].end)
  }

  lemma SameVerdicts(rs: seq<Region>, rs': seq<Region>, version: nat, l: Reader, c: Cache)
    requires ReaderOk(rs, version, l) && CacheOk(rs, version, c) && SameSpans(rs, rs')
    ensures ReaderOk(rs', version, l) && CacheOk(rs', version, c)
  {}

  lemma InsertProper(rs: seq<Region>, r: Region, i: nat)
    requires Proper(rs) && |rs| < CAPACITY && 0 < r.start < r.end && PageAligned(r)
    requires Apart(rs, r) && LowerBoundAt(rs, r.start, i)
    ensures Proper(InsertedAt(rs, i, r))
  {}

  lemma RemoveProper(rs: seq<Region>, i: nat)
    requires Proper(rs) && i < |rs|
    ensures Proper(RemovedAt(rs, i))
  {}

  predicate IsWrite(e: Event) {
    !e.Ask? && !e.Load? && !e.Rest?
  }

  lemma WriteTable(s: State, e: Event)
    requires TableOk(s) && Enabled(s, e) && IsWrite(e)
    ensures TableOk(Next(s, e))
    ensures s.version < Next(s, e).version
            || (s.version == Next(s, e).version && (s.version % 2 != 0 || SameSpans(Contents(s), Contents(Next(s, e)))))
  {
    match e
    case BeginRegister(r, i) => InsertProper(Contents(s), r, i);
    case BeginUnregister(start, i) => RemoveProper(Contents(s), i);
    case StampNode(i, node) =>
      var s' := Next(s, e);
      assert SameSpans(Contents(s), Contents(s'));
      StampProper(Contents(s), Contents(s'));
    case _ =>
  }

  lemma StampProper(rs: seq<Region>, rs': seq<Region>)
    requires Proper(rs) && SameSpans(rs, rs')
    ensures Proper(rs')
  {}

  lemma WriteKeeps(s: State, e: Event)
    requires Inv(s) && Enabled(s, e) && IsWrite(e)
    ensures Inv(Next(s, e))
  {
    hide CacheOk, ReaderOk, SameSpans;
    WriteTable(s, e);
    var s' := Next(s, e);
    hide Enabled;
    assert s'.readers == s.readers && s'.caches == s.caches;
    forall t | 0 <= t < |s.readers|
      ensures ReaderOk(Contents(s'), s'.version, s.readers[t]) && CacheOk(Contents(s'), s'.version, s.caches[t])
    {
      if s.version < s'.version {
        LaterVersion(Contents(s), Contents(s'), s.version, s'.version, s.readers[t], s.caches[t]);
      } else if s.version % 2 != 0 {
        OddVersion(Contents(s), Contents(s'), s.version, s.readers[t], s.caches[t]);
      } else {
        SameVerdicts(Contents(s), Contents(s'), s.version, s.readers[t], s.caches[t]);
      }
    }
  }

  // ---------------------------------------------------------------------
  // Readers
  // ---------------------------------------------------------------------

  /** Regions made of whole pages give every address of a page the same verdict. */
  lemma PageUniform(rs: seq<Region>, addr: nat, addr': nat)
    requires Proper(rs) && PageOf(addr) == PageOf(addr') && Member(rs, addr)
    ensures Member(rs, addr')
  {}

  lemma CacheFilled(rs: seq<Region>, version: nat, addr: nat, owned: bool)
    requires Proper(rs) && version % 2 == 0 && (owned <==> Member(rs, addr))
    ensures CacheOk(rs, version, Cache(PageOf(addr), version, owned))
  {
    forall addr': nat | PageOf(addr') == PageOf(addr)
      ensures owned <==> Member(rs, addr')
    {
      if owned {
        PageUniform(rs, addr, addr');
      } else if Member(rs, addr') {
        PageUniform(rs, addr', addr);
      }
    }
  }

  /** Whatever it loads, a reader only ever indexes below the capacity of the table. */
  lemma StaysInBounds(s: State, t: nat)
    requires Inv(s) && t < |s.readers|
    ensures var l := s.readers[t];
            && (l.Probing? ==> Mid(l.low, l.high) < |s.table|)
            && (l.FirstCheck? ==> l.at < |s.table|)
            && (l.LastCheck? ==> l.at < |s.table|)
  {}

  lemma SplitFound(rs: seq<Region>, version: nat, addr: nat, tries: nat, seen: nat, count: nat, low: nat, high: nat)
    requires addr > 0 && tries < TRIES && Snapshot(seen, version) && low <= high <= count <= CAPACITY
    requires seen == version ==>
      && count == |rs| && Sorted(rs)
      && (forall i :: 0 <= i < low ==> rs[i].start <= addr)
      && (forall i :: high <= i < count ==> addr < rs[i].start)
    ensures ReaderOk(rs, version, AfterProbe(addr, tries, seen, count, low, high))
  {}

  lemma StartsOrdered(rs: seq<Region>, mid: nat)
    requires Sorted(rs) && mid < |rs|
    ensures forall i :: 0 <= i <= mid ==> rs[i].start <= rs[mid].start
    ensures forall i :: mid <= i < |rs| ==> rs[mid].start <= rs[i].start
  {}

  lemma ProbeKeeps(s: State, l: Reader, c: Cache)
    requires TableOk(s) && l.Probing? && ReaderOk(Contents(s), s.version, l)
    ensures ReaderOk(Contents(s), s.version, AfterLoad(s, l, c))
  {
    hide Sorted, AfterProbe, Member, Mid;
    var rs := Contents(s);
    var mid := Mid(l.low, l.high);
    MidBetween(l.low, l.high);
    if l.seen == s.version {
      assert EntryAt(s, mid) == rs[mid];
      StartsOrdered(rs, mid);
    }
    if EntryAt(s, mid).start <= l.addr {
      SplitFound(rs, s.version, l.addr, l.tries, l.seen, l.count, mid + 1, l.high);
    } else {
      SplitFound(rs, s.version, l.addr, l.tries, l.seen, l.count, l.low, mid);
    }
  }

  lemma CheckKeeps(s: State, l: Reader, c: Cache)
    requires TableOk(s) && (l.FirstCheck? || l.LastCheck?) && ReaderOk(Contents(s), s.version, l)
    ensures ReaderOk(Contents(s), s.version, AfterLoad(s, l, c))
  {}

  lemma LoadKeeps(s: State, l: Reader, c: Cache)
    requires TableOk(s) && Busy(l) && ReaderOk(Contents(s), s.version, l) && CacheOk(Contents(s), s.version, c)
    ensures ReaderOk(Contents(s), s.version, AfterLoad(s, l, c))
    ensures CacheOk(Contents(s), s.version, CacheAfterLoad(s, l, c))
  {
    match l
    case Sizing(addr, tries, seen) =>
      SplitFound(Contents(s), s.version, addr, tries, seen, s.count, 0, s.count);
    case Probing(_, _, _, _, _, _) => ProbeKeeps(s, l, c);
    case FirstCheck(_, _, _, _) => CheckKeeps(s, l, c);
    case LastCheck(_, _, _, _) => CheckKeeps(s, l, c);
    case Closing(addr, tries, seen, owned) =>
      if s.version == seen {
        CacheFilled(Contents(s), s.version, addr, owned);
      }
    case _ =>
  }

  /** Every step of every writer and every reader keeps the invariant. */
  lemma StepKeeps(s: State, e: Event)
    requires Inv(s) && Enabled(s, e)
    ensures Inv(Next(s, e))
  {
    hide CacheOk, ReaderOk;
    if IsWrite(e) {
      WriteKeeps(s, e);
    } else {
      var t, s' := e.t, Next(s, e);
      assert Contents(s') == Contents(s);
      assert ReaderOk(Contents(s), s.version, s.readers[t]);
      assert CacheOk(Contents(s), s.version, s.caches[t]);
      if e.Load? {
        LoadKeeps(s, s.readers[t], s.caches[t]);
      } else if e.Ask? {
        AskKeeps(Contents(s), s.version, e.addr, s.caches[t]);
      } else {
        AskKeeps(Contents(s), s.version, 0, s.caches[t]);
      }
    }
  }

  lemma AskKeeps(rs: seq<Region>, version: nat, addr: nat, c: Cache)
    ensures ReaderOk(rs, version, Asked(addr, c)) && ReaderOk(rs, version, Resting)
  {}

  // ---------------------------------------------------------------------
  // Verdicts
  // ---------------------------------------------------------------------

  /** Answers given by an event, when it gives one. */
  ghost function AnswerOf(s: State, e: Event): Option<(nat, Answer)>
    requires Enabled(s, e)
  {
    if (e.Load? || e.Ask?) && Next(s, e).readers[e.t].Answered? then
      Some((Next(s, e).readers[e.t].addr, Next(s, e).readers[e.t].answer))
    else None
  }

  // ---------------------------------------------------------------------
  // What the callers asked for
  // ---------------------------------------------------------------------

  /** The call a writer is carrying out. */
  datatype Call = Nothing | Adds(start: nat, end: nat) | Drops(start: nat)

  /** The mappings registered and not since unregistered, and the call under way. */
  datatype Record = Record(held: Ledger, call: Call)

  const FRESH: Record := Record(map[], Nothing)

  function Settled(rec: Record): Ledger {
    match rec.call
    case Nothing => rec.held
    case Adds(start, end) => rec.held[start := end]
    case Drops(start) => rec.held - {start}
  }

  /** Read off the calls alone; a call takes effect when its writer is done. */
  function Recorded(rec: Record, e: Event): Record {
    match e
    case BeginRegister(r, i) => rec.(call := Adds(r.start, r.end))
    case BeginUnregister(start, i) => rec.(call := Drops(start))
    case EndWrite => Record(Settled(rec), Nothing)
    case _ => rec
  }

  /** The table lists what the calls add up to. */
  ghost predicate Agrees(s: State, rec: Record)
    requires s.count <= |s.table|
  {
    && (forall a :: a in rec.held ==> a > 0)
    && match s.writer
       case Quiet => rec.call.Nothing? && Lists(Contents(s), rec.held)
       case Writing(target) => !rec.call.Nothing? && Lists(target, Settled(rec)) && forall a :: a in Settled(rec) ==> a > 0
  }

  lemma StampLists(rs: seq<Region>, rs': seq<Region>, held: Ledger)
    requires SameSpans(rs, rs') && Lists(rs, held)
    ensures Lists(rs', held)
  {
    forall a | a in held
      ensures HasStart(rs', a)
    {
      assert HasStart(rs, a);
      var i :| 0 <= i < |rs| && rs[i].start == a;
      assert rs'[i].start == a;
    }
  }

  /** Every step keeps the table and the record of calls in agreement. */
  lemma StepAgrees(s: State, rec: Record, e: Event)
    requires Inv(s) && Agrees(s, rec) && Enabled(s, e)
    ensures Inv(Next(s, e)) && Agrees(Next(s, e), Recorded(rec, e))
  {
    StepKeeps(s, e);
    hide Inv, Lists, CacheOk, ReaderOk;
    assert TableOk(s) by { TableOf(s); }
    var s' := Next(s, e);
    match e
    case BeginRegister(r, i) => InsertLists(Contents(s), rec.held, i, r);
    case BeginUnregister(start, i) => RemoveLists(Contents(s), rec.held, i);
    case StampNode(i, node) =>
      assert SameSpans(Contents(s), Contents(s'));
      StampLists(Contents(s), Contents(s'), rec.held);
    case _ => assert e.EndWrite? || s'.writer == s.writer;
  }

  lemma TableOf(s: State)
    requires Inv(s)
    ensures TableOk(s)
  {}

  /** A definite answer tells whether a mapping registered and not since unregistered covers the address. */
  ghost predicate Right(s: State, rec: Record, e: Event)
    requires Enabled(s, e)
  {
    match AnswerOf(s, e)
    case None => true
    case Some((addr, answer)) =>
      answer.Unknown? || ((addr == 0 || rec.call.Nothing?) && (answer.Owned? <==> CoveredBy(rec.held, addr)))
  }

  /** What a definite answer says of the table in force at the very step that gives it. */
  lemma AnswersAreRight(s: State, e: Event)
    requires Inv(s) && Enabled(s, e)
    ensures match AnswerOf(s, e)
            case None => true
            case Some((addr, answer)) =>
              answer.Unknown? || (addr == 0 && answer.NotOwned?) || (s.writer.Quiet? && (answer.Owned? <==> Member(Contents(s), addr)))
  {}

  lemma StepRight(s: State, rec: Record, e: Event)
    requires Inv(s) && Agrees(s, rec) && Enabled(s, e)
    ensures Right(s, rec, e)
  {
    AnswersAreRight(s, e);
    hide Inv, Enabled, Lists;
    var a := AnswerOf(s, e);
    if a.Some? && s.writer.Quiet? {
      ListsMembers(Contents(s), rec.held, a.value.0);
    }
  }

  ghost predicate Run(s: State, es: seq<Event>)
    decreases |es|
  {
    es == [] || (Enabled(s, es[0]) && Run(Next(s, es[0]), es[1..]))
  }

  ghost predicate AllRight(s: State, rec: Record, es: seq<Event>)
    decreases |es|
  {
    es == [] ||
    (Enabled(s, es[0]) && Right(s, rec, es[0]) && AllRight(Next(s, es[0]), Recorded(rec, es[0]), es[1..]))
  }

  /** No mapping yet, every thread's cache zero-initialised. */
  ghost predicate Initial(s: State) {
    && |s.table| == CAPACITY && s.count == 0 && s.version == 0 && s.writer.Quiet?
    && |s.readers| == |s.caches|
    && (forall t :: 0 <= t < |s.readers| ==> s.readers[t].Resting? && s.caches[t] == Cache(0, 0, false))
  }

  lemma InitialInv(s: State)
    requires Initial(s)
    ensures Inv(s) && Agrees(s, FRESH)
  {}

  lemma {:induction false} RunRight(s: State, rec: Record, es: seq<Event>)
    requires Inv(s) && Agrees(s, rec) && Run(s, es)
    ensures AllRight(s, rec, es)
    decreases |es|
  {
    hide Inv, Agrees, Enabled, Next, Right, Recorded;
    if es != [] {
      StepAgrees(s, rec, es[0]);
      StepRight(s, rec, es[0]);
      RunRight(Next(s, es[0]), Recorded(rec, es[0]), es[1..]);
    }
  }

  /**
   From program start, under any interleaving of writers and readers: no
   definite answer is ever wrong about the mappings that were registered and
   not since unregistered.
   */
  lemma EveryRunAnswersRight(s: State, es: seq<Event>)
    requires Initial(s) && Run(s, es)
    ensures AllRight(s, FRESH, es)
  {
    InitialInv(s);
    RunRight(s, FRESH, es);
  }

  // ---------------------------------------------------------------------
  // What one call of a writer does
  // ---------------------------------------------------------------------

  lemma {:induction false} LedgerOf(rs: seq<Region>) returns (held: Ledger)
    requires Sorted(rs)
    ensures Lists(rs, held) && forall a :: a in held ==> a > 0
    decreases |rs|
  {
    if rs == [] {
      held := map[];
    } else {
      var n := |rs| - 1;
      var front, last := rs[..n], rs[n];
      assert Apart(front, last);
      var h := LedgerOf(front);
      InsertLists(front, h, n, last);
      assert InsertedAt(front, n, last) == rs;
      held := h[last.start := last.end];
    }
  }

  ghost function RecordedAll(rec: Record, es: seq<Event>): Record
    decreases |es|
  {
    if es == [] then rec else RecordedAll(Recorded(rec, es[0]), es[1..])
  }

  lemma {:induction false} RunAgrees(s: State, rec: Record, es: seq<Event>)
    requires Inv(s) && Agrees(s, rec) && Run(s, es)
    ensures Inv(Outcome(s, es)) && Agrees(Outcome(s, es), RecordedAll(rec, es))
    decreases |es|
  {
    hide Inv, Agrees, Enabled, Next, Recorded;
    if es != [] {
      StepAgrees(s, rec, es[0]);
      RunAgrees(Next(s, es[0]), Recorded(rec, es[0]), es[1..]);
    }
  }

  /** While a writer is at work, nothing else is recorded. */
  lemma {:induction false} WritingOn(s: State, rec: Record, es: seq<Event>)
    requires Run(s, es) && s.writer.Writing? && forall k :: 0 <= k < |es| ==> !es[k].EndWrite?
    ensures RecordedAll(rec, es) == rec && Outcome(s, es).writer.Writing?
    decreases |es|
  {
    if es != [] {
      assert !es[0].EndWrite?;
      assert forall k :: 0 <= k < |es[1..]| ==> es[1..][k] == es[k + 1];
      WritingOn(Next(s, es[0]), rec, es[1..]);
    }
  }

  lemma WriterDone(s: State, rec: Record, e: Event, es: seq<Event>, s1: State, s2: State)
    requires Inv(s) && Agrees(s, rec) && Enabled(s, e) && (e.BeginRegister? || e.BeginUnregister?)
    requires Run(Next(s, e), es) && s1 == Outcome(Next(s, e), es) && (forall k :: 0 <= k < |es| ==> !es[k].EndWrite?)
    requires Enabled(s1, EndWrite) && s2 == Next(s1, EndWrite)
    ensures s2.count <= |s2.table| && s2.writer.Quiet? && Lists(Contents(s2), Settled(Recorded(rec, e)))
  {
    var rec1 := Recorded(rec, e);
    StepAgrees(s, rec, e);
    WritingOn(Next(s, e), rec1, es);
    hide Inv;
    RunAgrees(Next(s, e), rec1, es);
    StepAgrees(s1, rec1, EndWrite);
  }

  /**
   From its first bump of the version to its last, with any stores, queries
   and answers in between: a registration adds exactly its own addresses to
   those covered, and an unregistration removes exactly those of the entry
   with that start.
   */
  lemma CallDoes(s: State, e: Event, es: seq<Event>, s1: State, s2: State, addr: nat)
    requires Inv(s) && Enabled(s, e) && (e.BeginRegister? || e.BeginUnregister?)
    requires Run(Next(s, e), es) && s1 == Outcome(Next(s, e), es) && (forall k :: 0 <= k < |es| ==> !es[k].EndWrite?)
    requires Enabled(s1, EndWrite) && s2 == Next(s1, EndWrite)
    ensures s2.count <= |s2.table|
    ensures e.BeginRegister? ==>
      (Member(Contents(s2), addr) <==> Member(Contents(s), addr) || e.r.start <= addr < e.r.end)
    ensures e.BeginUnregister? ==>
      (Member(Contents(s2), addr) <==> Member(Contents(s), addr) && !(s.table[e.i].start <= addr < s.table[e.i].end))
  {
    TableOf(s);
    hide Inv, CacheOk, ReaderOk;
    var rs := Contents(s);
    var held := LedgerOf(rs);
    var rec := Record(held, Nothing);
    WriterDone(s, rec, e, es, s1, s2);
    ListsMembers(rs, held, addr);
    ListsMembers(Contents(s2), Settled(Recorded(rec, e)), addr);
    hide Agrees, Lists;
    if e.BeginRegister? {
      NewStart(rs, e.r);
      AddedCovers(rs, held, e.r, addr);
    } else {
      assert rs[e.i] == s.table[e.i];
      DroppedCovers(rs, held, e.i, addr);
    }
  }

  lemma AddedCovers(rs: seq<Region>, held: Ledger, r: Region, addr: nat)
    requires Lists(rs, held) && !HasStart(rs, r.start)
    ensures CoveredBy(held[r.start := r.end], addr) <==> CoveredBy(held, addr) || r.start <= addr < r.end
  {
    var held' := held[r.start := r.end];
    assert r.start !in held;
    if CoveredBy(held, addr) {
      var a :| a in held && a <= addr < held[a];
      assert a in held' && held'[a] == held[a];
    }
    if r.start <= addr < r.end {
      assert r.start in held';
    }
  }

  lemma DroppedCovers(rs: seq<Region>, held: Ledger, i: nat, addr: nat)
    requires Lists(rs, held) && Sorted(rs) && i < |rs|
    ensures CoveredBy(held - {rs[i].start}, addr) <==> CoveredBy(held, addr) && !Covers(rs[i], addr)
  {
    RemoveLists(rs, held, i);
    ListsMembers(rs, held, addr);
    ListsMembers(RemovedAt(rs, i), held - {rs[i].start}, addr);
    RemoveMembers(rs, i, addr);
  }

  // ---------------------------------------------------------------------
  // Wait-freedom
  // ---------------------------------------------------------------------

  function Bits(n: nat): nat {
    if n == 0 then 0 else 1 + Bits(n / 2)
  }

  lemma {:induction false} BitsMono(m: nat, n: nat)
    requires m <= n
    ensures Bits(m) <= Bits(n)
  {
    if m > 0 {
      BitsMono(m / 2, n / 2);
    }
  }

  lemma BitsOfCapacity(n: nat)
    requires n <= CAPACITY
    ensures Bits(n) <= 13
  {
    BitsMono(n, CAPACITY);
    assert Bits(8) == 4;
    assert Bits(64) == 7;
    assert Bits(512) == 10;
  }

  /** An upper bound on the loads a reader still makes. */
  function LoadsLeft(l: Reader): nat {
    match l
    case Resting => 0
    case Answered(_, _) => 0
    case Peeking(_) => 73
    case Starting(_, tries) => if tries < TRIES then 18 * (4 - tries) else 0
    case Sizing(_, tries, _) => if tries < TRIES then 18 * (3 - tries) + 17 else 0
    case Probing(_, tries, _, _, low, high) =>
      if tries < TRIES && low <= high then 18 * (3 - tries) + 3 + Bits(high - low) else 0
    case FirstCheck(_, tries, _, _) => if tries < TRIES then 18 * (3 - tries) + 3 else 0
    case LastCheck(_, tries, _, _) => if tries < TRIES then 18 * (3 - tries) + 2 else 0
    case Closing(_, tries, _, _) => if tries < TRIES then 18 * (3 - tries) + 1 else 0
  }

  lemma ProbeProgress(addr: nat, tries: nat, seen: nat, count: nat, low: nat, high: nat, n: nat)
    requires tries < TRIES && low <= high && high - low <= n
    ensures LoadsLeft(AfterProbe(addr, tries, seen, count, low, high)) <= 18 * (3 - tries) + 3 + Bits(n)
  {
    if low < high {
      BitsMono(high - low, n);
    }
  }

  lemma SearchProgress(s: State, l: Reader, c: Cache)
    requires l.Probing? && l.low < l.high && l.tries < TRIES
    ensures LoadsLeft(AfterLoad(s, l, c)) < LoadsLeft(l)
  {
    hide AfterProbe, Mid;
    var d, mid := (l.high - l.low) / 2, Mid(l.low, l.high);
    MidBetween(l.low, l.high);
    assert Bits(l.high - l.low) == 1 + Bits(d);
    hide Bits;
    ProbeProgress(l.addr, l.tries, l.seen, l.count, mid + 1, l.high, d);
    ProbeProgress(l.addr, l.tries, l.seen, l.count, l.low, mid, d);
  }

  lemma ReaderProgress(s: State, l: Reader, c: Cache)
    requires s.count <= CAPACITY && Busy(l)
    requires !l.Peeking? ==> l.tries < TRIES
    requires l.Probing? ==> l.low < l.high
    ensures LoadsLeft(AfterLoad(s, l, c)) < LoadsLeft(l)
  {
    hide AfterProbe, Mid, Bits;
    if l.Probing? {
      SearchProgress(s, l, c);
    } else if l.Sizing? {
      BitsOfCapacity(s.count);
      ProbeProgress(l.addr, l.tries, l.seen, s.count, 0, s.count, s.count);
    }
  }

  /** Whatever the writers do, each load of a query brings it closer to its answer. */
  lemma LoadProgress(s: State, t: nat)
    requires Inv(s) && Enabled(s, Load(t))
    ensures LoadsLeft(Next(s, Load(t)).readers[t]) < LoadsLeft(s.readers[t])
  {
    assert ReaderOk(Contents(s), s.version, s.readers[t]);
    hide AfterLoad, LoadsLeft;
    ReaderProgress(s, s.readers[t], s.caches[t]);
  }

  function LoadsBy(es: seq<Event>, t: nat): nat {
    if es == [] then 0 else (if es[0] == Load(t) then 1 else 0) + LoadsBy(es[1..], t)
  }

  ghost predicate StillAsking(s: State, es: seq<Event>, t: nat)
    decreases |es|
  {
    t < |s.readers| && Busy(s.readers[t]) &&
    (es == [] || (Enabled(s, es[0]) && StillAsking(Next(s, es[0]), es[1..], t)))
  }

  lemma {:induction false} LoadsBounded(s: State, es: seq<Event>, t: nat)
    requires Inv(s) && Run(s, es) && StillAsking(s, es, t)
    ensures LoadsBy(es, t) < LoadsLeft(s.readers[t])
    decreases |es|
  {
    assert ReaderOk(Contents(s), s.version, s.readers[t]);
    if es != [] {
      StepKeeps(s, es[0]);
      LoadsBounded(Next(s, es[0]), es[1..], t);
      if es[0] == Load(t) {
        LoadProgress(s, t);
      }
    }
  }

  /** A query is answered within 73 loads, however many writers overtake it. */
  lemma QueryIsWaitFree(s: State, addr: nat, t: nat, es: seq<Event>)
    requires Inv(s) && Enabled(s, Ask(t, addr)) && Run(Next(s, Ask(t, addr)), es)
    requires StillAsking(Next(s, Ask(t, addr)), es, t)
    ensures LoadsBy(es, t) < 73
  {
    var s' := Next(s, Ask(t, addr));
    StepKeeps(s, Ask(t, addr));
    LoadsBounded(s', es, t);
    assert LoadsLeft(s'.readers[t]) <= 73;
  }

  // ---------------------------------------------------------------------
  // Only writers make a query inconclusive
  // ---------------------------------------------------------------------

  /** The query of `t` holds the current version and has not given up. */
  ghost predicate OnCourse(s: State, t: nat) {
    && t < |s.readers| && s.version % 2 == 0
    && match s.readers[t]
       case Sizing(_, _, seen) => seen == s.version
       case Probing(_, _, seen, _, _, _) => seen == s.version
       case FirstCheck(_, _, seen, _) => seen == s.version
       case LastCheck(_, _, seen, _) => seen == s.version
       case Closing(_, _, seen, _) => seen == s.version
       case Answered(_, answer) => !answer.Unknown?
       case _ => true
  }

  ghost function Outcome(s: State, es: seq<Event>): State
    decreases |es|
  {
    if es == [] || !Enabled(s, es[0]) then s else Outcome(Next(s, es[0]), es[1..])
  }

  lemma {:induction false} UndisturbedIsConclusive(s: State, es: seq<Event>, t: nat)
    requires Run(s, es) && OnCourse(s, t)
    requires forall k :: 0 <= k < |es| ==> !IsWrite(es[k]) || es[k].StampNode?
    ensures OnCourse(Outcome(s, es), t)
    decreases |es|
  {
    if es != [] {
      assert OnCourse(Next(s, es[0]), t);
      assert forall k :: 0 <= k < |es[1..]| ==> es[1..][k] == es[k + 1];
      UndisturbedIsConclusive(Next(s, es[0]), es[1..], t);
    }
  }

  // ---------------------------------------------------------------------
  // Writers finish
  // ---------------------------------------------------------------------

  /** Stores that put the first `n` entries of a table in place. */
  function Fill(target: seq<Region>, n: nat): seq<Event>
    requires n <= |target|
  {
    if n == 0 then [] else Fill(target, n - 1) + [StoreEntry(n - 1, target[n - 1])]
  }

  lemma {:induction false} RunThen(s: State, es: seq<Event>, e: Event)
    requires Run(s, es) && Enabled(Outcome(s, es), e)
    ensures Run(s, es + [e]) && Outcome(s, es + [e]) == Next(Outcome(s, es), e)
    decreases |es|
  {
    hide Enabled, Next;
    if es == [] {
      assert [e][1..] == [] && Outcome(Next(s, e), []) == Next(s, e);
    } else {
      assert (es + [e])[1..] == es[1..] + [e];
      RunThen(Next(s, es[0]), es[1..], e);
    }
  }

  lemma {:induction false} Filled(s: State, n: nat)
    requires s.writer.Writing? && n <= |s.writer.target| <= |s.table|
    ensures Run(s, Fill(s.writer.target, n))
    ensures var s' := Outcome(s, Fill(s.writer.target, n));
            s'.writer == s.writer && |s'.table| == |s.table| && s'.table[..n] == s.writer.target[..n]
  {
    if n > 0 {
      Filled(s, n - 1);
      RunThen(s, Fill(s.writer.target, n - 1), StoreEntry(n - 1, s.writer.target[n - 1]));
    }
  }

  /** Whatever a writer has stored so far, more stores let it finish. */
  lemma WriterCanFinish(s: State) returns (es: seq<Event>)
    requires Inv(s) && s.writer.Writing?
    ensures Run(s, es) && Enabled(Outcome(s, es), EndWrite)
  {
    var target := s.writer.target;
    Filled(s, |target|);
    RunThen(s, Fill(target, |target|), StoreCount);
    es := Fill(target, |target|) + [StoreCount];
  }

  // ---------------------------------------------------------------------
  // How a query ends
  // ---------------------------------------------------------------------

  /** An attempt of `t` fails in this step: it finds a writer at work, or finds at its end that one has been. */
  ghost predicate Fails(s: State, e: Event, t: nat)
    requires Enabled(s, e)
  {
    && e == Load(t)
    && match s.readers[t]
       case Starting(_, _) => s.version % 2 != 0
       case Closing(_, _, seen, _) => s.version != seen
       case _ => false
  }

  ghost function Failures(s: State, es: seq<Event>, t: nat): nat
    decreases |es|
  {
    if es == [] || !Enabled(s, es[0]) then 0
    else (if Fails(s, es[0], t) then 1 else 0) + Failures(Next(s, es[0]), es[1..], t)
  }

  /** Failed attempts of the query a reader is in. */
  function TriesOf(l: Reader): nat {
    match l
    case Resting => 0
    case Peeking(_) => 0
    case Answered(_, _) => 0
    case Starting(_, tries) => tries
    case Sizing(_, tries, _) => tries
    case Probing(_, tries, _, _, _, _) => tries
    case FirstCheck(_, tries, _, _) => tries
    case LastCheck(_, tries, _, _) => tries
    case Closing(_, tries, _, _) => tries
  }

  lemma StepTries(s: State, e: Event, t: nat)
    requires Inv(s) && Enabled(s, e) && t < |s.readers| && Busy(s.readers[t])
    ensures t < |Next(s, e).readers|
    ensures var l, l' := s.readers[t], Next(s, e).readers[t];
            var n := TriesOf(l) + if Fails(s, e, t) then 1 else 0;
            if Busy(l') then TriesOf(l') == n && n < TRIES
            else l'.Answered? && (l'.answer.Unknown? ==> n == TRIES)
  {
    assert ReaderOk(Contents(s), s.version, s.readers[t]);
  }

  /** The query of `t` is under way until the last event, which answers it. */
  ghost predicate AnswersAtEnd(s: State, es: seq<Event>, t: nat)
    decreases |es|
  {
    && es != [] && Enabled(s, es[0]) && t < |s.readers| && Busy(s.readers[t])
    && var s' := Next(s, es[0]);
       if |es| == 1 then t < |s'.readers| && s'.readers[t].Answered? else AnswersAtEnd(s', es[1..], t)
  }

  lemma {:induction false} FailuresCounted(s: State, es: seq<Event>, t: nat)
    requires Inv(s) && AnswersAtEnd(s, es, t)
    ensures t < |Outcome(s, es).readers| && Outcome(s, es).readers[t].Answered?
    ensures Outcome(s, es).readers[t].answer.Unknown? ==> TriesOf(s.readers[t]) + Failures(s, es, t) == TRIES
    decreases |es|
  {
    var e, s' := es[0], Next(s, es[0]);
    StepTries(s, e, t);
    StepKeeps(s, e);
    hide Inv, Enabled, Next, Fails, TriesOf;
    if |es| == 1 {
      assert es[1..] == [];
      assert Failures(s', [], t) == 0 && Outcome(s', []) == s';
    } else {
      FailuresCounted(s', es[1..], t);
    }
  }

  /** A query that gives up has met a writer in each of its four attempts. */
  lemma GivesUpAfterFour(s: State, addr: nat, t: nat, es: seq<Event>)
    requires Inv(s) && Enabled(s, Ask(t, addr)) && AnswersAtEnd(Next(s, Ask(t, addr)), es, t)
    requires var s' := Outcome(Next(s, Ask(t, addr)), es);
             t < |s'.readers| && s'.readers[t].Answered? && s'.readers[t].answer.Unknown?
    ensures Failures(Next(s, Ask(t, addr)), es, t) == 4
  {
    StepKeeps(s, Ask(t, addr));
    FailuresCounted(Next(s, Ask(t, addr)), es, t);
  }

  /**
   Once a search has answered, the next query for any address of that page
   is answered, and the same way, by a single load, unless a writer came in
   between.
   */
  lemma SamePageIsOneLoad(s: State, t: nat, addr: nat)
    requires Inv(s) && Enabled(s, Load(t)) && s.readers[t].Closing? && s.version == s.readers[t].seen
    requires addr > 0 && PageOf(addr) == PageOf(s.readers[t].addr)
    ensures var s1 := Next(s, Load(t));
            var s2 := Next(s1, Rest(t));
            var s3 := Next(s2, Ask(t, addr));
            Enabled(s3, Load(t)) && Next(s3, Load(t)).readers[t] == Answered(addr, Verdict(s.readers[t].owned))
  {
    assert ReaderOk(Contents(s), s.version, s.readers[t]);
  }
}
