/**
 Tiny slab pages: a bitmap of 128 words of 64 bits with one bit per slot,
 and a hint naming the word where a scan may begin. Words are modelled as the
 sets of their one bits.
 */
module TinySlab {
  import opened Basics
  import opened SizeClass
  import opened Slab

  const WORDS: nat := 128
  const WORD_BITS: nat := 64

  type Bitmap = seq<set<nat>>

  const FULL_WORD: set<nat> := set b: nat | 0 <= b < WORD_BITS

  predicate Bit(bm: Bitmap, s: nat)
    requires |bm| == WORDS && s < BITMAP_BITS
  {
    s % WORD_BITS in bm[s / WORD_BITS]
  }

  /** The clear bits from `s` up to `n`, in ascending order. */
  ghost function FreeFrom(bm: Bitmap, s: nat, n: nat): seq<nat>
    requires |bm| == WORDS && n <= BITMAP_BITS
    decreases n - s
  {
    if s >= n then [] else if Bit(bm, s) then FreeFrom(bm, s + 1, n) else [s] + FreeFrom(bm, s + 1, n)
  }

  lemma {:induction false} FreeFromIs(bm: Bitmap, s: nat, n: nat)
    requires |bm| == WORDS && n <= BITMAP_BITS
    ensures Ascending(FreeFrom(bm, s, n))
    ensures forall y :: y in FreeFrom(bm, s, n) <==> s <= y < n && !Bit(bm, y)
    decreases n - s
  {
    hide Bit;
    if s < n {
      FreeFromIs(bm, s + 1, n);
      var rest := FreeFrom(bm, s + 1, n);
      forall k | 0 <= k < |rest|
        ensures s < rest[k]
      {
        assert rest[k] in rest;
      }
    }
  }

  lemma {:induction false} SkipUsed(bm: Bitmap, s: nat, t: nat, n: nat)
    requires |bm| == WORDS && n <= BITMAP_BITS && s <= t <= n
    requires forall y :: s <= y < t ==> Bit(bm, y)
    ensures FreeFrom(bm, s, n) == FreeFrom(bm, t, n)
    decreases t - s
  {
    hide Bit;
    if s < t {
      SkipUsed(bm, s + 1, t, n);
    }
  }

  lemma {:induction false} FreeFromFrame(bm: Bitmap, bm': Bitmap, s: nat, n: nat)
    requires |bm| == |bm'| == WORDS && n <= BITMAP_BITS
    requires forall y :: s <= y < n ==> (Bit(bm, y) <==> Bit(bm', y))
    ensures FreeFrom(bm, s, n) == FreeFrom(bm', s, n)
    decreases n - s
  {
    if s < n {
      FreeFromFrame(bm, bm', s + 1, n);
    }
  }

  lemma InsertFirst(xs: seq<nat>, x: nat)
    requires forall y :: y in xs ==> x < y
    ensures Insert(xs, x) == [x] + xs
  {
    assert xs != [] ==> xs[0] in xs;
  }

  lemma InsertLater(s: nat, xs: seq<nat>, x: nat)
    requires s < x
    ensures Insert([s] + xs, x) == [s] + Insert(xs, x)
  {}

  /** Clearing one bit puts its slot back in its place among the free ones. */
  lemma {:induction false} ClearInserts(bm: Bitmap, bm': Bitmap, s: nat, n: nat, x: nat)
    requires |bm| == |bm'| == WORDS && n <= BITMAP_BITS && s <= x < n
    requires Bit(bm, x) && !Bit(bm', x)
    requires forall y :: 0 <= y < n && y != x ==> (Bit(bm, y) <==> Bit(bm', y))
    ensures FreeFrom(bm', s, n) == Insert(FreeFrom(bm, s, n), x)
    decreases n - s
  {
    hide Insert;
    if s == x {
      FreeFromFrame(bm, bm', s + 1, n);
      FreeFromIs(bm, s + 1, n);
      InsertFirst(FreeFrom(bm, s + 1, n), x);
    } else {
      ClearInserts(bm, bm', s + 1, n, x);
      InsertLater(s, FreeFrom(bm, s + 1, n), x);
    }
  }

  function SetBit(bm: Bitmap, s: nat): Bitmap
    requires |bm| == WORDS && s < BITMAP_BITS
  {
    bm[s / WORD_BITS := bm[s / WORD_BITS] + {s % WORD_BITS}]
  }

  function ClearBit(bm: Bitmap, s: nat): Bitmap
    requires |bm| == WORDS && s < BITMAP_BITS
  {
    bm[s / WORD_BITS := bm[s / WORD_BITS] - {s % WORD_BITS}]
  }

  lemma SetBitIs(bm: Bitmap, s: nat, y: nat)
    requires |bm| == WORDS && s < BITMAP_BITS && y < BITMAP_BITS
    ensures Bit(SetBit(bm, s), y) <==> Bit(bm, y) || y == s
    ensures Bit(ClearBit(bm, s), y) <==> Bit(bm, y) && y != s
  {}

  /** Setting the lowest clear bit takes the first free slot. */
  lemma Claimed(bm: Bitmap, slot: nat, n: nat)
    requires |bm| == WORDS && slot < n <= BITMAP_BITS && !Bit(bm, slot)
    requires forall s :: 0 <= s < slot ==> Bit(bm, s)
    ensures FreeFrom(bm, 0, n) == [slot] + FreeFrom(SetBit(bm, slot), 0, n)
    ensures forall s :: 0 <= s < BITMAP_BITS ==> (Bit(SetBit(bm, slot), s) <==> Bit(bm, s) || s == slot)
  {
    var bm' := SetBit(bm, slot);
    forall s | 0 <= s < BITMAP_BITS
      ensures Bit(bm', s) <==> Bit(bm, s) || s == slot
    {
      SetBitIs(bm, slot, s);
    }
    hide Bit, SetBit;
    SkipUsed(bm, 0, slot, n);
    SkipUsed(bm', 0, slot + 1, n);
    FreeFromFrame(bm, bm', slot + 1, n);
  }

  lemma Cleared(bm: Bitmap, slot: nat, n: nat)
    requires |bm| == WORDS && slot < n <= BITMAP_BITS && Bit(bm, slot)
    ensures FreeFrom(ClearBit(bm, slot), 0, n) == Insert(FreeFrom(bm, 0, n), slot)
    ensures |FreeFrom(ClearBit(bm, slot), 0, n)| == |FreeFrom(bm, 0, n)| + 1 && |FreeFrom(bm, 0, n)| < n
    ensures forall s :: 0 <= s < BITMAP_BITS ==> (Bit(ClearBit(bm, slot), s) <==> Bit(bm, s) && s != slot)
  {
    var bm' := ClearBit(bm, slot);
    forall s | 0 <= s < BITMAP_BITS
      ensures Bit(bm', s) <==> Bit(bm, s) && s != slot
    {
      SetBitIs(bm, slot, s);
    }
    hide Bit, ClearBit;
    ClearInserts(bm, bm', 0, n, slot);
    InsertMembers(FreeFrom(bm, 0, n), slot);
    UsedSome(bm, slot, n);
  }

  lemma FullWord(bm: Bitmap, word: nat)
    requires |bm| == WORDS && word < WORDS
    requires forall s :: word * WORD_BITS <= s < word * WORD_BITS + WORD_BITS ==> Bit(bm, s)
    ensures FULL_WORD <= bm[word]
  {
    forall b | 0 <= b < WORD_BITS
      ensures b in bm[word]
    {
      assert Bit(bm, word * WORD_BITS + b);
    }
  }

  class TinySlab {
    const base: nat
    const cls: nat
    const objectSize: nat
    const capacity: nat
    var used: nat
    var hint: nat
    var bitmap: Bitmap

    ghost predicate Shape()
      reads this
    {
      && cls < SMALL_FIRST && objectSize == SizeOf(cls) && capacity == TinyCapacity(objectSize)
      && capacity <= BITMAP_BITS && |bitmap| == WORDS && hint < WORDS
      && (forall s :: capacity <= s < BITMAP_BITS ==> Bit(bitmap, s))
    }

    /** Every word below the hint is full, and the count is the number of slots handed out. */
    ghost predicate Valid()
      reads this
    {
      && Shape()
      && (forall s :: 0 <= s < hint * WORD_BITS ==> Bit(bitmap, s))
      && used + |Free()| == capacity
    }

    ghost function Free(): seq<nat>
      reads this
      requires capacity <= BITMAP_BITS && |bitmap| == WORDS
    {
      FreeFrom(bitmap, 0, capacity)
    }

    /** The page as a queue of free slots. */
    ghost function View(): Page
      reads this
      requires capacity <= BITMAP_BITS && |bitmap| == WORDS
    {
      Page(cls, capacity, Free())
    }

    constructor (base: nat, cls: nat)
      requires cls < SMALL_FIRST
      ensures Valid() && View() == Fresh(cls) && this.base == base && this.cls == cls
    {
      var size := SizeOf(cls);
      var n := TinyCapacity(size);
      this.base, this.cls, objectSize, capacity := base, cls, size, n;
      used, hint := 0, 0;
      var bm: Bitmap := seq(WORDS, _ => {});
      var s := n;
      assert n <= BITMAP_BITS;
      while s < BITMAP_BITS
        invariant n <= s <= BITMAP_BITS && |bm| == WORDS
        invariant forall y :: 0 <= y < BITMAP_BITS ==> (Bit(bm, y) <==> n <= y < s)
      {
        forall y | 0 <= y < BITMAP_BITS
          ensures Bit(SetBit(bm, s), y) <==> Bit(bm, y) || y == s
        {
          SetBitIs(bm, s, y);
        }
        bm := SetBit(bm, s);
        s := s + 1;
      }
      bitmap := bm;
      AllFree(bm, 0, n);
    }

    /** `obj` was handed out by this page; true when that was the last slot in use. */
    method Release(obj: nat, ghost issued: nat) returns (empty: bool)
      requires Valid() && issued < capacity && Bit(bitmap, issued) && obj == Address(issued)
      modifies this
      ensures Valid()
      ensures View() == Put(old(View()), issued)
      ensures hint == if issued / WORD_BITS < old(hint) then issued / WORD_BITS else old(hint)
      ensures empty <==> used == 0
    {
      hide SizeOf, TinyCapacity, Insert;
      SlabSizes(cls);
      var offset := obj - base - HEADER;
      var slot := offset / objectSize;
      SlotRecovered(objectSize, issued, 0);
      var word, bit := slot / WORD_BITS, slot % WORD_BITS;
      ghost var bm := bitmap;
      bitmap := bitmap[word := bitmap[word] - {bit}];
      assert bitmap == ClearBit(bm, slot);
      Cleared(bm, slot, capacity);
      if word < hint {
        hint := word;
      }
      var previous := used;
      used := used - 1;
      empty := previous == 1;
    }

    function Address(slot: nat): nat {
      base + HEADER + slot * objectSize
    }

    /** Marks slot `word * 64 + bit`, the lowest free one, and hands it out. */
    method ClaimSlot(word: nat, bit: nat) returns (obj: nat)
      requires Valid() && word < WORDS && bit < WORD_BITS && bit !in bitmap[word]
      requires forall s :: 0 <= s < word * WORD_BITS + bit ==> Bit(bitmap, s)
      modifies this
      ensures Valid() && old(Free()) != [] && word * WORD_BITS + bit == old(Free())[0]
      ensures View() == Take(old(View())) && obj == Address(old(Free())[0]) && hint == word
    {
      var slot := word * WORD_BITS + bit;
      ghost var bm := bitmap;
      bitmap := bitmap[word := bitmap[word] + {bit}];
      assert bitmap == SetBit(bm, slot);
      assert !Bit(bm, slot);
      Claimed(bm, slot, capacity);
      hint := word;
      used := used + 1;
      obj := Address(slot);
    }

    /** Exact first fit: NULL only when full, otherwise the lowest free slot. */
    method Alloc() returns (obj: Option<nat>)
      requires Valid()
      modifies this
      ensures Valid()
      ensures obj.None? <==> old(Free()) == []
      ensures obj.None? ==> View() == old(View()) && hint == old(hint)
      ensures obj.Some? ==> View() == Take(old(View())) && obj == Some(Address(old(Free())[0]))
      ensures obj.Some? ==> hint == old(Free())[0] / WORD_BITS
    {
      var start := hint;
      var word := start;
      while word < WORDS
        invariant start <= word <= WORDS
        invariant bitmap == old(bitmap) && hint == start && used == old(used)
        invariant forall s :: 0 <= s < word * WORD_BITS ==> Bit(bitmap, s)
      {
        var value := bitmap[word];
        if !(FULL_WORD <= value) {
          LowestClearIs(value, 0, WORD_BITS);
          var bit := LowestClear(value, 0, WORD_BITS);
          var p := ClaimSlot(word, bit);
          return Some(p);
        }
        word := word + 1;
      }
      SkipUsed(bitmap, 0, capacity, capacity);
      word := 0;
      while word < start
        modifies {}
      {
        FullWord(bitmap, word);
        if !(FULL_WORD <= bitmap[word]) {
          assert false;
        }
        word := word + 1;
      }
      return None;
    }
  }

  /** A page with a slot in use has fewer free slots than slots. */
  lemma UsedSome(bm: Bitmap, slot: nat, n: nat)
    requires |bm| == WORDS && slot < n <= BITMAP_BITS && Bit(bm, slot)
    ensures |FreeFrom(bm, 0, n)| < n
  {
    FreeCount(bm, slot + 1, n);
    FreeSplit(bm, 0, slot, n);
    FreeCount(bm, 0, slot);
  }

  lemma {:induction false} FreeCount(bm: Bitmap, s: nat, n: nat)
    requires |bm| == WORDS && s <= n <= BITMAP_BITS
    ensures |FreeFrom(bm, s, n)| <= n - s
    decreases n - s
  {
    hide Bit;
    if s < n {
      FreeCount(bm, s + 1, n);
    }
  }

  lemma {:induction false} FreeSplit(bm: Bitmap, s: nat, m: nat, n: nat)
    requires |bm| == WORDS && s <= m <= n <= BITMAP_BITS
    ensures FreeFrom(bm, s, n) == FreeFrom(bm, s, m) + FreeFrom(bm, m, n)
    decreases m - s
  {
    hide Bit;
    if s < m {
      FreeSplit(bm, s + 1, m, n);
    }
  }

  lemma {:induction false} AllFree(bm: Bitmap, s: nat, n: nat)
    requires |bm| == WORDS && s <= n <= BITMAP_BITS && (forall y :: s <= y < n ==> !Bit(bm, y))
    ensures FreeFrom(bm, s, n) == seq(n - s, i requires 0 <= i => s + i)
    decreases n - s
  {
    hide Bit;
    if s < n {
      AllFree(bm, s + 1, n);
    }
  }
}
