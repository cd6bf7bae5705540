/**
 CRC-32 as section 8 of RFC 1952 defines it, one bit at a time. Registers are
 32 bits, least significant first, so that a right shift drops the first bit.
 */
module Crc {
  import opened Basics
  import opened Bits
  import opened Gf2
  import opened Wire

  const WIDTH: nat := 32
  const POLYNOMIAL: nat := 0xEDB8_8320

  // ---------------------------------------------------------------------
  // Numbers and bits
  // ---------------------------------------------------------------------

  function BitsOf(n: nat, k: nat): (r: seq<bool>)
    ensures |r| == k
  {
    if k == 0 then [] else [n % 2 == 1] + BitsOf(n / 2, k - 1)
  }

  function NumberOf(bits: seq<bool>): nat {
    if bits == [] then 0 else (if bits[0] then 1 else 0) + 2 * NumberOf(bits[1..])
  }

  lemma {:induction false} NumberBits(bits: seq<bool>)
    ensures NumberOf(bits) < Pow2(|bits|) && BitsOf(NumberOf(bits), |bits|) == bits
    decreases |bits|
  {
    if bits != [] {
      NumberBits(bits[1..]);
      var n := NumberOf(bits[1..]);
      assert NumberOf(bits) / 2 == n;
    }
  }

  lemma ByteBits(bits: seq<bool>)
    requires |bits| == 8
    ensures NumberOf(bits) < 256 && BitsOf(NumberOf(bits), 8) == bits
  {
    NumberBits(bits);
    assert Pow2(4) == 16;
  }

  function Zeros(k: nat): seq<bool> {
    seq(k, _ => false)
  }

  function Ones(): seq<bool> {
    seq(WIDTH, _ => true)
  }

  function Xor(a: seq<bool>, b: seq<bool>): (r: seq<bool>)
    requires |a| == |b|
    ensures |r| == |a|
  {
    seq(|a|, i requires 0 <= i < |a| => a[i] != b[i])
  }

  function Not(a: seq<bool>): (r: seq<bool>)
    ensures |r| == |a|
  {
    seq(|a|, i requires 0 <= i < |a| => !a[i])
  }

  // ---------------------------------------------------------------------
  // The register
  // ---------------------------------------------------------------------

  function Shift(r: seq<bool>): (r': seq<bool>)
    requires |r| == WIDTH
    ensures |r'| == WIDTH
  {
    var s := r[1..] + [false];
    if r[0] then Xor(s, BitsOf(POLYNOMIAL, WIDTH)) else s
  }

  function Shifts(r: seq<bool>, k: nat): (r': seq<bool>)
    requires |r| == WIDTH
    ensures |r'| == WIDTH
    decreases k
  {
    if k == 0 then r else Shifts(Shift(r), k - 1)
  }

  function FeedBits(r: seq<bool>, bits: seq<bool>): (r': seq<bool>)
    requires |r| == WIDTH && |bits| == 8
    ensures |r'| == WIDTH
  {
    Shifts(Xor(r, bits + Zeros(24)), 8)
  }

  function Feed(r: seq<bool>, data: seq<byte>): (r': seq<bool>)
    requires |r| == WIDTH
    ensures |r'| == WIDTH
    decreases |data|
  {
    if data == [] then r else Feed(FeedBits(r, BitsOf(data[0], 8)), data[1..])
  }

  function Checksum(data: seq<byte>): (r: seq<bool>)
    ensures |r| == WIDTH
  {
    Not(Feed(Ones(), data))
  }

  function ByteOf(bits: seq<bool>): (b: byte)
    requires |bits| == 8
    ensures BitsOf(b, 8) == bits
  {
    ByteBits(bits);
    NumberOf(bits)
  }

  /** Four bytes, least significant first. */
  function ToBytes(word: seq<bool>): (bs: seq<byte>)
    requires |word| == WIDTH
    ensures |bs| == 4
  {
    [ByteOf(word[..8]), ByteOf(word[8..16]), ByteOf(word[16..24]), ByteOf(word[24..])]
  }

  // ---------------------------------------------------------------------
  // Linearity
  // ---------------------------------------------------------------------

  lemma ShiftXor(z: seq<bool>, y: seq<bool>)
    requires |z| == |y| == WIDTH && !y[0]
    ensures Shift(Xor(z, y)) == Xor(Shift(z), y[1..] + [false])
  {}

  lemma {:induction false} ShiftsXor(z: seq<bool>, y: seq<bool>, k: nat)
    requires |z| == |y| == WIDTH && k <= WIDTH && forall i :: 0 <= i < k ==> !y[i]
    ensures Shifts(Xor(z, y), k) == Xor(Shifts(z, k), y[k..] + Zeros(k))
    decreases k
  {
    if k == 0 {
      assert y[0..] + Zeros(0) == y;
    } else {
      ShiftXor(z, y);
      var y' := y[1..] + [false];
      ShiftsXor(Shift(z), y', k - 1);
      assert y'[k - 1..] + Zeros(k - 1) == y[k..] + Zeros(k);
    }
  }

  /** What is left of a word once its first byte has been used. */
  function Rest(w: seq<bool>): (w': seq<bool>)
    requires |w| == WIDTH
    ensures |w'| == WIDTH
  {
    w[8..] + Zeros(8)
  }

  lemma Rests(w: seq<bool>)
    requires |w| == WIDTH
    ensures Rest(w)[..8] == w[8..16] && Rest(Rest(w))[..8] == w[16..24] && Rest(Rest(Rest(w)))[..8] == w[24..]
    ensures Rest(Rest(Rest(Rest(w)))) == Zeros(WIDTH)
  {}

  lemma XorZeros(r: seq<bool>)
    requires |r| == WIDTH
    ensures Xor(r, Zeros(WIDTH)) == r
  {}

  /** Feeding the first byte of a word commutes with having the whole word mixed in at once. */
  lemma WordStep(r: seq<bool>, w: seq<bool>)
    requires |r| == |w| == WIDTH
    ensures Shifts(Xor(r, w), 8) == Xor(FeedBits(r, w[..8]), Rest(w))
  {
    var z, y := Xor(r, w[..8] + Zeros(24)), Zeros(8) + w[8..];
    assert Xor(r, w) == Xor(z, y);
    ShiftsXor(z, y, 8);
    assert y[8..] == w[8..];
  }

  lemma {:induction false} ShiftsAdd(r: seq<bool>, j: nat, k: nat)
    requires |r| == WIDTH
    ensures Shifts(r, j + k) == Shifts(Shifts(r, j), k)
    decreases j
  {
    if j > 0 {
      ShiftsAdd(Shift(r), j - 1, k);
    }
  }

  /** Feeding the four bytes of a word is mixing the word in and shifting 32 times. */
  lemma FeedWord(r: seq<bool>, w: seq<bool>)
    requires |r| == |w| == WIDTH
    ensures Feed(r, ToBytes(w)) == Shifts(Xor(r, w), 32)
  {
    hide Shifts, FeedBits, Feed, Rest, Xor, Zeros, ToBytes;
    Rests(w);
    var w1, w2, w3 := Rest(w), Rest(Rest(w)), Rest(Rest(Rest(w)));
    var r1 := FeedBits(r, w[..8]);
    var r2 := FeedBits(r1, w1[..8]);
    var r3 := FeedBits(r2, w2[..8]);
    var r4 := FeedBits(r3, w3[..8]);
    WordStep(r, w);
    WordStep(r1, w1);
    WordStep(r2, w2);
    WordStep(r3, w3);
    FeedFour(r, w);
    FourSteps(Xor(r, w), Xor(r1, w1), Xor(r2, w2), Xor(r3, w3), r4);
  }

  lemma FourSteps(x0: seq<bool>, x1: seq<bool>, x2: seq<bool>, x3: seq<bool>, r4: seq<bool>)
    requires |x0| == |x1| == |x2| == |x3| == |r4| == WIDTH
    requires Shifts(x0, 8) == x1 && Shifts(x1, 8) == x2 && Shifts(x2, 8) == x3
    requires Shifts(x3, 8) == Xor(r4, Zeros(WIDTH))
    ensures Shifts(x0, 32) == r4
  {
    hide Shifts, FeedBits, Feed, Rest, Xor, Zeros, ToBytes;
    XorZeros(r4);
    ShiftsAdd(x0, 8, 24);
    ShiftsAdd(x1, 8, 16);
    ShiftsAdd(x2, 8, 8);
  }

  lemma FeedFour(r: seq<bool>, w: seq<bool>)
    requires |r| == |w| == WIDTH
    ensures Feed(r, ToBytes(w)) ==
            FeedBits(FeedBits(FeedBits(FeedBits(r, w[..8]), w[8..16]), w[16..24]), w[24..])
  {
    hide FeedBits, ByteOf, BitsOf;
    var bs := ToBytes(w);
    var none: seq<byte> := [];
    var r1 := FeedBits(r, w[..8]);
    var r2 := FeedBits(r1, w[8..16]);
    var r3 := FeedBits(r2, w[16..24]);
    var r4 := FeedBits(r3, w[24..]);
    assert bs[1..][1..] == bs[2..] && bs[2..][1..] == bs[3..] && bs[3..][1..] == none;
    assert Feed(r4, none) == r4;
    assert Feed(r3, bs[3..]) == r4;
    assert Feed(r2, bs[2..]) == r4;
    assert Feed(r1, bs[1..]) == r4;
  }

  lemma {:induction false} FeedConcat(r: seq<bool>, xs: seq<byte>, ys: seq<byte>)
    requires |r| == WIDTH
    ensures Feed(r, xs + ys) == Feed(Feed(r, xs), ys)
    decreases |xs|
  {
    if xs == [] {
      assert xs + ys == ys;
    } else {
      assert (xs + ys)[1..] == xs[1..] + ys;
      FeedConcat(FeedBits(r, BitsOf(xs[0], 8)), xs[1..], ys);
    }
  }

  lemma {:induction false} HighBit(n: nat, k: nat)
    requires k > 0 && Pow2(k - 1) <= n < Pow2(k)
    ensures BitsOf(n, k)[k - 1]
    decreases k
  {
    if k > 1 {
      HighBit(n / 2, k - 1);
    }
  }

  lemma TopBit()
    ensures BitsOf(POLYNOMIAL, WIDTH)[31]
  {
    hide BitsOf;
    assert Pow2(8) == 256 by { assert Pow2(4) == 16; }
    assert Pow2(16) == 65536 by { assert Pow2(12) == 4096; }
    assert Pow2(24) == 16777216 by { assert Pow2(20) == 1048576; }
    assert Pow2(31) == 2147483648 by { assert Pow2(28) == 268435456; }
    HighBit(POLYNOMIAL, WIDTH);
  }

  /** The bit shifted out can be read off the new top bit, so shifting loses nothing. */
  lemma ShiftInjective(a: seq<bool>, b: seq<bool>)
    requires |a| == |b| == WIDTH && Shift(a) == Shift(b)
    ensures a == b
  {
    TopBit();
    var p := BitsOf(POLYNOMIAL, WIDTH);
    hide BitsOf;
    assert Shift(a)[31] == a[0] && Shift(b)[31] == b[0];
    forall i | 0 < i < WIDTH
      ensures a[i] == b[i]
    {
      assert Shift(a)[i - 1] == (a[i] != (a[0] && p[i - 1]));
      assert Shift(b)[i - 1] == (b[i] != (b[0] && p[i - 1]));
    }
  }

  lemma {:induction false} ShiftsInjective(a: seq<bool>, b: seq<bool>, k: nat)
    requires |a| == |b| == WIDTH && Shifts(a, k) == Shifts(b, k)
    ensures a == b
    decreases k
  {
    hide Shift;
    if k > 0 {
      ShiftsInjective(Shift(a), Shift(b), k - 1);
      ShiftInjective(a, b);
    }
  }

  /**
   Data followed by four more bytes leaves one fixed register, the same for
   all data, exactly when those bytes are the checksum of the data.
   */
  lemma Residue(data: seq<byte>, word: seq<bool>)
    requires |word| == WIDTH
    ensures Feed(Ones(), data + ToBytes(word)) == Shifts(Ones(), 32) <==> word == Checksum(data)
  {
    hide Feed, Shifts, ToBytes;
    var r := Feed(Ones(), data);
    FeedConcat(Ones(), data, ToBytes(word));
    FeedWord(r, word);
    assert Xor(r, Not(r)) == Ones();
    if Shifts(Xor(r, word), 32) == Shifts(Ones(), 32) {
      ShiftsInjective(Xor(r, word), Ones(), 32);
      forall i | 0 <= i < WIDTH
        ensures word[i] == Not(r)[i]
      {
        assert Xor(r, word)[i] == Ones()[i];
      }
    }
  }

  // ---------------------------------------------------------------------
  // The register is a remainder
  // ---------------------------------------------------------------------

  /** The generator of section 8 of RFC 1952, by its exponents. */
  const GENERATOR: Poly := {32, 26, 23, 22, 16, 12, 11, 10, 8, 7, 5, 4, 2, 1, 0}

  predicate Bit0(d: nat) { d % 2 == 1 }
  predicate Bit1(d: nat) { d / 2 % 2 == 1 }
  predicate Bit2(d: nat) { d / 4 % 2 == 1 }
  predicate Bit3(d: nat) { d / 8 % 2 == 1 }

  function Nibble(d: nat): (bits: seq<bool>)
    ensures |bits| == 4
  {
    [Bit0(d), Bit1(d), Bit2(d), Bit3(d)]
  }

  lemma BitsStep(n: nat, k: nat)
    ensures BitsOf(n, k + 1) == [n % 2 == 1] + BitsOf(n / 2, k)
  {}

  lemma BitsSplit(n: nat, m: nat, d: nat, k: nat)
    requires n == 16 * m + d && d < 16
    ensures BitsOf(n, 4 + k) == Nibble(d) + BitsOf(m, k)
  {
    hide BitsOf;
    BitsStep(n, 3 + k);
    BitsStep(8 * m + d / 2, 2 + k);
    BitsStep(4 * m + d / 4, 1 + k);
    BitsStep(2 * m + d / 8, k);
    assert n / 2 == 8 * m + d / 2 && (8 * m + d / 2) / 2 == 4 * m + d / 4 && (4 * m + d / 4) / 2 == 2 * m + d / 8;
    assert (2 * m + d / 8) / 2 == m;
  }

  lemma Nibbles()
    ensures Nibble(0) == [false, false, false, false] && Nibble(2) == [false, true, false, false]
    ensures Nibble(3) == [true, true, false, false] && Nibble(8) == [false, false, false, true]
    ensures Nibble(0xB) == [true, true, false, true] && Nibble(0xD) == [true, false, true, true]
    ensures Nibble(0xE) == [false, true, true, true]
  {}

  /** The constant of the code, bit by bit. */
  lemma PolynomialBits()
    ensures BitsOf(POLYNOMIAL, WIDTH) == [
      false, false, false, false, false, true, false, false,
      true, true, false, false, false, false, false, true,
      false, false, false, true, true, true, false, true,
      true, false, true, true, false, true, true, true]
  {
    hide BitsOf, Nibble;
    Nibbles();
    BitsSplit(0xEDB88320, 0xEDB8832, 0, 28);
    BitsSplit(0xEDB8832, 0xEDB883, 2, 24);
    BitsSplit(0xEDB883, 0xEDB88, 3, 20);
    BitsSplit(0xEDB88, 0xEDB8, 8, 16);
    BitsSplit(0xEDB8, 0xEDB, 8, 12);
    BitsSplit(0xEDB, 0xED, 11, 8);
    BitsSplit(0xED, 0xE, 13, 4);
    BitsSplit(0xE, 0, 14, 0);
    assert BitsOf(0, 0) == [];
  }

  /** Bit i of the constant is the coefficient of x to the 31 - i, and the leading term is left out. */
  lemma PolynomialIsGenerator(i: nat)
    requires i < WIDTH
    ensures BitsOf(POLYNOMIAL, WIDTH)[i] <==> 31 - i in GENERATOR
    ensures HasDegree(GENERATOR, 32)
  {
    hide BitsOf;
    PolynomialBits();
  }

  /** A register as a polynomial: its first bit is the highest coefficient. */
  function Reflected(r: seq<bool>): Poly
    requires |r| == WIDTH
  {
    set i | 0 <= i < WIDTH && r[i] :: 31 - i
  }

  lemma ReflectedAt(r: seq<bool>, e: nat)
    requires |r| == WIDTH
    ensures e in Reflected(r) <==> e < WIDTH && r[31 - e]
  {
    if e < WIDTH && r[31 - e] {
      assert 31 - (31 - e) in Reflected(r);
    }
  }

  /** Bits in the order they are fed, the first one being the highest coefficient. */
  function MessageOf(bits: seq<bool>): Poly {
    set k | 0 <= k < |bits| && bits[k] :: |bits| - 1 - k
  }

  lemma MessageAt(bits: seq<bool>, e: nat)
    ensures e in MessageOf(bits) <==> e < |bits| && bits[|bits| - 1 - e]
  {
    if e < |bits| && bits[|bits| - 1 - e] {
      assert |bits| - 1 - (|bits| - 1 - e) in MessageOf(bits);
    }
  }

  /** The bits of the bytes, each byte from its least significant bit. */
  function Stream(data: seq<byte>): (bits: seq<bool>)
    ensures |bits| == 8 * |data|
  {
    if data == [] then [] else BitsOf(data[0], 8) + Stream(data[1..])
  }

  function FeedBit(r: seq<bool>, b: bool): (r': seq<bool>)
    requires |r| == WIDTH
    ensures |r'| == WIDTH
  {
    Shift(Xor(r, [b] + Zeros(31)))
  }

  function FeedEach(r: seq<bool>, bits: seq<bool>): (r': seq<bool>)
    requires |r| == WIDTH
    ensures |r'| == WIDTH
    decreases |bits|
  {
    if bits == [] then r else FeedEach(FeedBit(r, bits[0]), bits[1..])
  }

  /** Mixing in several bits and shifting is feeding them one at a time. */
  lemma {:induction false} FeedTogether(r: seq<bool>, bits: seq<bool>)
    requires |r| == WIDTH && |bits| <= WIDTH
    ensures Shifts(Xor(r, bits + Zeros(WIDTH - |bits|)), |bits|) == FeedEach(r, bits)
    decreases |bits|
  {
    hide Shift;
    var n := |bits|;
    if n == 0 {
      assert bits + Zeros(WIDTH) == Zeros(WIDTH);
      XorZeros(r);
    } else {
      var rest := bits[1..];
      var z, y := Xor(r, [bits[0]] + Zeros(31)), [false] + rest + Zeros(WIDTH - n);
      assert Xor(r, bits + Zeros(WIDTH - n)) == Xor(z, y);
      ShiftXor(z, y);
      assert y[1..] + [false] == rest + Zeros(WIDTH - (n - 1));
      FeedTogether(FeedBit(r, bits[0]), rest);
    }
  }

  lemma {:induction false} FeedEachConcat(r: seq<bool>, xs: seq<bool>, ys: seq<bool>)
    requires |r| == WIDTH
    ensures FeedEach(r, xs + ys) == FeedEach(FeedEach(r, xs), ys)
    decreases |xs|
  {
    hide FeedBit;
    if xs == [] {
      assert xs + ys == ys;
    } else {
      assert (xs + ys)[1..] == xs[1..] + ys;
      FeedEachConcat(FeedBit(r, xs[0]), xs[1..], ys);
    }
  }

  lemma {:induction false} FeedIsEach(r: seq<bool>, data: seq<byte>)
    requires |r| == WIDTH
    ensures Feed(r, data) == FeedEach(r, Stream(data))
    decreases |data|
  {
    hide Shifts, BitsOf, FeedBit, Xor;
    if data != [] {
      var first := BitsOf(data[0], 8);
      FeedTogether(r, first);
      assert FeedBits(r, first) == FeedEach(r, first);
      FeedIsEach(FeedBits(r, first), data[1..]);
      FeedEachConcat(r, first, Stream(data[1..]));
    }
  }

  lemma MixedBit(r: seq<bool>, b: bool)
    requires |r| == WIDTH
    ensures Reflected(Xor(r, [b] + Zeros(31))) == Add(Reflected(r), if b then {31} else {})
  {
    var y, top: Poly := Xor(r, [b] + Zeros(31)), if b then {31} else {};
    forall e: nat
      ensures e in Reflected(y) <==> e in Add(Reflected(r), top)
    {
      ReflectedAt(y, e);
      ReflectedAt(r, e);
      AddAt(Reflected(r), top, e);
    }
  }

  /** Shifting multiplies by x and subtracts the generator when the degree would reach it. */
  lemma ShiftReduces(y: seq<bool>)
    requires |y| == WIDTH
    ensures Raise(Reflected(y), 1) == Add(Reflected(Shift(y)), if y[0] then GENERATOR else {})
  {
    hide Shift;
    var g: Poly := if y[0] then GENERATOR else {};
    forall e: nat
      ensures e in Raise(Reflected(y), 1) <==> e in Add(Reflected(Shift(y)), g)
    {
      ShiftReducesAt(y, e);
    }
  }

  lemma ShiftReducesAt(y: seq<bool>, e: nat)
    requires |y| == WIDTH
    ensures e in Raise(Reflected(y), 1) <==> e in Add(Reflected(Shift(y)), if y[0] then GENERATOR else {})
  {
    hide Shift, BitsOf, Reflected, Raise, Add, GENERATOR;
    var none: Poly := {};
    var g := if y[0] then GENERATOR else none;
    RaiseAt(Reflected(y), 1, e);
    AddAt(Reflected(Shift(y)), g, e);
    ReflectedAt(Shift(y), e);
    if e > 0 {
      ReflectedAt(y, e - 1);
    }
    if e < WIDTH {
      PolynomialIsGenerator(31 - e);
      ShiftedBit(y, 31 - e);
    } else {
      GeneratorAbove(e);
    }
  }

  lemma GeneratorAbove(e: nat)
    requires e >= 32
    ensures e in GENERATOR <==> e == 32
  {}

  lemma ShiftedBit(y: seq<bool>, i: nat)
    requires |y| == WIDTH && i < WIDTH
    ensures Shift(y)[i] == ((i < 31 && y[i + 1]) != (y[0] && BitsOf(POLYNOMIAL, WIDTH)[i]))
  {}

  /** One more bit: the quotient gains a coefficient and the register stays the remainder. */
  lemma BitStep(total: Poly, q: seq<bool>, r: seq<bool>, b: bool, total': Poly)
    requires |r| == WIDTH && total == Add(Product(q, GENERATOR), Reflected(r))
    requires total' == Add(Raise(total, 1), if b then {32} else {})
    ensures var y := Xor(r, [b] + Zeros(31));
            total' == Add(Product([y[0]] + q, GENERATOR), Reflected(FeedBit(r, b)))
  {
    hide Product, Reflected, GENERATOR, Shift, Xor;
    var none: Poly := {};
    var y := Xor(r, [b] + Zeros(31));
    var p, c, t, g := Raise(Product(q, GENERATOR), 1), Reflected(FeedBit(r, b)), if b then {32} else none,
                      if y[0] then GENERATOR else none;
    MixedBit(r, b);
    ShiftReduces(y);
    ProductCons(y[0], q, GENERATOR);
    RaiseAdd(Product(q, GENERATOR), Reflected(r), 1);
    RaiseAdd(Reflected(r), if b then {31} else none, 1);
    assert Raise(if b then {31} else none, 1) == t by {
      assert Raise({31}, 1) == {32} && Raise(none, 1) == none;
    }
    Regroup(p, Raise(Reflected(r), 1), t, c, g);
  }

  lemma Regroup(p: Poly, r: Poly, t: Poly, c: Poly, g: Poly)
    requires Add(r, t) == Add(c, g)
    ensures Add(Add(p, r), t) == Add(Add(p, g), c)
  {
    AddAssoc(p, r, t);
    AddComm(c, g);
    AddAssoc(p, g, c);
  }

  /** What the bits fed stand for, after an initial register: its multiple of x, plus the message times x to the 32. */
  function TotalOf(r0: seq<bool>, bits: seq<bool>): Poly
    requires |r0| == WIDTH
  {
    Add(Raise(MessageOf(bits), 32), Raise(Reflected(r0), |bits|))
  }

  lemma TotalStep(r0: seq<bool>, bits: seq<bool>, b: bool)
    requires |r0| == WIDTH
    ensures TotalOf(r0, bits + [b]) == Add(Raise(TotalOf(r0, bits), 1), if b then {32} else {})
  {
    hide Reflected;
    var m, m', r := MessageOf(bits), MessageOf(bits + [b]), Reflected(r0);
    var none: Poly := {};
    var t := if b then {32} else none;
    RaiseAdd(Raise(m, 32), Raise(r, |bits|), 1);
    RaiseTwice(m, 32, 1);
    RaiseTwice(r, |bits|, 1);
    assert Raise(m', 32) == Add(Raise(m, 33), t) by {
      forall e: nat
        ensures e in Raise(m', 32) <==> e in Add(Raise(m, 33), t)
      {
        RaiseAt(m', 32, e);
        RaiseAt(m, 33, e);
        AddAt(Raise(m, 33), t, e);
        if e >= 32 {
          MessageAt(bits + [b], e - 32);
        }
        if e >= 33 {
          MessageAt(bits, e - 33);
        }
      }
    }
    hide MessageOf, Raise, TotalOf;
    Swap(Raise(m, 33), t, Raise(r, |bits| + 1));
    TotalIs(r0, bits);
    TotalIs(r0, bits + [b]);
  }

  lemma TotalIs(r0: seq<bool>, bits: seq<bool>)
    requires |r0| == WIDTH
    ensures TotalOf(r0, bits) == Add(Raise(MessageOf(bits), 32), Raise(Reflected(r0), |bits|))
  {}

  lemma Swap(a: Poly, b: Poly, c: Poly)
    ensures Add(Add(a, b), c) == Add(Add(a, c), b)
  {
    AddAssoc(a, b, c);
    AddComm(b, c);
    AddAssoc(a, c, b);
  }

  lemma {:induction false} BitsRemainder(r0: seq<bool>, bits: seq<bool>) returns (q: seq<bool>)
    requires |r0| == WIDTH
    ensures TotalOf(r0, bits) == Add(Product(q, GENERATOR), Reflected(FeedEach(r0, bits)))
    decreases |bits|
  {
    if bits == [] {
      q := [];
      assert Raise(MessageOf(bits), 32) == {};
      assert Raise(Reflected(r0), 0) == Reflected(r0) by {
        forall e: nat
          ensures e in Raise(Reflected(r0), 0) <==> e in Reflected(r0)
        {
          RaiseAt(Reflected(r0), 0, e);
        }
      }
      AddSelf(Reflected(r0), {});
    } else {
      hide TotalOf, Reflected, Product, FeedBit;
      var n := |bits| - 1;
      var front, b := bits[..n], bits[n];
      assert bits == front + [b];
      var q' := BitsRemainder(r0, front);
      var r := FeedEach(r0, front);
      FeedEachConcat(r0, front, [b]);
      LastBit(r, b);
      TotalStep(r0, front, b);
      BitStep(TotalOf(r0, front), q', r, b, TotalOf(r0, bits));
      q := [Xor(r, [b] + Zeros(31))[0]] + q';
    }
  }

  lemma LastBit(r: seq<bool>, b: bool)
    requires |r| == WIDTH
    ensures FeedEach(r, [b]) == FeedBit(r, b)
  {
    hide FeedBit;
    assert [b][1..] == [];
  }

  /**
   The register after any data, from any start, is the remainder of the
   message times x to the 32, plus what the start contributes, by the
   generator.
   */
  lemma FeedIsRemainder(r0: seq<bool>, data: seq<byte>)
    requires |r0| == WIDTH
    ensures IsRemainder(TotalOf(r0, Stream(data)), GENERATOR, 32, Reflected(Feed(r0, data)))
  {
    hide Product, TotalOf, FeedEach;
    FeedIsEach(r0, data);
    var q := BitsRemainder(r0, Stream(data));
  }

  /** From the zero register: the remainder of the message times x to the 32 and nothing else. */
  lemma PlainRemainder(data: seq<byte>)
    ensures IsRemainder(Raise(MessageOf(Stream(data)), 32), GENERATOR, 32, Reflected(Feed(Zeros(WIDTH), data)))
  {
    FeedIsRemainder(Zeros(WIDTH), data);
    assert Reflected(Zeros(WIDTH)) == {};
    hide Stream, MessageOf, Feed, IsRemainder;
    AddSelf(Raise(MessageOf(Stream(data)), 32), {});
    assert Raise({}, |Stream(data)|) == {};
  }

  /**
   The CRC-32 of the data, defined by division: with the first 32 bits of the
   message complemented, the complement of the remainder.
   */
  ghost predicate IsCrc32(data: seq<byte>, crc: seq<bool>)
    requires |crc| == WIDTH
  {
    IsRemainder(TotalOf(Ones(), Stream(data)), GENERATOR, 32, Reflected(Not(crc)))
  }

  lemma ChecksumIsCrc32(data: seq<byte>, crc: seq<bool>)
    requires |crc| == WIDTH
    ensures IsCrc32(data, crc) <==> crc == Checksum(data)
  {
    var r := Feed(Ones(), data);
    FeedIsRemainder(Ones(), data);
    assert Not(Not(r)) == r;
    hide Feed, TotalOf, IsRemainder;
    if IsCrc32(data, crc) {
      PolynomialIsGenerator(0);
      RemainderUnique(TotalOf(Ones(), Stream(data)), GENERATOR, 32, Reflected(r), Reflected(Not(crc)));
      forall i: nat | i < WIDTH
        ensures r[i] == Not(crc)[i]
      {
        ReflectedAt(r, 31 - i);
        ReflectedAt(Not(crc), 31 - i);
      }
      assert crc == Not(r);
    }
  }

  // ---------------------------------------------------------------------
  // The loop
  // ---------------------------------------------------------------------

  method ShiftByte(mixed: seq<bool>) returns (crc: seq<bool>)
    requires |mixed| == WIDTH
    ensures crc == Shifts(mixed, 8)
  {
    hide Shift;
    crc := mixed;
    var j := 0;
    while j < 8
      invariant 0 <= j <= 8 && |crc| == WIDTH
      invariant Shifts(mixed, 8) == Shifts(crc, 8 - j)
    {
      crc := Shift(crc);
      j := j + 1;
    }
  }

  method Compute(data: seq<byte>) returns (crc: seq<bool>)
    ensures crc == Checksum(data) && IsCrc32(data, crc)
  {
    ChecksumIsCrc32(data, Checksum(data));
    hide Shifts, Xor, BitsOf, Zeros, IsCrc32;
    crc := Ones();
    var i := 0;
    assert data[0..] == data;
    while i < |data|
      invariant 0 <= i <= |data| && |crc| == WIDTH
      invariant Feed(Ones(), data) == Feed(crc, data[i..])
    {
      assert |Zeros(24)| == 24 by { ZerosLength(24); }
      ghost var before := crc;
      crc := Xor(crc, BitsOf(data[i], 8) + Zeros(24));
      crc := ShiftByte(crc);
      assert crc == FeedBits(before, BitsOf(data[i], 8));
      assert data[i..][1..] == data[i + 1..];
      i := i + 1;
    }
    crc := Not(crc);
  }

  lemma ZerosLength(k: nat)
    ensures |Zeros(k)| == k
  {}
}
