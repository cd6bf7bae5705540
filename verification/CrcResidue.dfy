/**
 The register that data followed by its own checksum leaves, computed digit by
 digit: 32 shifts of all ones.
 */
module CrcResidue {
  import opened Bits
  import opened Crc
  import opened Wire

  /** A register as eight hexadecimal digits, least significant first. */
  datatype Hex = Hex(d0: nat, d1: nat, d2: nat, d3: nat, d4: nat, d5: nat, d6: nat, d7: nat)

  function HexBits(h: Hex): (r: seq<bool>)
    ensures |r| == WIDTH
  {
    Nibble(h.d0) + (Nibble(h.d1) + (Nibble(h.d2) + (Nibble(h.d3) + (Nibble(h.d4) + (Nibble(h.d5) + (Nibble(h.d6) + Nibble(h.d7)))))))
  }

  const POLYNOMIAL_HEX: Hex := Hex(0, 2, 3, 8, 8, 11, 13, 14)

  lemma PolynomialHex()
    ensures BitsOf(POLYNOMIAL, WIDTH) == HexBits(POLYNOMIAL_HEX)
  {
    hide BitsOf, Nibble;
    PolynomialBits();
    Nibbles();
  }

  function Digit(b0: bool, b1: bool, b2: bool, b3: bool): nat {
    (if b0 then 1 else 0) + (if b1 then 2 else 0) + (if b2 then 4 else 0) + (if b3 then 8 else 0)
  }

  /** The upper bits of a digit and the lowest bit of the next. */
  function HalfDigit(d: nat, next: nat): nat {
    Digit(d / 2 % 2 == 1, d / 4 % 2 == 1, d / 8 % 2 == 1, next % 2 == 1)
  }

  function XorDigit(d: nat, p: nat): nat {
    Digit((d % 2 == 1) != (p % 2 == 1), (d / 2 % 2 == 1) != (p / 2 % 2 == 1),
          (d / 4 % 2 == 1) != (p / 4 % 2 == 1), (d / 8 % 2 == 1) != (p / 8 % 2 == 1))
  }

  lemma DigitIs(d: nat, next: nat, p: nat)
    ensures HalfDigit(d, next) == Digit(Bit1(d), Bit2(d), Bit3(d), Bit0(next))
    ensures XorDigit(d, p) == Digit(Bit0(d) != Bit0(p), Bit1(d) != Bit1(p), Bit2(d) != Bit2(p), Bit3(d) != Bit3(p))
  {}

  lemma DigitBits(b0: bool, b1: bool, b2: bool, b3: bool)
    ensures Nibble(Digit(b0, b1, b2, b3)) == [b0, b1, b2, b3]
  {}

  lemma HalfDigitBits(d: nat, next: nat)
    ensures Nibble(HalfDigit(d, next)) == Nibble(d)[1..] + Nibble(next)[..1]
  {
    hide Digit, Bit0, Bit1, Bit2, Bit3, HalfDigit;
    DigitIs(d, next, 0);
    DigitBits(Bit1(d), Bit2(d), Bit3(d), Bit0(next));
  }

  lemma XorDigitBits(d: nat, p: nat)
    ensures Nibble(XorDigit(d, p)) == Xor(Nibble(d), Nibble(p))
  {
    hide Digit, Bit0, Bit1, Bit2, Bit3, XorDigit;
    DigitIs(d, 0, p);
    DigitBits(Bit0(d) != Bit0(p), Bit1(d) != Bit1(p), Bit2(d) != Bit2(p), Bit3(d) != Bit3(p));
  }

  function HalfHex(h: Hex): Hex {
    Hex(HalfDigit(h.d0, h.d1), HalfDigit(h.d1, h.d2), HalfDigit(h.d2, h.d3), HalfDigit(h.d3, h.d4),
        HalfDigit(h.d4, h.d5), HalfDigit(h.d5, h.d6), HalfDigit(h.d6, h.d7), HalfDigit(h.d7, 0))
  }

  function XorHex(h: Hex, p: Hex): Hex {
    Hex(XorDigit(h.d0, p.d0), XorDigit(h.d1, p.d1), XorDigit(h.d2, p.d2), XorDigit(h.d3, p.d3),
        XorDigit(h.d4, p.d4), XorDigit(h.d5, p.d5), XorDigit(h.d6, p.d6), XorDigit(h.d7, p.d7))
  }

  function ShiftHex(h: Hex): Hex {
    if h.d0 % 2 == 1 then XorHex(HalfHex(h), POLYNOMIAL_HEX) else HalfHex(h)
  }

  /** Dropping the first bit of a digit and what follows it. */
  lemma MoveOver(a: seq<bool>, b: seq<bool>, rest: seq<bool>)
    requires |a| == 4 && |b| > 0 && rest == b[1..] + [false]
    ensures (a + b)[1..] + [false] == (a[1..] + b[..1]) + rest && (a + b)[..1] == a[..1]
  {}

  lemma HalfBits(h: Hex)
    ensures HexBits(HalfHex(h)) == HexBits(h)[1..] + [false]
  {
    hide Nibble, HalfDigit;
    HalfDigitBits(h.d0, h.d1);
    HalfDigitBits(h.d1, h.d2);
    HalfDigitBits(h.d2, h.d3);
    HalfDigitBits(h.d3, h.d4);
    HalfDigitBits(h.d4, h.d5);
    HalfDigitBits(h.d5, h.d6);
    HalfDigitBits(h.d6, h.d7);
    HalfDigitBits(h.d7, 0);
    FirstBit(0);
    var b7, r7 := Nibble(h.d7), Nibble(HalfDigit(h.d7, 0));
    assert r7 == b7[1..] + [false];
    MoveOver(Nibble(h.d6), b7, r7);
    var b6, r6 := Nibble(h.d6) + b7, Nibble(HalfDigit(h.d6, h.d7)) + r7;
    MoveOver(Nibble(h.d5), b6, r6);
    var b5, r5 := Nibble(h.d5) + b6, Nibble(HalfDigit(h.d5, h.d6)) + r6;
    MoveOver(Nibble(h.d4), b5, r5);
    var b4, r4 := Nibble(h.d4) + b5, Nibble(HalfDigit(h.d4, h.d5)) + r5;
    MoveOver(Nibble(h.d3), b4, r4);
    var b3, r3 := Nibble(h.d3) + b4, Nibble(HalfDigit(h.d3, h.d4)) + r4;
    MoveOver(Nibble(h.d2), b3, r3);
    var b2, r2 := Nibble(h.d2) + b3, Nibble(HalfDigit(h.d2, h.d3)) + r3;
    MoveOver(Nibble(h.d1), b2, r2);
    var b1, r1 := Nibble(h.d1) + b2, Nibble(HalfDigit(h.d1, h.d2)) + r2;
    MoveOver(Nibble(h.d0), b1, r1);
    var b0, r0 := Nibble(h.d0) + b1, Nibble(HalfDigit(h.d0, h.d1)) + r1;
  }

  lemma FirstBit(d: nat)
    ensures |Nibble(d)| == 4 && Nibble(d)[0] == (d % 2 == 1) && Nibble(d)[..1] == [d % 2 == 1]
  {}

  lemma XorConcat(a: seq<bool>, b: seq<bool>, p: seq<bool>, q: seq<bool>)
    requires |a| == |p| && |b| == |q|
    ensures Xor(a + b, p + q) == Xor(a, p) + Xor(b, q)
  {}

  lemma XorBits(h: Hex, p: Hex)
    ensures HexBits(XorHex(h, p)) == Xor(HexBits(h), HexBits(p))
  {
    hide Nibble, XorDigit, Xor;
    XorDigitBits(h.d0, p.d0);
    XorDigitBits(h.d1, p.d1);
    XorDigitBits(h.d2, p.d2);
    XorDigitBits(h.d3, p.d3);
    XorDigitBits(h.d4, p.d4);
    XorDigitBits(h.d5, p.d5);
    XorDigitBits(h.d6, p.d6);
    XorDigitBits(h.d7, p.d7);
    var b7 := Nibble(h.d7);
    var b6 := Nibble(h.d6) + b7;
    var b5 := Nibble(h.d5) + b6;
    var b4 := Nibble(h.d4) + b5;
    var b3 := Nibble(h.d3) + b4;
    var b2 := Nibble(h.d2) + b3;
    var b1 := Nibble(h.d1) + b2;
    var c7 := Nibble(p.d7);
    var c6 := Nibble(p.d6) + c7;
    var c5 := Nibble(p.d5) + c6;
    var c4 := Nibble(p.d4) + c5;
    var c3 := Nibble(p.d3) + c4;
    var c2 := Nibble(p.d2) + c3;
    var c1 := Nibble(p.d1) + c2;
    XorConcat(Nibble(h.d0), b1, Nibble(p.d0), c1);
    XorConcat(Nibble(h.d1), b2, Nibble(p.d1), c2);
    XorConcat(Nibble(h.d2), b3, Nibble(p.d2), c3);
    XorConcat(Nibble(h.d3), b4, Nibble(p.d3), c4);
    XorConcat(Nibble(h.d4), b5, Nibble(p.d4), c5);
    XorConcat(Nibble(h.d5), b6, Nibble(p.d5), c6);
    XorConcat(Nibble(h.d6), b7, Nibble(p.d6), c7);
  }

  lemma ShiftHexBits(h: Hex)
    ensures Shift(HexBits(h)) == HexBits(ShiftHex(h))
  {
    PolynomialHex();
    HalfBits(h);
    XorBits(HalfHex(h), POLYNOMIAL_HEX);
    FirstBit(h.d0);
    hide BitsOf, Nibble, HalfHex, XorHex;
  }

  function ShiftsHex(h: Hex, k: nat): Hex
    decreases k
  {
    if k == 0 then h else ShiftsHex(ShiftHex(h), k - 1)
  }

  lemma {:induction false} ShiftsHexBits(h: Hex, k: nat)
    ensures Shifts(HexBits(h), k) == HexBits(ShiftsHex(h, k))
    decreases k
  {
    hide HexBits, ShiftHex, Shift;
    if k > 0 {
      ShiftHexBits(h);
      ShiftsHexBits(ShiftHex(h), k - 1);
    }
  }

  lemma ShiftsHexStep(h: Hex, h': Hex, k: nat)
    requires ShiftHex(h) == h' && k > 0
    ensures ShiftsHex(h, k) == ShiftsHex(h', k - 1)
  {}

  lemma Digits0To8()
    ensures ShiftHex(Hex(15, 15, 15, 15, 15, 15, 15, 15)) == Hex(15, 13, 12, 7, 7, 4, 2, 9)
    ensures ShiftHex(Hex(15, 13, 12, 7, 7, 4, 2, 9)) == Hex(15, 4, 13, 3, 11, 9, 4, 10)
    ensures ShiftHex(Hex(15, 4, 13, 3, 11, 9, 4, 10)) == Hex(7, 8, 13, 1, 5, 15, 15, 11)
    ensures ShiftHex(Hex(7, 8, 13, 1, 5, 15, 15, 11)) == Hex(3, 14, 13, 0, 2, 4, 2, 11)
    ensures ShiftHex(Hex(3, 14, 13, 0, 2, 4, 2, 11)) == Hex(1, 13, 5, 8, 9, 9, 4, 11)
    ensures ShiftHex(Hex(1, 13, 5, 8, 9, 9, 4, 11)) == Hex(8, 12, 1, 4, 4, 15, 7, 11)
    ensures ShiftHex(Hex(8, 12, 1, 4, 4, 15, 7, 11)) == Hex(4, 14, 0, 2, 10, 15, 11, 5)
    ensures ShiftHex(Hex(4, 14, 0, 2, 10, 15, 11, 5)) == Hex(2, 7, 0, 1, 13, 15, 13, 2)
  {}

  lemma Shifts0To8()
    ensures ShiftsHex(Hex(15, 15, 15, 15, 15, 15, 15, 15), 32) == ShiftsHex(Hex(2, 7, 0, 1, 13, 15, 13, 2), 24)
  {
    hide ShiftsHex, ShiftHex;
    Digits0To8();
    ShiftsHexStep(Hex(15, 15, 15, 15, 15, 15, 15, 15), Hex(15, 13, 12, 7, 7, 4, 2, 9), 32);
    ShiftsHexStep(Hex(15, 13, 12, 7, 7, 4, 2, 9), Hex(15, 4, 13, 3, 11, 9, 4, 10), 31);
    ShiftsHexStep(Hex(15, 4, 13, 3, 11, 9, 4, 10), Hex(7, 8, 13, 1, 5, 15, 15, 11), 30);
    ShiftsHexStep(Hex(7, 8, 13, 1, 5, 15, 15, 11), Hex(3, 14, 13, 0, 2, 4, 2, 11), 29);
    ShiftsHexStep(Hex(3, 14, 13, 0, 2, 4, 2, 11), Hex(1, 13, 5, 8, 9, 9, 4, 11), 28);
    ShiftsHexStep(Hex(1, 13, 5, 8, 9, 9, 4, 11), Hex(8, 12, 1, 4, 4, 15, 7, 11), 27);
    ShiftsHexStep(Hex(8, 12, 1, 4, 4, 15, 7, 11), Hex(4, 14, 0, 2, 10, 15, 11, 5), 26);
    ShiftsHexStep(Hex(4, 14, 0, 2, 10, 15, 11, 5), Hex(2, 7, 0, 1, 13, 15, 13, 2), 25);
  }

  lemma Digits8To16()
    ensures ShiftHex(Hex(2, 7, 0, 1, 13, 15, 13, 2)) == Hex(9, 3, 8, 8, 14, 15, 6, 1)
    ensures ShiftHex(Hex(9, 3, 8, 8, 14, 15, 6, 1)) == Hex(12, 3, 7, 12, 7, 12, 6, 14)
    ensures ShiftHex(Hex(12, 3, 7, 12, 7, 12, 6, 14)) == Hex(14, 9, 3, 14, 3, 6, 3, 7)
    ensures ShiftHex(Hex(14, 9, 3, 14, 3, 6, 3, 7)) == Hex(15, 12, 1, 15, 1, 11, 9, 3)
    ensures ShiftHex(Hex(15, 12, 1, 15, 1, 11, 9, 3)) == Hex(7, 12, 11, 7, 0, 6, 1, 15)
    ensures ShiftHex(Hex(7, 12, 11, 7, 0, 6, 1, 15)) == Hex(3, 12, 14, 11, 8, 0, 5, 9)
    ensures ShiftHex(Hex(3, 12, 14, 11, 8, 0, 5, 9)) == Hex(1, 4, 12, 13, 12, 3, 7, 10)
    ensures ShiftHex(Hex(1, 4, 12, 13, 12, 3, 7, 10)) == Hex(0, 0, 13, 14, 6, 2, 14, 11)
  {}

  lemma Shifts8To16()
    ensures ShiftsHex(Hex(2, 7, 0, 1, 13, 15, 13, 2), 24) == ShiftsHex(Hex(0, 0, 13, 14, 6, 2, 14, 11), 16)
  {
    hide ShiftsHex, ShiftHex;
    Digits8To16();
    ShiftsHexStep(Hex(2, 7, 0, 1, 13, 15, 13, 2), Hex(9, 3, 8, 8, 14, 15, 6, 1), 24);
    ShiftsHexStep(Hex(9, 3, 8, 8, 14, 15, 6, 1), Hex(12, 3, 7, 12, 7, 12, 6, 14), 23);
    ShiftsHexStep(Hex(12, 3, 7, 12, 7, 12, 6, 14), Hex(14, 9, 3, 14, 3, 6, 3, 7), 22);
    ShiftsHexStep(Hex(14, 9, 3, 14, 3, 6, 3, 7), Hex(15, 12, 1, 15, 1, 11, 9, 3), 21);
    ShiftsHexStep(Hex(15, 12, 1, 15, 1, 11, 9, 3), Hex(7, 12, 11, 7, 0, 6, 1, 15), 20);
    ShiftsHexStep(Hex(7, 12, 11, 7, 0, 6, 1, 15), Hex(3, 12, 14, 11, 8, 0, 5, 9), 19);
    ShiftsHexStep(Hex(3, 12, 14, 11, 8, 0, 5, 9), Hex(1, 4, 12, 13, 12, 3, 7, 10), 18);
    ShiftsHexStep(Hex(1, 4, 12, 13, 12, 3, 7, 10), Hex(0, 0, 13, 14, 6, 2, 14, 11), 17);
  }

  lemma Digits16To24()
    ensures ShiftHex(Hex(0, 0, 13, 14, 6, 2, 14, 11)) == Hex(0, 8, 6, 7, 3, 1, 15, 5)
    ensures ShiftHex(Hex(0, 8, 6, 7, 3, 1, 15, 5)) == Hex(0, 4, 11, 11, 9, 8, 15, 2)
    ensures ShiftHex(Hex(0, 4, 11, 11, 9, 8, 15, 2)) == Hex(0, 10, 13, 13, 4, 12, 7, 1)
    ensures ShiftHex(Hex(0, 10, 13, 13, 4, 12, 7, 1)) == Hex(0, 13, 14, 6, 2, 14, 11, 0)
    ensures ShiftHex(Hex(0, 13, 14, 6, 2, 14, 11, 0)) == Hex(8, 6, 7, 3, 1, 15, 5, 0)
    ensures ShiftHex(Hex(8, 6, 7, 3, 1, 15, 5, 0)) == Hex(4, 11, 11, 9, 8, 15, 2, 0)
    ensures ShiftHex(Hex(4, 11, 11, 9, 8, 15, 2, 0)) == Hex(10, 13, 13, 4, 12, 7, 1, 0)
    ensures ShiftHex(Hex(10, 13, 13, 4, 12, 7, 1, 0)) == Hex(13, 14, 6, 2, 14, 11, 0, 0)
  {}

  lemma Shifts16To24()
    ensures ShiftsHex(Hex(0, 0, 13, 14, 6, 2, 14, 11), 16) == ShiftsHex(Hex(13, 14, 6, 2, 14, 11, 0, 0), 8)
  {
    hide ShiftsHex, ShiftHex;
    Digits16To24();
    ShiftsHexStep(Hex(0, 0, 13, 14, 6, 2, 14, 11), Hex(0, 8, 6, 7, 3, 1, 15, 5), 16);
    ShiftsHexStep(Hex(0, 8, 6, 7, 3, 1, 15, 5), Hex(0, 4, 11, 11, 9, 8, 15, 2), 15);
    ShiftsHexStep(Hex(0, 4, 11, 11, 9, 8, 15, 2), Hex(0, 10, 13, 13, 4, 12, 7, 1), 14);
    ShiftsHexStep(Hex(0, 10, 13, 13, 4, 12, 7, 1), Hex(0, 13, 14, 6, 2, 14, 11, 0), 13);
    ShiftsHexStep(Hex(0, 13, 14, 6, 2, 14, 11, 0), Hex(8, 6, 7, 3, 1, 15, 5, 0), 12);
    ShiftsHexStep(Hex(8, 6, 7, 3, 1, 15, 5, 0), Hex(4, 11, 11, 9, 8, 15, 2, 0), 11);
    ShiftsHexStep(Hex(4, 11, 11, 9, 8, 15, 2, 0), Hex(10, 13, 13, 4, 12, 7, 1, 0), 10);
    ShiftsHexStep(Hex(10, 13, 13, 4, 12, 7, 1, 0), Hex(13, 14, 6, 2, 14, 11, 0, 0), 9);
  }

  lemma Digits24To32()
    ensures ShiftHex(Hex(13, 14, 6, 2, 14, 11, 0, 0)) == Hex(6, 5, 0, 9, 7, 14, 13, 14)
    ensures ShiftHex(Hex(6, 5, 0, 9, 7, 14, 13, 14)) == Hex(11, 2, 8, 12, 3, 15, 6, 7)
    ensures ShiftHex(Hex(11, 2, 8, 12, 3, 15, 6, 7)) == Hex(5, 3, 7, 6, 1, 12, 6, 13)
    ensures ShiftHex(Hex(5, 3, 7, 6, 1, 12, 6, 13)) == Hex(10, 11, 0, 3, 8, 13, 6, 8)
    ensures ShiftHex(Hex(10, 11, 0, 3, 8, 13, 6, 8)) == Hex(13, 5, 8, 1, 12, 6, 3, 4)
    ensures ShiftHex(Hex(13, 5, 8, 1, 12, 6, 3, 4)) == Hex(14, 0, 15, 8, 14, 0, 12, 12)
    ensures ShiftHex(Hex(14, 0, 15, 8, 14, 0, 12, 12)) == Hex(7, 8, 7, 4, 7, 0, 6, 6)
    ensures ShiftHex(Hex(7, 8, 7, 4, 7, 0, 6, 6)) == Hex(3, 14, 0, 2, 11, 11, 14, 13)
  {}

  lemma Shifts24To32()
    ensures ShiftsHex(Hex(13, 14, 6, 2, 14, 11, 0, 0), 8) == ShiftsHex(Hex(3, 14, 0, 2, 11, 11, 14, 13), 0)
  {
    hide ShiftsHex, ShiftHex;
    Digits24To32();
    ShiftsHexStep(Hex(13, 14, 6, 2, 14, 11, 0, 0), Hex(6, 5, 0, 9, 7, 14, 13, 14), 8);
    ShiftsHexStep(Hex(6, 5, 0, 9, 7, 14, 13, 14), Hex(11, 2, 8, 12, 3, 15, 6, 7), 7);
    ShiftsHexStep(Hex(11, 2, 8, 12, 3, 15, 6, 7), Hex(5, 3, 7, 6, 1, 12, 6, 13), 6);
    ShiftsHexStep(Hex(5, 3, 7, 6, 1, 12, 6, 13), Hex(10, 11, 0, 3, 8, 13, 6, 8), 5);
    ShiftsHexStep(Hex(10, 11, 0, 3, 8, 13, 6, 8), Hex(13, 5, 8, 1, 12, 6, 3, 4), 4);
    ShiftsHexStep(Hex(13, 5, 8, 1, 12, 6, 3, 4), Hex(14, 0, 15, 8, 14, 0, 12, 12), 3);
    ShiftsHexStep(Hex(14, 0, 15, 8, 14, 0, 12, 12), Hex(7, 8, 7, 4, 7, 0, 6, 6), 2);
    ShiftsHexStep(Hex(7, 8, 7, 4, 7, 0, 6, 6), Hex(3, 14, 0, 2, 11, 11, 14, 13), 1);
  }

  /** All ones, shifted 32 times. */
  lemma ResidueDigits()
    ensures ShiftsHex(Hex(15, 15, 15, 15, 15, 15, 15, 15), 32) == Hex(3, 14, 0, 2, 11, 11, 14, 13)
  {
    hide ShiftHex;
    Shifts0To8();
    Shifts8To16();
    Shifts16To24();
    Shifts24To32();
  }

  lemma AllOnes()
    ensures HexBits(Hex(15, 15, 15, 15, 15, 15, 15, 15)) == Ones()
  {}

  lemma ResidueHex()
    ensures BitsOf(0xDEBB_20E3, WIDTH) == HexBits(Hex(3, 14, 0, 2, 11, 11, 14, 13))
  {
    hide BitsOf, Nibble;
    BitsSplit(0xDEBB20E3, 0xDEBB20E, 3, 28);
    BitsSplit(0xDEBB20E, 0xDEBB20, 14, 24);
    BitsSplit(0xDEBB20, 0xDEBB2, 0, 20);
    BitsSplit(0xDEBB2, 0xDEBB, 2, 16);
    BitsSplit(0xDEBB, 0xDEB, 11, 12);
    BitsSplit(0xDEB, 0xDE, 11, 8);
    BitsSplit(0xDE, 0xD, 14, 4);
    BitsSplit(0xD, 0, 13, 0);
    NoBits(0);
  }

  lemma NoBits(n: nat)
    ensures BitsOf(n, 0) == []
  {}

  /** The register that data followed by its own checksum leaves, the same for all data. */
  lemma ResidueIs()
    ensures Shifts(Ones(), 32) == BitsOf(0xDEBB_20E3, WIDTH)
  {
    hide Shifts, HexBits, BitsOf, ShiftsHex;
    AllOnes();
    ShiftsHexBits(Hex(15, 15, 15, 15, 15, 15, 15, 15), 32);
    ResidueDigits();
    ResidueHex();
  }

  /** Data followed by four bytes leaves the register 0xDEBB20E3 exactly when the bytes are the data's checksum. */
  lemma ResidueValue(data: seq<byte>, word: seq<bool>)
    requires |word| == WIDTH
    ensures Feed(Ones(), data + ToBytes(word)) == BitsOf(0xDEBB_20E3, WIDTH) <==> word == Checksum(data)
  {
    hide Feed, Shifts, ToBytes, BitsOf, Checksum;
    ResidueIs();
    Residue(data, word);
  }
}
