/**
 The heap profile: a Profile message with two sample types, and for every
 size class that saw a request a sample, a location and a function, followed
 by the string table that names them all.
 */
module Pprof {
  import opened Basics
  import opened SizeClass
  import opened Wire

  const BUFFER: nat := 65536
  const ROWS: nat := 42            // 41 size classes and the Huge row
  const FIRST_NAME: nat := 5

  datatype Histogram = Histogram(counts: seq<nat>, bytes: seq<nat>, hugeCount: nat, hugeBytes: nat)

  ghost predicate HistogramOk(h: Histogram) {
    && |h.counts| == |h.bytes| == CLASSES && h.hugeCount < U64 && h.hugeBytes < U64
    && (forall c :: 0 <= c < CLASSES ==> h.counts[c] < U64 && h.bytes[c] < U64)
  }

  function CountOf(h: Histogram, i: nat): nat
    requires |h.counts| == CLASSES && i < ROWS
  {
    if i < CLASSES then h.counts[i] else h.hugeCount
  }

  function BytesOf(h: Histogram, i: nat): nat
    requires |h.bytes| == CLASSES && i < ROWS
  {
    if i < CLASSES then h.bytes[i] else h.hugeBytes
  }

  // ---------------------------------------------------------------------
  // Messages as fields
  // ---------------------------------------------------------------------

  function ValueType(kind: nat, unit: nat): Field {
    Bytes(1, EncodeAll([Number(1, kind), Number(2, unit)]))
  }

  function FunctionBody(id: nat, name: nat): seq<byte> {
    EncodeAll([Number(1, id), Number(2, name), Number(3, name)])
  }

  function LocationBody(id: nat, function_: nat): seq<byte> {
    EncodeAll([Number(1, id), Bytes(4, EncodeAll([Number(1, function_)]))])
  }

  function SampleBody(location: nat, count: nat, bytes: nat): seq<byte> {
    EncodeAll([Bytes(1, Varint(location)), Bytes(2, Varint(count) + Varint(bytes))])
  }

  datatype Section = Samples | Locations | Functions

  /** The field that row `i` contributes to a section. */
  function RowField(h: Histogram, section: Section, i: nat): Field
    requires |h.counts| == |h.bytes| == CLASSES && i < ROWS
  {
    match section
    case Samples => Bytes(2, SampleBody(i + 1, CountOf(h, i), BytesOf(h, i)))
    case Locations => Bytes(4, LocationBody(i + 1, i + 1))
    case Functions => Bytes(5, FunctionBody(i + 1, FIRST_NAME + i))
  }

  /** Each class's sample carries that class's own count and bytes, and the last row those of the huge objects. */
  lemma RowValues(h: Histogram, c: nat)
    requires |h.counts| == |h.bytes| == CLASSES && c < CLASSES
    ensures RowField(h, Samples, c) == Bytes(2, SampleBody(c + 1, h.counts[c], h.bytes[c]))
    ensures RowField(h, Samples, CLASSES) == Bytes(2, SampleBody(CLASSES + 1, h.hugeCount, h.hugeBytes))
  {}

  /** Rows below `n` that saw a request, in order. */
  function RowFields(h: Histogram, section: Section, n: nat): seq<Field>
    requires |h.counts| == |h.bytes| == CLASSES && n <= ROWS
  {
    if n == 0 then []
    else RowFields(h, section, n - 1) + (if CountOf(h, n - 1) > 0 then [RowField(h, section, n - 1)] else [])
  }

  /** Decimal notation without leading zeros. */
  function Decimal(n: nat): seq<byte> {
    if n < 10 then [48 + n] else Decimal(n / 10) + [48 + n % 10]
  }

  /** The number a run of decimal digits stands for. */
  function ValueOf(digits: seq<byte>): int {
    if digits == [] then 0
    else
      var k := |digits| - 1;
      10 * ValueOf(digits[..k]) + (digits[k] as int - 48)
  }

  const SIZE_CLASS: seq<byte> := [115, 105, 122, 101, 95, 99, 108, 97, 115, 115, 95]
  const HUGE_NAME: seq<byte> := [104, 117, 103, 101]

  function ClassName(c: nat): seq<byte> {
    SIZE_CLASS + Decimal(c)
  }

  const FIXED: seq<seq<byte>> := [
    [],
    [97, 108, 108, 111, 99, 95, 111, 98, 106, 101, 99, 116, 115],
    [99, 111, 117, 110, 116],
    [97, 108, 108, 111, 99, 95, 115, 112, 97, 99, 101],
    [98, 121, 116, 101, 115]]

  /** Entry `k` of the string table. */
  function Name(k: nat): seq<byte>
    requires k < FIRST_NAME + ROWS
  {
    if k < FIRST_NAME then FIXED[k]
    else if k < FIRST_NAME + CLASSES then ClassName(k - FIRST_NAME)
    else HUGE_NAME
  }

  function NameFields(n: nat): seq<Field>
    requires n <= FIRST_NAME + ROWS
  {
    if n == 0 then [] else NameFields(n - 1) + [Bytes(6, Name(n - 1))]
  }

  function TypeFields(): seq<Field> {
    [ValueType(1, 2), ValueType(3, 4)]
  }

  function ProfileFields(h: Histogram): seq<Field>
    requires |h.counts| == |h.bytes| == CLASSES
  {
    TypeFields()
    + RowFields(h, Samples, ROWS) + RowFields(h, Locations, ROWS) + RowFields(h, Functions, ROWS)
    + NameFields(FIRST_NAME + ROWS)
  }

  // ---------------------------------------------------------------------
  // Sizes
  // ---------------------------------------------------------------------

  lemma NumberSize(num: nat, value: nat)
    requires 0 < num < 16 && value < U64
    ensures FieldOk(Number(num, value)) && 2 <= |Encode(Number(num, value))| <= 11
  {
    Varint64(value);
  }

  lemma BytesSize(num: nat, payload: seq<byte>)
    requires 0 < num < 15 && |payload| < 128
    ensures FieldOk(Bytes(num, payload)) && |Encode(Bytes(num, payload))| == 2 + |payload|
  {}

  lemma EncodeOne(f: Field)
    ensures EncodeAll([f]) == Encode(f)
  {}

  lemma EncodeTwo(f: Field, g: Field)
    ensures EncodeAll([f, g]) == Encode(f) + Encode(g)
  {
    assert [f, g][1..] == [g];
    EncodeOne(g);
  }

  lemma EncodeThree(f: Field, g: Field, k: Field)
    ensures EncodeAll([f, g, k]) == Encode(f) + Encode(g) + Encode(k)
  {
    assert [f, g, k][1..] == [g, k];
    EncodeTwo(g, k);
  }

  lemma SampleSize(location: nat, count: nat, bytes: nat)
    requires location < U64 && count < U64 && bytes < U64
    ensures |Varint(location)| <= 10 && |Varint(count)| <= 10 && |Varint(bytes)| <= 10
    ensures |SampleBody(location, count, bytes)| <= 34
  {
    hide Varint, Encode;
    Varint64(location);
    Varint64(count);
    Varint64(bytes);
    EncodeTwo(Bytes(1, Varint(location)), Bytes(2, Varint(count) + Varint(bytes)));
    BytesSize(1, Varint(location));
    BytesSize(2, Varint(count) + Varint(bytes));
  }

  lemma LocationSize(id: nat, function_: nat)
    requires id < U64 && function_ < U64
    ensures |Encode(Number(1, function_))| <= 11 && |LocationBody(id, function_)| <= 24
  {
    hide Varint, Encode;
    EncodeOne(Number(1, function_));
    NumberSize(1, id);
    NumberSize(1, function_);
    var line := EncodeAll([Number(1, function_)]);
    EncodeTwo(Number(1, id), Bytes(4, line));
    BytesSize(4, line);
  }

  lemma FunctionSize(id: nat, name: nat)
    requires id < 128 && name < 128
    ensures |FunctionBody(id, name)| == 6
  {
    EncodeThree(Number(1, id), Number(2, name), Number(3, name));
  }

  lemma ValueTypeSize(kind: nat, unit: nat)
    requires kind < U64 && unit < U64
    ensures |EncodeAll([Number(1, kind), Number(2, unit)])| <= 22
  {
    hide Varint, Encode;
    EncodeTwo(Number(1, kind), Number(2, unit));
    NumberSize(1, kind);
    NumberSize(2, unit);
  }

  lemma RowSize(h: Histogram, section: Section, i: nat)
    requires HistogramOk(h) && i < ROWS
    ensures FieldOk(RowField(h, section, i)) && |Encode(RowField(h, section, i))| <= 36
  {
    hide Varint, Encode, SampleBody, LocationBody, FunctionBody, FieldOk;
    match section
    case Samples =>
      SampleSize(i + 1, CountOf(h, i), BytesOf(h, i));
      BytesSize(2, SampleBody(i + 1, CountOf(h, i), BytesOf(h, i)));
    case Locations =>
      LocationSize(i + 1, i + 1);
      BytesSize(4, LocationBody(i + 1, i + 1));
    case Functions =>
      FunctionSize(i + 1, FIRST_NAME + i);
      BytesSize(5, FunctionBody(i + 1, FIRST_NAME + i));
  }

  lemma {:induction false} RowsSize(h: Histogram, section: Section, n: nat)
    requires HistogramOk(h) && n <= ROWS
    ensures |EncodeAll(RowFields(h, section, n))| <= 36 * n
    ensures forall k :: 0 <= k < |RowFields(h, section, n)| ==> FieldOk(RowFields(h, section, n)[k])
  {
    hide Encode, RowField, FieldOk;
    if n > 0 {
      RowsSize(h, section, n - 1);
      RowSize(h, section, n - 1);
      var f := RowField(h, section, n - 1);
      EncodeOne(f);
      EncodeConcat(RowFields(h, section, n - 1), [f]);
      if CountOf(h, n - 1) == 0 {
        assert RowFields(h, section, n - 1) + [] == RowFields(h, section, n - 1);
      }
    }
  }

  lemma NameSize(k: nat)
    requires k < FIRST_NAME + ROWS
    ensures |Name(k)| <= 14
  {
    if FIRST_NAME <= k < FIRST_NAME + CLASSES {
      ThreeDigits(k - FIRST_NAME);
    }
  }

  lemma {:induction false} NamesSize(n: nat)
    requires n <= FIRST_NAME + ROWS
    ensures |EncodeAll(NameFields(n))| <= 16 * n
    ensures |NameFields(n)| == n && forall k :: 0 <= k < n ==> NameFields(n)[k] == Bytes(6, Name(k)) && FieldOk(NameFields(n)[k])
  {
    hide Encode, FieldOk, Name;
    if n > 0 {
      NamesSize(n - 1);
      NameSize(n - 1);
      var f := Bytes(6, Name(n - 1));
      BytesSize(6, Name(n - 1));
      EncodeOne(f);
      EncodeConcat(NameFields(n - 1), [f]);
    }
  }

  lemma TypesSize()
    ensures |EncodeAll(TypeFields())| <= 48
    ensures |TypeFields()| == 2 && forall k :: 0 <= k < 2 ==> FieldOk(TypeFields()[k])
  {}

  /** Whatever the histogram holds, the profile fits its buffer with room to spare. */
  lemma ProfileFits(h: Histogram)
    requires HistogramOk(h)
    ensures |EncodeAll(ProfileFields(h))| <= 5336 < BUFFER
    ensures forall k :: 0 <= k < |ProfileFields(h)| ==> FieldOk(ProfileFields(h)[k])
  {
    hide Encode, FieldOk, RowFields, NameFields, TypeFields;
    var t, s, l, f, n := TypeFields(), RowFields(h, Samples, ROWS), RowFields(h, Locations, ROWS),
                         RowFields(h, Functions, ROWS), NameFields(FIRST_NAME + ROWS);
    TypesSize();
    RowsSize(h, Samples, ROWS);
    RowsSize(h, Locations, ROWS);
    RowsSize(h, Functions, ROWS);
    NamesSize(FIRST_NAME + ROWS);
    EncodeConcat(t, s);
    EncodeConcat(t + s, l);
    EncodeConcat(t + s + l, f);
    EncodeConcat(t + s + l + f, n);
  }

  // ---------------------------------------------------------------------
  // The encoder
  // ---------------------------------------------------------------------

  method EmitValueType(out: array<byte>, off: nat, kind: nat, unit: nat) returns (r: Option<nat>)
    requires off <= out.Length && kind < U64 && unit < U64
    modifies out
    ensures Wrote(old(out[..]), out[..], off, Encode(ValueType(kind, unit)), r)
  {
    hide Encode;
    ValueTypeSize(kind, unit);
    EncodeTwo(Number(1, kind), Number(2, unit));
    var inner := new byte[32];
    var n := WriteField(inner, 0, 1, kind);
    n := WriteField(inner, n.value, 2, unit);
    assert inner[..n.value] == EncodeAll([Number(1, kind), Number(2, unit)]);
    r := WriteBytesField(out, off, 1, inner[..n.value]);
  }

  /** Identifiers beyond the scratch buffer are reported as an overflow. */
  method EmitFunction(out: array<byte>, off: nat, id: nat, name: nat) returns (r: Option<nat>)
    requires off <= out.Length
    modifies out
    ensures |FunctionBody(id, name)| <= 32 ==> Wrote(old(out[..]), out[..], off, Encode(Bytes(5, FunctionBody(id, name))), r)
    ensures |FunctionBody(id, name)| > 32 ==> r.None? && out[..] == old(out[..])
  {
    hide Encode;
    EncodeThree(Number(1, id), Number(2, name), Number(3, name));
    var inner := new byte[32];
    var n := WriteField(inner, 0, 1, id);
    if n.None? {
      return None;
    }
    n := WriteField(inner, n.value, 2, name);
    if n.None? {
      return None;
    }
    n := WriteField(inner, n.value, 3, name);
    if n.None? {
      return None;
    }
    assert inner[..n.value] == FunctionBody(id, name);
    r := WriteBytesField(out, off, 5, inner[..n.value]);
  }

  method EmitLocation(out: array<byte>, off: nat, id: nat, function_: nat) returns (r: Option<nat>)
    requires off <= out.Length && id < U64 && function_ < U64
    modifies out
    ensures Wrote(old(out[..]), out[..], off, Encode(Bytes(4, LocationBody(id, function_))), r)
  {
    hide Encode;
    LocationSize(id, function_);
    var lineBuf := new byte[16];
    var m := WriteField(lineBuf, 0, 1, function_);
    var line := lineBuf[..m.value];
    EncodeOne(Number(1, function_));
    assert line == EncodeAll([Number(1, function_)]);
    EncodeTwo(Number(1, id), Bytes(4, line));
    var inner := new byte[64];
    var n := WriteField(inner, 0, 1, id);
    n := WriteBytesField(inner, n.value, 4, line);
    assert inner[..n.value] == LocationBody(id, function_);
    r := WriteBytesField(out, off, 4, inner[..n.value]);
  }

  method EmitSample(out: array<byte>, off: nat, location: nat, count: nat, bytes: nat) returns (r: Option<nat>)
    requires off <= out.Length && location < U64 && count < U64 && bytes < U64
    modifies out
    ensures Wrote(old(out[..]), out[..], off, Encode(Bytes(2, SampleBody(location, count, bytes))), r)
  {
    hide Encode, Varint;
    SampleSize(location, count, bytes);
    var locs := new byte[16];
    var m := WriteVarint(locs, 0, location);
    var vals := new byte[32];
    var v := WriteVarint(vals, 0, count);
    v := WriteVarint(vals, v.value, bytes);
    var ls, vs := locs[..m.value], vals[..v.value];
    assert ls == Varint(location) && vs == Varint(count) + Varint(bytes);
    EncodeTwo(Bytes(1, ls), Bytes(2, vs));
    var inner := new byte[64];
    var n := WriteBytesField(inner, 0, 1, ls);
    n := WriteBytesField(inner, n.value, 2, vs);
    assert inner[..n.value] == SampleBody(location, count, bytes);
    r := WriteBytesField(out, off, 2, inner[..n.value]);
  }

  method EmitSampleTypes(buf: array<byte>, off: nat) returns (r: Option<nat>)
    requires off <= buf.Length
    modifies buf
    ensures Wrote(old(buf[..]), buf[..], off, EncodeAll(TypeFields()), r)
  {
    hide Encode, ValueType;
    EncodeTwo(ValueType(1, 2), ValueType(3, 4));
    ghost var b0 := buf[..];
    r := EmitValueType(buf, off, 1, 2);
    ghost var b1 := buf[..];
    if r.None? {
      WroteNone(b0, b1, off, Encode(ValueType(1, 2)), Encode(ValueType(3, 4)));
      return;
    }
    var at := r.value;
    r := EmitValueType(buf, at, 3, 4);
    WroteThen(b0, b1, buf[..], off, Encode(ValueType(1, 2)), at, Encode(ValueType(3, 4)), r);
  }

  lemma {:induction false} RowsGrow(h: Histogram, section: Section, m: nat, n: nat)
    requires |h.counts| == |h.bytes| == CLASSES && m <= n <= ROWS
    ensures exists rest :: RowFields(h, section, n) == RowFields(h, section, m) + rest
    decreases n
  {
    if m == n {
      assert RowFields(h, section, n) == RowFields(h, section, m) + [];
    } else {
      RowsGrow(h, section, m, n - 1);
      var rest :| RowFields(h, section, n - 1) == RowFields(h, section, m) + rest;
      var last := if CountOf(h, n - 1) > 0 then [RowField(h, section, n - 1)] else [];
      assert RowFields(h, section, n) == RowFields(h, section, m) + (rest + last);
    }
  }

  /** A section cut short by a full buffer would not have fitted as a whole. */
  lemma RowsCutShort(h: Histogram, section: Section, m: nat, b0: seq<byte>, b1: seq<byte>, off: nat)
    requires |h.counts| == |h.bytes| == CLASSES && m <= ROWS
    requires Wrote(b0, b1, off, EncodeAll(RowFields(h, section, m)), None)
    ensures Wrote(b0, b1, off, EncodeAll(RowFields(h, section, ROWS)), None)
  {
    RowsGrow(h, section, m, ROWS);
    var rest :| RowFields(h, section, ROWS) == RowFields(h, section, m) + rest;
    EncodeConcat(RowFields(h, section, m), rest);
  }

  lemma RowAppended(h: Histogram, section: Section, i: nat)
    requires |h.counts| == |h.bytes| == CLASSES && i < ROWS
    ensures EncodeAll(RowFields(h, section, i + 1)) ==
            EncodeAll(RowFields(h, section, i)) + (if CountOf(h, i) > 0 then Encode(RowField(h, section, i)) else [])
  {
    hide Encode, RowField;
    EncodeOne(RowField(h, section, i));
    EncodeConcat(RowFields(h, section, i), [RowField(h, section, i)]);
    assert RowFields(h, section, i) + [] == RowFields(h, section, i);
  }

  method EmitRow(buf: array<byte>, off: nat, h: Histogram, section: Section, i: nat) returns (r: Option<nat>)
    requires off <= buf.Length && HistogramOk(h) && i < ROWS
    modifies buf
    ensures Wrote(old(buf[..]), buf[..], off, Encode(RowField(h, section, i)), r)
  {
    hide Encode, SampleBody, LocationBody, FunctionBody;
    match section
    case Samples => r := EmitSample(buf, off, i + 1, CountOf(h, i), BytesOf(h, i));
    case Locations => r := EmitLocation(buf, off, i + 1, i + 1);
    case Functions =>
      FunctionSize(i + 1, FIRST_NAME + i);
      r := EmitFunction(buf, off, i + 1, FIRST_NAME + i);
  }

  /** The samples, locations or functions of the rows in use, Huge last. */
  method EmitRows(buf: array<byte>, off: nat, h: Histogram, section: Section) returns (r: Option<nat>)
    requires off <= buf.Length && HistogramOk(h)
    modifies buf
    ensures Wrote(old(buf[..]), buf[..], off, EncodeAll(RowFields(h, section, ROWS)), r)
  {
    hide Encode, RowField, RowFields, EncodeAll, Wrote;
    ghost var b0 := buf[..];
    var at := off;
    var i := 0;
    NoRows(h, section);
    WroteNothing(b0, off);
    while i < ROWS
      invariant 0 <= i <= ROWS && off <= at <= buf.Length
      invariant Wrote(b0, buf[..], off, EncodeAll(RowFields(h, section, i)), Some(at))
    {
      RowAppended(h, section, i);
      ghost var done, row := EncodeAll(RowFields(h, section, i)), Encode(RowField(h, section, i));
      if CountOf(h, i) > 0 {
        ghost var b1 := buf[..];
        r := EmitRow(buf, at, h, section, i);
        WroteThen(b0, b1, buf[..], off, done, at, row, r);
        if r.None? {
          RowsCutShort(h, section, i + 1, b0, buf[..], off);
          return;
        }
        at := r.value;
      } else {
        assert done + [] == done;
      }
      i := i + 1;
    }
    return Some(at);
  }

  lemma NoRows(h: Histogram, section: Section)
    requires |h.counts| == |h.bytes| == CLASSES
    ensures EncodeAll(RowFields(h, section, 0)) == []
  {}

  lemma {:induction false} NamesGrow(m: nat, n: nat)
    requires m <= n <= FIRST_NAME + ROWS
    ensures exists rest :: NameFields(n) == NameFields(m) + rest
    decreases n
  {
    if m == n {
      assert NameFields(n) == NameFields(m) + [];
    } else {
      NamesGrow(m, n - 1);
      var rest :| NameFields(n - 1) == NameFields(m) + rest;
      assert NameFields(n) == NameFields(m) + (rest + [Bytes(6, Name(n - 1))]);
    }
  }

  lemma NamesCutShort(m: nat, b0: seq<byte>, b1: seq<byte>, off: nat)
    requires m <= FIRST_NAME + ROWS && Wrote(b0, b1, off, EncodeAll(NameFields(m)), None)
    ensures Wrote(b0, b1, off, EncodeAll(NameFields(FIRST_NAME + ROWS)), None)
  {
    NamesGrow(m, FIRST_NAME + ROWS);
    var rest :| NameFields(FIRST_NAME + ROWS) == NameFields(m) + rest;
    EncodeConcat(NameFields(m), rest);
  }

  lemma NameAppended(k: nat)
    requires k < FIRST_NAME + ROWS
    ensures EncodeAll(NameFields(k + 1)) == EncodeAll(NameFields(k)) + Encode(Bytes(6, Name(k)))
    ensures EncodeAll(NameFields(0)) == []
  {
    hide Encode;
    EncodeOne(Bytes(6, Name(k)));
    EncodeConcat(NameFields(k), [Bytes(6, Name(k))]);
  }

  lemma {:induction false} DecimalReads(n: nat)
    ensures ValueOf(Decimal(n)) == n
    decreases n
  {
    if n < 10 {
      assert [48 + n][..0] == [];
    } else {
      DecimalReads(n / 10);
      assert Decimal(n)[..|Decimal(n)| - 1] == Decimal(n / 10);
    }
  }

  lemma {:induction false} DecimalDigits(n: nat)
    ensures forall k :: 0 <= k < |Decimal(n)| ==> 48 <= Decimal(n)[k] as int <= 57
    decreases n
  {
    if n >= 10 {
      DecimalDigits(n / 10);
    }
  }

  /** No two entries of the string table are the same, so an index names one thing only. */
  lemma NamesDiffer(j: nat, k: nat)
    requires j < k < FIRST_NAME + ROWS
    ensures Name(j) != Name(k)
  {
    hide Decimal;
    if k < FIRST_NAME {
      FixedDiffer(j, k);
    } else if j < FIRST_NAME {
      FixedApart(j);
    } else if k < FIRST_NAME + CLASSES {
      var a, b := j - FIRST_NAME, k - FIRST_NAME;
      DecimalReads(a);
      DecimalReads(b);
      assert ClassName(a)[|SIZE_CLASS|..] == Decimal(a) && ClassName(b)[|SIZE_CLASS|..] == Decimal(b);
    } else {
      assert ClassName(j - FIRST_NAME)[0] == 115 && HUGE_NAME[0] == 104;
    }
  }

  function Ascii(text: string): seq<byte>
    requires forall i :: 0 <= i < |text| ==> text[i] < 256 as char
  {
    seq(|text|, i requires 0 <= i < |text| => text[i] as nat)
  }

  /** The strings as the format's readers spell them. */
  lemma StringsSpelled()
    ensures FIXED[0] == Ascii("") && FIXED[1] == Ascii("alloc_objects") && FIXED[2] == Ascii("count")
    ensures FIXED[3] == Ascii("alloc_space") && FIXED[4] == Ascii("bytes")
    ensures SIZE_CLASS == Ascii("size_class_") && HUGE_NAME == Ascii("huge")
  {}

  lemma FixedDiffer(j: nat, k: nat)
    requires j < k < FIRST_NAME
    ensures FIXED[j] != FIXED[k]
  {
    assert FIXED[0] == [] && |FIXED[1]| == 13 && |FIXED[2]| == 5 && |FIXED[3]| == 11 && |FIXED[4]| == 5;
    assert FIXED[2][0] == 99 && FIXED[4][0] == 98;
  }

  /** The fixed names start with other letters than those of the rows. */
  lemma FixedApart(j: nat)
    requires j < FIRST_NAME
    ensures FIXED[j] != [] ==> FIXED[j][0] != 115 && FIXED[j][0] != 104
  {}

  /**
   The class name into a 16-byte scratch buffer, digit by digit: the fixed
   prefix, then digits that read back as the class.
   */
  method FormatClassName(cls: nat) returns (name: seq<byte>)
    requires cls < 1000
    ensures name == ClassName(cls) && |name| <= 16
    ensures name[..|SIZE_CLASS|] == SIZE_CLASS && ValueOf(name[|SIZE_CLASS|..]) == cls
    ensures forall k :: |SIZE_CLASS| <= k < |name| ==> 48 <= name[k] as int <= 57
  {
    ThreeDigits(cls);
    DecimalReads(cls);
    DecimalDigits(cls);
    var buf := new byte[16];
    var off := |SIZE_CLASS|;
    forall k | 0 <= k < off {
      buf[k] := SIZE_CLASS[k];
    }
    if cls >= 100 {
      buf[off] := 48 + cls / 100;
      off := off + 1;
    }
    if cls >= 10 {
      buf[off] := 48 + cls / 10 % 10;
      off := off + 1;
    }
    buf[off] := 48 + cls % 10;
    off := off + 1;
    name := buf[..off];
  }

  lemma ThreeDigits(n: nat)
    requires n < 1000
    ensures Decimal(n) == if n >= 100 then [48 + n / 100, 48 + n / 10 % 10, 48 + n % 10]
                          else if n >= 10 then [48 + n / 10, 48 + n % 10] else [48 + n]
  {
    assert n >= 100 ==> Decimal(n / 10) == [48 + n / 100] + [48 + n / 10 % 10];
  }

  method NameAt(k: nat) returns (name: seq<byte>)
    requires k < FIRST_NAME + ROWS
    ensures name == Name(k)
  {
    if k < FIRST_NAME {
      name := FIXED[k];
    } else if k < FIRST_NAME + CLASSES {
      name := FormatClassName(k - FIRST_NAME);
    } else {
      name := HUGE_NAME;
    }
  }

  method EmitStringTable(buf: array<byte>, off: nat) returns (r: Option<nat>)
    requires off <= buf.Length
    modifies buf
    ensures Wrote(old(buf[..]), buf[..], off, EncodeAll(NameFields(FIRST_NAME + ROWS)), r)
  {
    hide Encode, NameFields, EncodeAll, Wrote, Name;
    ghost var b0 := buf[..];
    var at := off;
    var k := 0;
    NameAppended(0);
    WroteNothing(b0, off);
    while k < FIRST_NAME + ROWS
      invariant 0 <= k <= FIRST_NAME + ROWS && off <= at <= buf.Length
      invariant Wrote(b0, buf[..], off, EncodeAll(NameFields(k)), Some(at))
    {
      NameAppended(k);
      ghost var b1 := buf[..];
      var name := NameAt(k);
      r := WriteBytesField(buf, at, 6, name);
      WroteThen(b0, b1, buf[..], off, EncodeAll(NameFields(k)), at, Encode(Bytes(6, Name(k))), r);
      if r.None? {
        NamesCutShort(k + 1, b0, buf[..], off);
        return;
      }
      at := r.value;
      k := k + 1;
    }
    return Some(at);
  }

  lemma ProfileParts(h: Histogram)
    requires HistogramOk(h)
    ensures EncodeAll(ProfileFields(h)) ==
            EncodeAll(TypeFields()) + EncodeAll(RowFields(h, Samples, ROWS)) + EncodeAll(RowFields(h, Locations, ROWS))
            + EncodeAll(RowFields(h, Functions, ROWS)) + EncodeAll(NameFields(FIRST_NAME + ROWS))
  {
    hide EncodeAll, RowFields, NameFields, TypeFields;
    var t, s, l, f, n := TypeFields(), RowFields(h, Samples, ROWS), RowFields(h, Locations, ROWS),
                         RowFields(h, Functions, ROWS), NameFields(FIRST_NAME + ROWS);
    EncodeConcat(t, s);
    EncodeConcat(t + s, l);
    EncodeConcat(t + s + l, f);
    EncodeConcat(t + s + l + f, n);
  }

  lemma FitsSoFar(before: seq<byte>, after: seq<byte>, off: nat, done: seq<byte>, rest: seq<byte>, r: Option<nat>)
    requires Wrote(before, after, off, done, r) && off + |done + rest| <= |before|
    ensures r.Some?
  {}

  /** The profile of any histogram is encoded in full: the 64 KiB buffer never overflows. */
  method EncodeHeapProfile(buf: array<byte>, h: Histogram) returns (r: Option<nat>)
    requires buf.Length == BUFFER && HistogramOk(h)
    modifies buf
    ensures r.Some? && r.value <= BUFFER && buf[..r.value] == EncodeAll(ProfileFields(h))
  {
    ProfileFits(h);
    ProfileParts(h);
    hide EncodeAll, RowFields, NameFields, TypeFields, ProfileFields, Wrote;
    ghost var b0 := buf[..];
    ghost var t, s, l, f, n := EncodeAll(TypeFields()), EncodeAll(RowFields(h, Samples, ROWS)),
      EncodeAll(RowFields(h, Locations, ROWS)), EncodeAll(RowFields(h, Functions, ROWS)), EncodeAll(NameFields(FIRST_NAME + ROWS));
    r := EmitSampleTypes(buf, 0);
    ghost var b1 := buf[..];
    FitsSoFar(b0, b1, 0, t, s + l + f + n, r);
    Within(b0, b1, 0, t, r);
    var at := r.value;
    r := EmitRows(buf, at, h, Samples);
    ghost var b2 := buf[..];
    WroteThen(b0, b1, b2, 0, t, at, s, r);
    FitsSoFar(b0, b2, 0, t + s, l + f + n, r);
    at := r.value;
    r := EmitRows(buf, at, h, Locations);
    ghost var b3 := buf[..];
    WroteThen(b0, b2, b3, 0, t + s, at, l, r);
    FitsSoFar(b0, b3, 0, t + s + l, f + n, r);
    at := r.value;
    r := EmitRows(buf, at, h, Functions);
    ghost var b4 := buf[..];
    WroteThen(b0, b3, b4, 0, t + s + l, at, f, r);
    FitsSoFar(b0, b4, 0, t + s + l + f, n, r);
    at := r.value;
    r := EmitStringTable(buf, at);
    WroteThen(b0, b4, buf[..], 0, t + s + l + f, at, n, r);
    FitsSoFar(b0, buf[..], 0, t + s + l + f + n, [], r);
    Within(b0, buf[..], 0, t + s + l + f + n, r);
  }

  lemma Within(before: seq<byte>, after: seq<byte>, off: nat, bytes: seq<byte>, r: Option<nat>)
    requires Wrote(before, after, off, bytes, r) && r.Some?
    ensures off <= r.value <= |before| == |after| && after[off..r.value] == bytes
  {}
}
