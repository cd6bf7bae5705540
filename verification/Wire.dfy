/**
 The protocol buffer wire encoding: varints, tags, length-delimited fields,
 a decoder for them, and the writers that store into a bounded buffer.
 */
module Wire {
  import opened Basics

  type byte = x: nat | x < 256

  const U64: nat := 0x1_0000_0000_0000_0000
  const VARINT_MAX: nat := 10

  // ---------------------------------------------------------------------
  // Varints
  // ---------------------------------------------------------------------

  /** Seven bits at a time, least significant first; the high bit says that more follow. */
  function Varint(v: nat): seq<byte> {
    if v < 128 then [v] else [v % 128 + 128] + Varint(v / 128)
  }

  /** Reads one varint of at most `limit` bytes; also returns how many it took. */
  function ReadVarint(bs: seq<byte>, limit: nat): Option<(nat, nat)>
    decreases limit
  {
    if bs == [] || limit == 0 then None
    else if bs[0] < 128 then Some((bs[0], 1))
    else
      match ReadVarint(bs[1..], limit - 1)
      case None => None
      case Some((v, n)) => Some((v * 128 + (bs[0] - 128), n + 1))
  }

  lemma {:induction false} ReadWritten(v: nat, rest: seq<byte>, limit: nat)
    requires |Varint(v)| <= limit
    ensures ReadVarint(Varint(v) + rest, limit) == Some((v, |Varint(v)|))
    decreases v
  {
    var bs := Varint(v) + rest;
    if v >= 128 {
      assert bs[1..] == Varint(v / 128) + rest;
      ReadWritten(v / 128, rest, limit - 1);
    }
  }

  lemma {:induction false} ReadConsumes(bs: seq<byte>, limit: nat)
    ensures ReadVarint(bs, limit).Some? ==> 0 < ReadVarint(bs, limit).value.1 <= |bs|
    decreases limit
  {
    if bs != [] && limit > 0 && bs[0] >= 128 {
      ReadConsumes(bs[1..], limit - 1);
    }
  }

  function Power128(k: nat): nat {
    if k == 0 then 1 else 128 * Power128(k - 1)
  }

  lemma {:induction false} VarintLength(v: nat, k: nat)
    requires k > 0 && v < Power128(k)
    ensures 0 < |Varint(v)| <= k
    decreases k
  {
    if v >= 128 {
      VarintLength(v / 128, k - 1);
    }
  }

  lemma Varint64(v: nat)
    requires v < U64
    ensures 0 < |Varint(v)| <= VARINT_MAX
  {
    assert Power128(2) == 16384;
    assert Power128(4) == 268435456;
    assert Power128(6) == 4398046511104;
    assert Power128(8) == 72057594037927936;
    assert Power128(10) == 1180591620717411303424;
    VarintLength(v, 10);
  }

  // ---------------------------------------------------------------------
  // Fields and messages
  // ---------------------------------------------------------------------

  datatype Field = Number(num: nat, value: nat) | Bytes(num: nat, payload: seq<byte>)

  function Tag(f: Field): nat {
    f.num * 8 + (if f.Number? then 0 else 2)
  }

  function Encode(f: Field): seq<byte> {
    match f
    case Number(num, value) => Varint(Tag(f)) + Varint(value)
    case Bytes(num, payload) => Varint(Tag(f)) + Varint(|payload|) + payload
  }

  function EncodeAll(fs: seq<Field>): seq<byte> {
    if fs == [] then [] else Encode(fs[0]) + EncodeAll(fs[1..])
  }

  ghost predicate FieldOk(f: Field) {
    && 0 < f.num && Tag(f) < U64
    && (if f.Number? then f.value < U64 else |f.payload| < U64)
  }

  /** Reads the first field; also returns how many bytes it took. */
  function DecodeOne(bs: seq<byte>): Option<(Field, nat)> {
    match ReadVarint(bs, VARINT_MAX)
    case None => None
    case Some((tag, n)) =>
      ReadConsumes(bs, VARINT_MAX);
      match ReadVarint(bs[n..], VARINT_MAX)
      case None => None
      case Some((v, m)) =>
        ReadConsumes(bs[n..], VARINT_MAX);
        if tag % 8 == 0 then Some((Number(tag / 8, v), n + m))
        else if tag % 8 == 2 && n + m + v <= |bs| then Some((Bytes(tag / 8, bs[n + m..n + m + v]), n + m + v))
        else None
  }

  lemma DecodeConsumes(bs: seq<byte>)
    ensures DecodeOne(bs).Some? ==> 0 < DecodeOne(bs).value.1 <= |bs|
  {
    hide ReadVarint;
    ReadConsumes(bs, VARINT_MAX);
    match ReadVarint(bs, VARINT_MAX)
    case None =>
    case Some((tag, n)) => ReadConsumes(bs[n..], VARINT_MAX);
  }

  function DecodeAll(bs: seq<byte>): Option<seq<Field>>
    decreases |bs|
  {
    if bs == [] then Some([])
    else
      DecodeConsumes(bs);
      match DecodeOne(bs)
      case None => None
      case Some((f, n)) =>
        match DecodeAll(bs[n..])
        case None => None
        case Some(fs) => Some([f] + fs)
  }

  lemma DecodeFirst(bs: seq<byte>, f: Field, n: nat, fs: seq<Field>)
    requires bs != [] && n <= |bs| && DecodeOne(bs) == Some((f, n)) && DecodeAll(bs[n..]) == Some(fs)
    ensures DecodeAll(bs) == Some([f] + fs)
  {
    hide DecodeOne;
  }

  lemma DecodeParts(bs: seq<byte>, tag: nat, n: nat, v: nat, m: nat)
    requires ReadVarint(bs, VARINT_MAX) == Some((tag, n)) && n <= |bs| && ReadVarint(bs[n..], VARINT_MAX) == Some((v, m))
    ensures n + m <= |bs|
    ensures DecodeOne(bs) == if tag % 8 == 0 then Some((Number(tag / 8, v), n + m))
                             else if tag % 8 == 2 && n + m + v <= |bs| then Some((Bytes(tag / 8, bs[n + m..n + m + v]), n + m + v))
                             else None
  {
    hide ReadVarint;
    ReadConsumes(bs[n..], VARINT_MAX);
  }

  lemma DecodeEncoded(f: Field, rest: seq<byte>)
    requires FieldOk(f)
    ensures DecodeOne(Encode(f) + rest) == Some((f, |Encode(f)|)) && Encode(f) != []
  {
    hide Varint, ReadVarint, DecodeOne;
    var tag := Varint(Tag(f));
    var second := if f.Number? then f.value else |f.payload|;
    var body := if f.Number? then [] else f.payload;
    var bs := Encode(f) + rest;
    assert bs == tag + (Varint(second) + (body + rest));
    Varint64(Tag(f));
    ReadWritten(Tag(f), Varint(second) + (body + rest), VARINT_MAX);
    assert bs[|tag|..] == Varint(second) + (body + rest);
    Varint64(second);
    ReadWritten(second, body + rest, VARINT_MAX);
    DecodeParts(bs, Tag(f), |tag|, second, |Varint(second)|);
    if f.Bytes? {
      var n := |tag| + |Varint(second)|;
      assert bs[n..] == body + rest;
      assert bs[n..n + |body|] == body;
    }
  }

  /** Any message of well-formed fields is read back field by field. */
  lemma {:induction false} RoundTrip(fs: seq<Field>)
    requires forall k :: 0 <= k < |fs| ==> FieldOk(fs[k])
    ensures DecodeAll(EncodeAll(fs)) == Some(fs)
    decreases |fs|
  {
    if fs != [] {
      hide Encode, DecodeOne, FieldOk;
      var f, rest := fs[0], EncodeAll(fs[1..]);
      var bs := Encode(f) + rest;
      assert EncodeAll(fs) == bs && bs[|Encode(f)|..] == rest;
      DecodeEncoded(f, rest);
      RoundTrip(fs[1..]);
      DecodeFirst(bs, f, |Encode(f)|, fs[1..]);
      assert fs == [f] + fs[1..];
    }
  }

  lemma {:induction false} EncodeConcat(xs: seq<Field>, ys: seq<Field>)
    ensures EncodeAll(xs + ys) == EncodeAll(xs) + EncodeAll(ys)
    decreases |xs|
  {
    hide Encode;
    if xs == [] {
      assert xs + ys == ys;
    } else {
      var rest := xs[1..] + ys;
      assert (xs + ys)[0] == xs[0] && (xs + ys)[1..] == rest;
      assert EncodeAll(xs + ys) == Encode(xs[0]) + EncodeAll(rest);
      EncodeConcat(xs[1..], ys);
    }
  }

  // ---------------------------------------------------------------------
  // Writers into a bounded buffer
  // ---------------------------------------------------------------------

  /** `bytes` stand behind the first `off` bytes, or there was no room for them. */
  ghost predicate Wrote(before: seq<byte>, after: seq<byte>, off: nat, bytes: seq<byte>, r: Option<nat>) {
    && |after| == |before| && off <= |before|
    && (if off + |bytes| <= |before| then
          r == Some(off + |bytes|) && after[..off + |bytes|] == before[..off] + bytes
        else r.None? && after[..off] == before[..off])
  }

  lemma WroteThen(b0: seq<byte>, b1: seq<byte>, b2: seq<byte>, off: nat, xs: seq<byte>, mid: nat, ys: seq<byte>, r: Option<nat>)
    requires Wrote(b0, b1, off, xs, Some(mid)) && Wrote(b1, b2, mid, ys, r)
    ensures Wrote(b0, b2, off, xs + ys, r)
    ensures r.Some? ==> off <= mid <= r.value <= |b2| == |b0|
  {}

  lemma WroteNone(b0: seq<byte>, b1: seq<byte>, off: nat, xs: seq<byte>, ys: seq<byte>)
    requires Wrote(b0, b1, off, xs, None)
    ensures Wrote(b0, b1, off, xs + ys, None)
  {}

  lemma WroteNothing(b: seq<byte>, off: nat)
    requires off <= |b|
    ensures Wrote(b, b, off, [], Some(off))
  {}

  method WriteByte(buf: array<byte>, off: nat, b: byte) returns (r: Option<nat>)
    requires off <= buf.Length
    modifies buf
    ensures Wrote(old(buf[..]), buf[..], off, [b], r)
  {
    if off >= buf.Length {
      return None;
    }
    buf[off] := b;
    return Some(off + 1);
  }

  method WriteVarint(buf: array<byte>, off: nat, v: nat) returns (r: Option<nat>)
    requires off <= buf.Length
    modifies buf
    ensures Wrote(old(buf[..]), buf[..], off, Varint(v), r)
  {
    var value, at := v, off;
    ghost var done: seq<byte> := [];
    WroteNothing(buf[..], off);
    while value >= 128
      invariant off <= at <= buf.Length
      invariant Wrote(old(buf[..]), buf[..], off, done, Some(at))
      invariant Varint(v) == done + Varint(value)
      decreases value
    {
      hide Wrote;
      ghost var before, b := buf[..], value % 128 + 128;
      r := WriteByte(buf, at, value % 128 + 128);
      ghost var done' := done + [b];
      assert Varint(v) == done' + Varint(value / 128);
      if r.None? {
        WroteThen(old(buf[..]), before, buf[..], off, done, at, [b], r);
        WroteNone(old(buf[..]), buf[..], off, done', Varint(value / 128));
        return None;
      }
      WroteThen(old(buf[..]), before, buf[..], off, done, at, [b], r);
      done := done';
      at := r.value;
      value := value / 128;
    }
    ghost var before := buf[..];
    r := WriteByte(buf, at, value);
    WroteThen(old(buf[..]), before, buf[..], off, done, at, [value], r);
  }

  method WriteField(buf: array<byte>, off: nat, num: nat, value: nat) returns (r: Option<nat>)
    requires off <= buf.Length
    modifies buf
    ensures Wrote(old(buf[..]), buf[..], off, Encode(Number(num, value)), r)
  {
    r := WriteVarint(buf, off, num * 8);
    ghost var mid := buf[..];
    if r.None? {
      WroteNone(old(buf[..]), mid, off, Varint(num * 8), Varint(value));
      return;
    }
    var at := r.value;
    r := WriteVarint(buf, at, value);
    WroteThen(old(buf[..]), mid, buf[..], off, Varint(num * 8), at, Varint(value), r);
  }

  method WriteBytesField(buf: array<byte>, off: nat, num: nat, data: seq<byte>) returns (r: Option<nat>)
    requires off <= buf.Length
    modifies buf
    ensures Wrote(old(buf[..]), buf[..], off, Encode(Bytes(num, data)), r)
  {
    var tag := num * 8 + 2;
    ghost var b0 := buf[..];
    r := WriteVarint(buf, off, tag);
    ghost var b1 := buf[..];
    if r.None? {
      WroteNone(b0, b1, off, Varint(tag), Varint(|data|));
      WroteNone(b0, b1, off, Varint(tag) + Varint(|data|), data);
      return;
    }
    var at := r.value;
    r := WriteVarint(buf, at, |data|);
    ghost var b2 := buf[..];
    WroteThen(b0, b1, b2, off, Varint(tag), at, Varint(|data|), r);
    if r.None? {
      WroteNone(b0, b2, off, Varint(tag) + Varint(|data|), data);
      return;
    }
    at := r.value;
    r := CopyIn(buf, at, data);
    WroteThen(b0, b2, buf[..], off, Varint(tag) + Varint(|data|), at, data, r);
  }

  method CopyIn(buf: array<byte>, off: nat, data: seq<byte>) returns (r: Option<nat>)
    requires off <= buf.Length
    modifies buf
    ensures Wrote(old(buf[..]), buf[..], off, data, r)
  {
    if off + |data| > buf.Length {
      return None;
    }
    forall k | 0 <= k < |data| {
      buf[off + k] := data[k];
    }
    return Some(off + |data|);
  }
}
