/**
 Reading a profile back: a decoder for the Profile message, and the proof
 that it recovers from the encoder's output every class that saw a request,
 with its counts and its name.
 */
module Profile {
  import opened Basics
  import opened SizeClass
  import opened Wire
  import opened Pprof
  import Gzip

  // ---------------------------------------------------------------------
  // The decoder
  // ---------------------------------------------------------------------

  datatype Item =
    | Sample(locations: seq<nat>, values: seq<nat>)
    | Location(id: nat, lines: seq<nat>)
    | Function(id: nat, name: nat, systemName: nat)

  datatype Decoded = Decoded(types: seq<(nat, nat)>, samples: seq<Item>, locations: seq<Item>,
                             functions: seq<Item>, strings: seq<seq<byte>>)

  /** A scalar field: the last one wins, and one left out is zero. */
  function NumberIn(fs: seq<Field>, num: nat): nat {
    if fs == [] then 0
    else
      var last := fs[|fs| - 1];
      if last.Number? && last.num == num then last.value else NumberIn(fs[..|fs| - 1], num)
  }

  /** The payloads of a repeated length-delimited field, in order. */
  function PayloadsIn(fs: seq<Field>, num: nat): seq<seq<byte>> {
    if fs == [] then []
    else (if fs[0].Bytes? && fs[0].num == num then [fs[0].payload] else []) + PayloadsIn(fs[1..], num)
  }

  function ReadPacked(bs: seq<byte>): Option<seq<nat>>
    decreases |bs|
  {
    if bs == [] then Some([])
    else
      ReadConsumes(bs, VARINT_MAX);
      match ReadVarint(bs, VARINT_MAX)
      case None => None
      case Some((v, n)) =>
        match ReadPacked(bs[n..])
        case None => None
        case Some(vs) => Some([v] + vs)
  }

  function ReadPackedAll(payloads: seq<seq<byte>>): Option<seq<nat>> {
    if payloads == [] then Some([])
    else
      match (ReadPacked(payloads[0]), ReadPackedAll(payloads[1..]))
      case (Some(xs), Some(ys)) => Some(xs + ys)
      case (_, _) => None
  }

  function LineFunctions(payloads: seq<seq<byte>>): Option<seq<nat>> {
    if payloads == [] then Some([])
    else
      match (DecodeAll(payloads[0]), LineFunctions(payloads[1..]))
      case (Some(fs), Some(rest)) => Some([NumberIn(fs, 1)] + rest)
      case (_, _) => None
  }

  function ReadItem(section: Section, payload: seq<byte>): Option<Item> {
    match DecodeAll(payload)
    case None => None
    case Some(fs) =>
      match section
      case Functions => Some(Function(NumberIn(fs, 1), NumberIn(fs, 2), NumberIn(fs, 3)))
      case Locations =>
        (match LineFunctions(PayloadsIn(fs, 4))
         case None => None
         case Some(lines) => Some(Location(NumberIn(fs, 1), lines)))
      case Samples =>
        match (ReadPackedAll(PayloadsIn(fs, 1)), ReadPackedAll(PayloadsIn(fs, 2)))
        case (Some(locations), Some(values)) => Some(Sample(locations, values))
        case (_, _) => None
  }

  function ReadItems(section: Section, payloads: seq<seq<byte>>): Option<seq<Item>> {
    if payloads == [] then Some([])
    else
      var n := |payloads| - 1;
      match (ReadItems(section, payloads[..n]), ReadItem(section, payloads[n]))
      case (Some(items), Some(item)) => Some(items + [item])
      case (_, _) => None
  }

  function ReadTypes(payloads: seq<seq<byte>>): Option<seq<(nat, nat)>> {
    if payloads == [] then Some([])
    else
      match (DecodeAll(payloads[0]), ReadTypes(payloads[1..]))
      case (Some(fs), Some(rest)) => Some([(NumberIn(fs, 1), NumberIn(fs, 2))] + rest)
      case (_, _) => None
  }

  function FieldNumber(section: Section): nat {
    match section
    case Samples => 2
    case Locations => 4
    case Functions => 5
  }

  function ReadProfile(bs: seq<byte>): Option<Decoded> {
    match DecodeAll(bs)
    case None => None
    case Some(fs) =>
      match (ReadTypes(PayloadsIn(fs, 1)), ReadItems(Samples, PayloadsIn(fs, 2)),
             ReadItems(Locations, PayloadsIn(fs, 4)), ReadItems(Functions, PayloadsIn(fs, 5)))
      case (Some(types), Some(samples), Some(locations), Some(functions)) =>
        Some(Decoded(types, samples, locations, functions, PayloadsIn(fs, 6)))
      case (_, _, _, _) => None
  }

  // ---------------------------------------------------------------------
  // What it should find
  // ---------------------------------------------------------------------

  function RowItem(h: Histogram, section: Section, i: nat): Item
    requires |h.counts| == |h.bytes| == CLASSES && i < ROWS
  {
    match section
    case Samples => Sample([i + 1], [CountOf(h, i), BytesOf(h, i)])
    case Locations => Location(i + 1, [i + 1])
    case Functions => Function(i + 1, FIRST_NAME + i, FIRST_NAME + i)
  }

  function RowItems(h: Histogram, section: Section, n: nat): seq<Item>
    requires |h.counts| == |h.bytes| == CLASSES && n <= ROWS
  {
    if n == 0 then []
    else RowItems(h, section, n - 1) + (if CountOf(h, n - 1) > 0 then [RowItem(h, section, n - 1)] else [])
  }

  function Names(n: nat): seq<seq<byte>>
    requires n <= FIRST_NAME + ROWS
  {
    if n == 0 then [] else Names(n - 1) + [Name(n - 1)]
  }

  function Expected(h: Histogram): Decoded
    requires |h.counts| == |h.bytes| == CLASSES
  {
    Decoded([(1, 2), (3, 4)], RowItems(h, Samples, ROWS), RowItems(h, Locations, ROWS),
            RowItems(h, Functions, ROWS), Names(FIRST_NAME + ROWS))
  }

  // ---------------------------------------------------------------------
  // Items
  // ---------------------------------------------------------------------

  lemma {:induction false} PayloadsConcat(xs: seq<Field>, ys: seq<Field>, num: nat)
    ensures PayloadsIn(xs + ys, num) == PayloadsIn(xs, num) + PayloadsIn(ys, num)
    decreases |xs|
  {
    if xs == [] {
      assert xs + ys == ys;
    } else {
      assert (xs + ys)[1..] == xs[1..] + ys;
      PayloadsConcat(xs[1..], ys, num);
    }
  }

  lemma PayloadsOne(f: Field, num: nat)
    ensures PayloadsIn([f], num) == if f.Bytes? && f.num == num then [f.payload] else []
  {}

  lemma PayloadsAppend(xs: seq<Field>, f: Field, num: nat)
    ensures PayloadsIn(xs + [f], num) == PayloadsIn(xs, num) + (if f.Bytes? && f.num == num then [f.payload] else [])
  {
    PayloadsConcat(xs, [f], num);
    PayloadsOne(f, num);
  }

  lemma PackedOne(v: nat)
    requires v < U64
    ensures ReadPacked(Varint(v)) == Some([v])
  {
    hide Varint, ReadVarint;
    Varint64(v);
    ReadWritten(v, [], VARINT_MAX);
    var bs, none: seq<byte> := Varint(v), [];
    assert bs + none == bs;
    assert bs[|bs|..] == none;
    assert ReadPacked(none) == Some([]);
    assert [v] + [] == [v];
  }

  lemma PackedTwo(v: nat, w: nat)
    requires v < U64 && w < U64
    ensures ReadPacked(Varint(v) + Varint(w)) == Some([v, w])
  {
    hide Varint, ReadVarint;
    Varint64(v);
    ReadWritten(v, Varint(w), VARINT_MAX);
    var bs := Varint(v) + Varint(w);
    assert bs[|Varint(v)|..] == Varint(w);
    PackedOne(w);
    assert [v] + [w] == [v, w];
  }

  lemma PackedAllOne(payload: seq<byte>)
    ensures ReadPackedAll([payload]) == ReadPacked(payload)
  {
    assert [payload][1..] == [];
    match ReadPacked(payload)
    case None =>
    case Some(xs) => assert xs + [] == xs;
  }

  lemma NumberTwo(f: Field, g: Field)
    requires f.Number? && f.num == 1 && (g.Bytes? || g.num == 2)
    ensures NumberIn([f, g], 1) == f.value
    ensures g.Number? ==> NumberIn([f, g], 2) == g.value
  {}

  lemma FunctionReads(id: nat, name: nat)
    requires id < U64 && name < U64
    ensures ReadItem(Functions, FunctionBody(id, name)) == Some(Function(id, name, name))
  {
    hide Encode, EncodeAll, DecodeAll;
    var fs := [Number(1, id), Number(2, name), Number(3, name)];
    NumberSize(1, id);
    NumberSize(2, name);
    NumberSize(3, name);
    RoundTrip(fs);
    assert fs[..2] == [Number(1, id), Number(2, name)];
    NumberTwo(fs[0], fs[1]);
  }

  lemma LocationReads(id: nat, function_: nat)
    requires id < U64 && function_ < U64
    ensures ReadItem(Locations, LocationBody(id, function_)) == Some(Location(id, [function_]))
  {
    hide Encode, EncodeAll, DecodeAll;
    var line := EncodeAll([Number(1, function_)]);
    NumberSize(1, function_);
    RoundTrip([Number(1, function_)]);
    LocationSize(id, function_);
    EncodeOne(Number(1, function_));
    var fs := [Number(1, id), Bytes(4, line)];
    NumberSize(1, id);
    BytesSize(4, line);
    RoundTrip(fs);
    NumberTwo(fs[0], fs[1]);
    assert fs == [fs[0]] + [fs[1]];
    PayloadsConcat([fs[0]], [fs[1]], 4);
    PayloadsOne(fs[0], 4);
    PayloadsOne(fs[1], 4);
    assert PayloadsIn(fs, 4) == [line];
    var none: seq<seq<byte>> := [];
    assert [line][1..] == none;
    assert LineFunctions(none) == Some([]);
    assert LineFunctions([line]) == Some([function_] + []);
    assert [function_] + [] == [function_];
  }

  lemma SampleReads(location: nat, count: nat, bytes: nat)
    requires location < U64 && count < U64 && bytes < U64
    ensures ReadItem(Samples, SampleBody(location, count, bytes)) == Some(Sample([location], [count, bytes]))
  {
    hide Encode, EncodeAll, DecodeAll, Varint, ReadPacked, ReadPackedAll;
    SampleSize(location, count, bytes);
    var locs, vals := Varint(location), Varint(count) + Varint(bytes);
    var f, g := Bytes(1, locs), Bytes(2, vals);
    BytesSize(1, locs);
    BytesSize(2, vals);
    RoundTrip([f, g]);
    assert [f, g] == [f] + [g];
    PayloadsConcat([f], [g], 1);
    PayloadsConcat([f], [g], 2);
    PayloadsOne(f, 1);
    PayloadsOne(f, 2);
    PayloadsOne(g, 1);
    PayloadsOne(g, 2);
    assert PayloadsIn([f, g], 1) == [locs] + [];
    assert PayloadsIn([f, g], 2) == [] + [vals];
    assert [locs] + [] == [locs] && [] + [vals] == [vals];
    PackedAllOne(locs);
    PackedAllOne(vals);
    PackedOne(location);
    PackedTwo(count, bytes);
  }

  lemma RowReads(h: Histogram, section: Section, i: nat)
    requires HistogramOk(h) && i < ROWS
    ensures RowField(h, section, i).Bytes? && RowField(h, section, i).num == FieldNumber(section)
    ensures ReadItem(section, RowField(h, section, i).payload) == Some(RowItem(h, section, i))
  {
    hide ReadItem, SampleBody, LocationBody, FunctionBody;
    match section
    case Samples => SampleReads(i + 1, CountOf(h, i), BytesOf(h, i));
    case Locations => LocationReads(i + 1, i + 1);
    case Functions => FunctionReads(i + 1, FIRST_NAME + i);
  }

  lemma ReadItemsAppend(section: Section, payloads: seq<seq<byte>>, payload: seq<byte>)
    requires ReadItems(section, payloads).Some? && ReadItem(section, payload).Some?
    ensures ReadItems(section, payloads + [payload])
            == Some(ReadItems(section, payloads).value + [ReadItem(section, payload).value])
  {}

  function Bodies(h: Histogram, section: Section, n: nat): seq<seq<byte>>
    requires HistogramOk(h) && n <= ROWS
  {
    if n == 0 then []
    else
      RowReads(h, section, n - 1);
      Bodies(h, section, n - 1) + (if CountOf(h, n - 1) > 0 then [RowField(h, section, n - 1).payload] else [])
  }

  lemma RowStep(h: Histogram, section: Section, n: nat)
    requires HistogramOk(h) && 0 < n <= ROWS
    ensures CountOf(h, n - 1) > 0 ==>
      && RowFields(h, section, n) == RowFields(h, section, n - 1) + [RowField(h, section, n - 1)]
      && RowField(h, section, n - 1).Bytes? && RowField(h, section, n - 1).num == FieldNumber(section)
      && Bodies(h, section, n) == Bodies(h, section, n - 1) + [RowField(h, section, n - 1).payload]
      && RowItems(h, section, n) == RowItems(h, section, n - 1) + [RowItem(h, section, n - 1)]
    ensures CountOf(h, n - 1) == 0 ==>
      && RowFields(h, section, n) == RowFields(h, section, n - 1) && Bodies(h, section, n) == Bodies(h, section, n - 1)
      && RowItems(h, section, n) == RowItems(h, section, n - 1)
  {}

  lemma NoRowsYet(h: Histogram, section: Section, num: nat)
    requires HistogramOk(h)
    ensures RowFields(h, section, 0) == [] && RowItems(h, section, 0) == []
    ensures PayloadsIn(RowFields(h, section, 0), num) == Bodies(h, section, 0) == []
    ensures ReadItems(section, Bodies(h, section, 0)) == Some([])
  {}

  /** Each section's fields carry that section's bodies and nothing of another section. */
  lemma {:induction false} RowsPayloads(h: Histogram, section: Section, n: nat, num: nat)
    requires HistogramOk(h) && n <= ROWS
    ensures PayloadsIn(RowFields(h, section, n), num) == if num == FieldNumber(section) then Bodies(h, section, n) else []
  {
    hide PayloadsIn, RowField, RowFields, Bodies, RowItems, CountOf;
    if n == 0 {
      NoRowsYet(h, section, num);
    } else {
      RowStep(h, section, n);
      RowsPayloads(h, section, n - 1, num);
      PayloadsAppend(RowFields(h, section, n - 1), RowField(h, section, n - 1), num);
    }
  }

  lemma {:induction false} BodiesRead(h: Histogram, section: Section, n: nat)
    requires HistogramOk(h) && n <= ROWS
    ensures ReadItems(section, Bodies(h, section, n)) == Some(RowItems(h, section, n))
  {
    hide ReadItem, ReadItems, RowField, RowItem, RowFields, Bodies, RowItems, CountOf;
    if n == 0 {
      NoRowsYet(h, section, 0);
    } else {
      RowStep(h, section, n);
      BodiesRead(h, section, n - 1);
      RowReads(h, section, n - 1);
      ReadItemsAppend(section, Bodies(h, section, n - 1), RowField(h, section, n - 1).payload);
    }
  }

  lemma RowsRead(h: Histogram, section: Section, num: nat)
    requires HistogramOk(h)
    ensures num == FieldNumber(section) ==>
      ReadItems(section, PayloadsIn(RowFields(h, section, ROWS), num)) == Some(RowItems(h, section, ROWS))
    ensures num != FieldNumber(section) ==> PayloadsIn(RowFields(h, section, ROWS), num) == []
  {
    hide PayloadsIn, RowFields, ReadItems, RowItems, Bodies;
    RowsPayloads(h, section, ROWS, num);
    BodiesRead(h, section, ROWS);
  }

  lemma {:induction false} NamesRead(n: nat, num: nat)
    requires n <= FIRST_NAME + ROWS
    ensures PayloadsIn(NameFields(n), num) == if num == 6 then Names(n) else []
  {
    hide Name;
    if n > 0 {
      NamesRead(n - 1, num);
      var f := Bytes(6, Name(n - 1));
      PayloadsConcat(NameFields(n - 1), [f], num);
      PayloadsOne(f, num);
    }
  }

  lemma TypeReads(kind: nat, unit: nat)
    requires kind < U64 && unit < U64
    ensures ValueType(kind, unit).Bytes? && ValueType(kind, unit).num == 1
    ensures DecodeAll(ValueType(kind, unit).payload).Some?
    ensures var fs := DecodeAll(ValueType(kind, unit).payload).value; NumberIn(fs, 1) == kind && NumberIn(fs, 2) == unit
  {
    hide Encode, EncodeAll, DecodeAll;
    NumberSize(1, kind);
    NumberSize(2, unit);
    RoundTrip([Number(1, kind), Number(2, unit)]);
    NumberTwo(Number(1, kind), Number(2, unit));
  }

  lemma TypePayloads(num: nat)
    ensures PayloadsIn(TypeFields(), num) ==
            if num == 1 then [ValueType(1, 2).payload, ValueType(3, 4).payload] else []
  {
    var f, g := ValueType(1, 2), ValueType(3, 4);
    assert f.Bytes? && f.num == 1 && g.Bytes? && g.num == 1;
    assert TypeFields() == [f, g];
    hide ValueType, PayloadsIn;
    assert [f, g] == [f] + [g];
    PayloadsConcat([f], [g], num);
    PayloadsOne(f, num);
    PayloadsOne(g, num);
  }

  function TypeIn(payload: seq<byte>): (nat, nat)
    requires DecodeAll(payload).Some?
  {
    (NumberIn(DecodeAll(payload).value, 1), NumberIn(DecodeAll(payload).value, 2))
  }

  lemma TwoTypes(p: seq<byte>, q: seq<byte>)
    requires DecodeAll(p).Some? && DecodeAll(q).Some?
    ensures ReadTypes([p, q]) == Some([TypeIn(p), TypeIn(q)])
  {
    hide DecodeAll, NumberIn;
    var none: seq<seq<byte>> := [];
    assert [p, q][1..] == [q] && [q][1..] == none;
    assert ReadTypes(none) == Some([]);
    assert ReadTypes([q]) == Some([TypeIn(q)] + []);
    assert [TypeIn(q)] + [] == [TypeIn(q)];
    assert [TypeIn(p)] + [TypeIn(q)] == [TypeIn(p), TypeIn(q)];
  }

  lemma TypesRead(num: nat)
    ensures num == 1 ==> ReadTypes(PayloadsIn(TypeFields(), num)) == Some([(1, 2), (3, 4)])
    ensures num != 1 ==> PayloadsIn(TypeFields(), num) == []
  {
    hide ValueType, DecodeAll, NumberIn, PayloadsIn, TypeFields, ReadTypes;
    TypePayloads(num);
    TypeReads(1, 2);
    TypeReads(3, 4);
    if num == 1 {
      TwoTypes(ValueType(1, 2).payload, ValueType(3, 4).payload);
    }
  }

  lemma PayloadsOfProfile(h: Histogram, num: nat)
    requires HistogramOk(h)
    ensures PayloadsIn(ProfileFields(h), num) ==
            PayloadsIn(TypeFields(), num) + PayloadsIn(RowFields(h, Samples, ROWS), num)
            + PayloadsIn(RowFields(h, Locations, ROWS), num) + PayloadsIn(RowFields(h, Functions, ROWS), num)
            + PayloadsIn(NameFields(FIRST_NAME + ROWS), num)
  {
    hide PayloadsIn, TypeFields, RowFields, NameFields;
    var t, s, l, f, n := TypeFields(), RowFields(h, Samples, ROWS), RowFields(h, Locations, ROWS),
                         RowFields(h, Functions, ROWS), NameFields(FIRST_NAME + ROWS);
    PayloadsConcat(t, s, num);
    PayloadsConcat(t + s, l, num);
    PayloadsConcat(t + s + l, f, num);
    PayloadsConcat(t + s + l + f, n, num);
  }

  /** What field `num` of the whole profile holds. */
  lemma PartOfProfile(h: Histogram, num: nat)
    requires HistogramOk(h)
    ensures PayloadsIn(ProfileFields(h), num) ==
            (if num == 1 then PayloadsIn(TypeFields(), 1)
             else if num == 2 then PayloadsIn(RowFields(h, Samples, ROWS), 2)
             else if num == 4 then PayloadsIn(RowFields(h, Locations, ROWS), 4)
             else if num == 5 then PayloadsIn(RowFields(h, Functions, ROWS), 5)
             else if num == 6 then Names(FIRST_NAME + ROWS)
             else [])
  {
    hide PayloadsIn, TypeFields, RowFields, NameFields, Names, ProfileFields, ReadItems, ReadTypes;
    PayloadsOfProfile(h, num);
    TypesRead(num);
    RowsRead(h, Samples, num);
    RowsRead(h, Locations, num);
    RowsRead(h, Functions, num);
    NamesRead(FIRST_NAME + ROWS, num);
  }

  /** The decoder recovers from the encoded bytes exactly the classes that saw a request. */
  lemma ProfileRoundTrip(h: Histogram)
    requires HistogramOk(h)
    ensures ReadProfile(EncodeAll(ProfileFields(h))) == Some(Expected(h))
  {
    hide PayloadsIn, TypeFields, RowFields, NameFields, Names, ProfileFields, ReadItems, ReadTypes, EncodeAll, DecodeAll, RowItems;
    ProfileFits(h);
    RoundTrip(ProfileFields(h));
    PartOfProfile(h, 1);
    PartOfProfile(h, 2);
    PartOfProfile(h, 4);
    PartOfProfile(h, 5);
    PartOfProfile(h, 6);
    TypesRead(1);
    RowsRead(h, Samples, 2);
    RowsRead(h, Locations, 4);
    RowsRead(h, Functions, 5);
  }

  // ---------------------------------------------------------------------
  // References resolve
  // ---------------------------------------------------------------------

  function Find(items: seq<Item>, id: nat): Option<Item>
    requires forall k :: 0 <= k < |items| ==> !items[k].Sample?
  {
    if items == [] then None
    else if items[|items| - 1].id == id then Some(items[|items| - 1])
    else Find(items[..|items| - 1], id)
  }

  lemma FindNone(id: nat)
    ensures Find([], id) == None
  {}

  lemma FindAppend(items: seq<Item>, x: Item, id: nat)
    requires !x.Sample? && forall k :: 0 <= k < |items| ==> !items[k].Sample?
    ensures forall k :: 0 <= k < |items| + 1 ==> !(items + [x])[k].Sample?
    ensures Find(items + [x], id) == if x.id == id then Some(x) else Find(items, id)
  {}

  lemma {:induction false} RowFound(h: Histogram, section: Section, n: nat, i: nat)
    requires HistogramOk(h) && n <= ROWS && i < ROWS && !section.Samples?
    ensures forall k :: 0 <= k < |RowItems(h, section, n)| ==> !RowItems(h, section, n)[k].Sample?
    ensures Find(RowItems(h, section, n), i + 1) ==
            if i < n && CountOf(h, i) > 0 then Some(RowItem(h, section, i)) else None
  {
    hide Find, CountOf, RowItems, RowFields, Bodies, RowField;
    if n == 0 {
      NoRowsYet(h, section, 0);
      assert Find([], i + 1) == None by { FindNone(i + 1); }
    } else {
      RowStep(h, section, n);
      RowFound(h, section, n - 1, i);
      FindAppend(RowItems(h, section, n - 1), RowItem(h, section, n - 1), i + 1);
    }
  }

  lemma {:induction false} NamesAre(n: nat)
    requires n <= FIRST_NAME + ROWS
    ensures |Names(n)| == n && forall k :: 0 <= k < n ==> Names(n)[k] == Name(k)
  {
    hide Name;
    if n > 0 {
      NamesAre(n - 1);
    }
  }

  /** The name a location leads to, through its line and its function. */
  function NameOfLocation(p: Decoded, id: nat): Option<seq<byte>>
    requires forall k :: 0 <= k < |p.locations| ==> p.locations[k].Location?
    requires forall k :: 0 <= k < |p.functions| ==> p.functions[k].Function?
  {
    match Find(p.locations, id)
    case None => None
    case Some(location) =>
      if !location.Location? || |location.lines| != 1 then None
      else
        match Find(p.functions, location.lines[0])
        case None => None
        case Some(f) => if f.Function? && f.name < |p.strings| then Some(p.strings[f.name]) else None
  }

  lemma {:induction false} Kinds(h: Histogram, n: nat)
    requires HistogramOk(h) && n <= ROWS
    ensures forall k :: 0 <= k < |RowItems(h, Locations, n)| ==> RowItems(h, Locations, n)[k].Location?
    ensures forall k :: 0 <= k < |RowItems(h, Functions, n)| ==> RowItems(h, Functions, n)[k].Function?
  {
    if n > 0 {
      Kinds(h, n - 1);
    }
  }

  /** The location of a class leads to that class's name, and to nothing when the class saw no request. */
  lemma LocationsResolve(h: Histogram, i: nat)
    requires HistogramOk(h) && i < ROWS
    ensures forall k :: 0 <= k < |Expected(h).locations| ==> Expected(h).locations[k].Location?
    ensures forall k :: 0 <= k < |Expected(h).functions| ==> Expected(h).functions[k].Function?
    ensures NameOfLocation(Expected(h), i + 1) == if CountOf(h, i) > 0 then Some(Name(FIRST_NAME + i)) else None
  {
    hide RowItems, Names, Name;
    Kinds(h, ROWS);
    RowFound(h, Locations, ROWS, i);
    RowFound(h, Functions, ROWS, i);
    NamesAre(FIRST_NAME + ROWS);
  }

  /** A class has its sample, with its own pair of values, exactly when it saw a request. */
  lemma {:induction false} SamplesExact(h: Histogram, n: nat, x: Item)
    requires HistogramOk(h) && n <= ROWS
    ensures x in RowItems(h, Samples, n) <==>
            exists i :: 0 <= i < n && CountOf(h, i) > 0 && x == Sample([i + 1], [CountOf(h, i), BytesOf(h, i)])
  {
    if n > 0 {
      SamplesExact(h, n - 1, x);
    }
  }

  // ---------------------------------------------------------------------
  // The profile in terms of the histogram
  // ---------------------------------------------------------------------

  ghost predicate WellTyped(p: Decoded) {
    && (forall k :: 0 <= k < |p.samples| ==> p.samples[k].Sample?)
    && (forall k :: 0 <= k < |p.locations| ==> p.locations[k].Location?)
    && (forall k :: 0 <= k < |p.functions| ==> p.functions[k].Function?)
  }

  /** One row: a sample with these values and this name if its count is not zero, otherwise none. */
  ghost predicate Reported(p: Decoded, id: nat, count: nat, bytes: nat, name: seq<byte>)
    requires WellTyped(p)
  {
    && (count > 0 ==> Sample([id], [count, bytes]) in p.samples && NameOfLocation(p, id) == Some(name))
    && (count == 0 ==> forall k :: 0 <= k < |p.samples| ==> p.samples[k].locations != [id])
  }

  ghost predicate Says(p: Decoded, k: nat, text: string) {
    k < |p.strings| && (forall i :: 0 <= i < |text| ==> text[i] < 256 as char) && p.strings[k] == Ascii(text)
  }

  /**
   What a reader learns of the histogram: the two kinds of values and their
   units, each size class and the huge objects with their own counts and
   bytes under their own names, one sample at most for each, and no others.
   */
  ghost predicate Describes(p: Decoded, h: Histogram)
    requires |h.counts| == |h.bytes| == CLASSES
  {
    && WellTyped(p) && |p.types| == 2
    && Says(p, p.types[0].0, "alloc_objects") && Says(p, p.types[0].1, "count")
    && Says(p, p.types[1].0, "alloc_space") && Says(p, p.types[1].1, "bytes")
    && (forall c :: 0 <= c < CLASSES ==>
          Reported(p, c + 1, h.counts[c], h.bytes[c], Ascii("size_class_") + Decimal(c)))
    && Reported(p, CLASSES + 1, h.hugeCount, h.hugeBytes, Ascii("huge"))
    && OneEach(p.samples)
    && (forall k :: 0 <= k < |p.samples| ==> |p.samples[k].locations| == 1 && 1 <= p.samples[k].locations[0] <= CLASSES + 1)
  }

  ghost predicate OneEach(samples: seq<Item>) {
    && (forall k :: 0 <= k < |samples| ==> samples[k].Sample?)
    && (forall j, k :: 0 <= j < k < |samples| ==> samples[j].locations != samples[k].locations)
  }

  lemma {:induction false} SamplesOrdered(h: Histogram, n: nat)
    requires HistogramOk(h) && n <= ROWS
    ensures forall x :: x in RowItems(h, Samples, n) ==> x.Sample? && |x.locations| == 1 && 1 <= x.locations[0] <= n
    ensures OneEach(RowItems(h, Samples, n))
  {
    if n > 0 {
      SamplesOrdered(h, n - 1);
      var front, xs := RowItems(h, Samples, n - 1), RowItems(h, Samples, n);
      assert xs == front + (if CountOf(h, n - 1) > 0 then [RowItem(h, Samples, n - 1)] else []);
      hide RowItems;
      forall j, k | 0 <= j < k < |xs|
        ensures xs[j].locations != xs[k].locations
      {
        assert xs[j] == front[j] && front[j] in front;
        if k < |front| {
          assert xs[k] == front[k] && front[k] in front;
        } else {
          assert xs[k].locations[0] == n;
        }
      }
    }
  }

  /** Row `i` of the histogram, Huge last. */
  lemma RowReported(h: Histogram, i: nat, count: nat, bytes: nat, name: seq<byte>)
    requires HistogramOk(h) && i < ROWS && WellTyped(Expected(h))
    requires count == CountOf(h, i) && bytes == BytesOf(h, i) && name == Name(FIRST_NAME + i)
    ensures Reported(Expected(h), i + 1, count, bytes, name)
  {
    hide CountOf, BytesOf, Name, RowItems, NameOfLocation;
    LocationsResolve(h, i);
    var samples := RowItems(h, Samples, ROWS);
    if count > 0 {
      SamplesExact(h, ROWS, Sample([i + 1], [count, bytes]));
    } else {
      forall k | 0 <= k < |samples|
        ensures samples[k].locations != [i + 1]
      {
        assert samples[k] in samples;
        SamplesExact(h, ROWS, samples[k]);
      }
    }
  }

  lemma TypesNamed(h: Histogram)
    requires HistogramOk(h)
    ensures var p := Expected(h);
            && |p.types| == 2
            && Says(p, p.types[0].0, "alloc_objects") && Says(p, p.types[0].1, "count")
            && Says(p, p.types[1].0, "alloc_space") && Says(p, p.types[1].1, "bytes")
  {
    hide RowItems, Names;
    NamesAre(FIRST_NAME + ROWS);
    StringsSpelled();
  }

  lemma SamplesShape(h: Histogram)
    requires HistogramOk(h)
    ensures WellTyped(Expected(h))
    ensures var xs := Expected(h).samples;
            && OneEach(xs)
            && (forall k :: 0 <= k < |xs| ==> xs[k].Sample? && |xs[k].locations| == 1 && 1 <= xs[k].locations[0] <= CLASSES + 1)
  {
    hide RowItems, Names;
    SamplesOrdered(h, ROWS);
    LocationsResolve(h, 0);
    var xs := Expected(h).samples;
    assert forall k :: 0 <= k < |xs| ==> xs[k] in xs;
  }

  /** The decoder's result is the histogram, class by class. */
  lemma ProfileDescribes(h: Histogram)
    requires HistogramOk(h)
    ensures Describes(Expected(h), h)
  {
    hide RowItems, Names, Says, Decimal, Reported, WellTyped, Ascii;
    var p := Expected(h);
    SamplesShape(h);
    TypesNamed(h);
    StringsSpelled();
    hide Expected;
    forall c | 0 <= c < CLASSES
      ensures Reported(p, c + 1, h.counts[c], h.bytes[c], Ascii("size_class_") + Decimal(c))
    {
      RowReported(h, c, h.counts[c], h.bytes[c], ClassName(c));
    }
    RowReported(h, CLASSES, h.hugeCount, h.hugeBytes, HUGE_NAME);
  }

  // ---------------------------------------------------------------------
  // The compressed profile
  // ---------------------------------------------------------------------

  /** Encode the histogram. Reading the bytes back gives the histogram, class by class. */
  method DumpHeap(buf: array<byte>, h: Histogram) returns (out: seq<byte>)
    requires buf.Length == BUFFER && HistogramOk(h)
    modifies buf
    ensures ReadProfile(out).Some? && Describes(ReadProfile(out).value, h)
  {
    hide EncodeAll, ProfileFields, ReadProfile, Expected, Describes;
    ProfileDescribes(h);
    var r := EncodeHeapProfile(buf, h);
    out := buf[..r.value];
    ProfileRoundTrip(h);
  }

  /**
   Encode the histogram and wrap it in a gzip member. Unpacking the member
   and reading the profile gives back every class that saw a request.
   */
  method DumpHeapGz(buf: array<byte>, h: Histogram) returns (out: seq<byte>)
    requires buf.Length == BUFFER && HistogramOk(h)
    modifies buf
    ensures Gzip.Decompress(out).Some? && ReadProfile(Gzip.Decompress(out).value).Some?
    ensures Describes(ReadProfile(Gzip.Decompress(out).value).value, h)
  {
    hide EncodeAll, ProfileFields, ReadProfile, Expected, Describes, Gzip.Member, Gzip.Decompress;
    ProfileDescribes(h);
    var r := EncodeHeapProfile(buf, h);
    out := Gzip.Compress(buf[..r.value]);
    Gzip.GzipRoundTrip(buf[..r.value]);
    ProfileRoundTrip(h);
  }
}
