/**
 The gzip member of section 2.3 of RFC 1952 around stored blocks as section
 3.2.4 of RFC 1951 defines them, and a reader for such members.
 */
module Gzip {
  import opened Basics
  import opened Wire
  import opened Crc

  const MAX_BLOCK: nat := 65535
  const HEADER: seq<byte> := [0x1F, 0x8B, 0x08, 0, 0, 0, 0, 0, 0, 0x03]

  // ---------------------------------------------------------------------
  // Writing
  // ---------------------------------------------------------------------

  /** BFINAL and BTYPE 00 in one byte, LEN and its complement, and the data as it is. */
  function Block(final: bool, data: seq<byte>): seq<byte>
    requires |data| <= MAX_BLOCK
  {
    var n := |data|;
    [if final then 1 else 0, n % 256, n / 256, (MAX_BLOCK - n) % 256, (MAX_BLOCK - n) / 256] + data
  }

  function Stored(data: seq<byte>): seq<byte>
    decreases |data|
  {
    if |data| <= MAX_BLOCK then Block(true, data)
    else Block(false, data[..MAX_BLOCK]) + Stored(data[MAX_BLOCK..])
  }

  function Number32(n: nat): seq<byte> {
    [n % 256, n / 256 % 256, n / 65536 % 256, n / 16777216 % 256]
  }

  function Member(data: seq<byte>): seq<byte> {
    HEADER + Stored(data) + ToBytes(Checksum(data)) + Number32(|data|)
  }

  method WriteBlock(final: bool, data: seq<byte>) returns (block: seq<byte>)
    requires |data| <= MAX_BLOCK
    ensures block == Block(final, data)
    ensures forall rest :: ReadBlock(block + rest) == Some(StoredBlock(final, data)) && (block + rest)[|block|..] == rest
  {
    forall rest
      ensures ReadBlock(Block(final, data) + rest) == Some(StoredBlock(final, data))
    {
      BlockReads(final, data, rest);
    }
    var n := |data|;
    var nlen := MAX_BLOCK - n;
    block := [if final then 1 else 0, n % 256, n / 256 % 256, nlen % 256, nlen / 256 % 256];
    block := block + data;
  }

  lemma StoredStep(rest: seq<byte>)
    ensures |rest| <= MAX_BLOCK ==> Stored(rest) == Block(true, rest)
    ensures |rest| > MAX_BLOCK ==> Stored(rest) == Block(false, rest[..MAX_BLOCK]) + Stored(rest[MAX_BLOCK..])
  {}

  method WriteBlocks(data: seq<byte>) returns (out: seq<byte>)
    ensures out == Stored(data)
  {
    hide Block, Stored;
    StoredStep(data);
    if |data| == 0 {
      EmptyBlock(data);
      return [1, 0, 0, 255, 255];
    }
    out := [];
    var pos := 0;
    assert data[0..] == data;
    while pos < |data|
      invariant 0 <= pos <= |data|
      invariant out + (if pos < |data| then Stored(data[pos..]) else []) == Stored(data)
    {
      var remain := |data| - pos;
      var final := remain <= MAX_BLOCK;
      var n := if final then remain else MAX_BLOCK;
      var piece := data[pos..pos + n];
      var block := WriteBlock(final, piece);
      StoredFrom(data, pos, n);
      ghost var after := if final then [] else Stored(data[pos + n..]);
      assert out + (block + after) == (out + block) + after;
      out := out + block;
      pos := pos + n;
    }
  }

  lemma StoredFrom(data: seq<byte>, pos: nat, n: nat)
    requires pos < |data| && n == (if |data| - pos <= MAX_BLOCK then |data| - pos else MAX_BLOCK)
    ensures |data| - pos <= MAX_BLOCK ==> Stored(data[pos..]) == Block(true, data[pos..pos + n]) + []
    ensures |data| - pos > MAX_BLOCK ==> Stored(data[pos..]) == Block(false, data[pos..pos + n]) + Stored(data[pos + n..])
  {}

  method Compress(data: seq<byte>) returns (out: seq<byte>)
    ensures out == Member(data)
  {
    hide Stored, Checksum, ToBytes;
    var blocks := WriteBlocks(data);
    var crc := Compute(data);
    out := HEADER + blocks + ToBytes(crc) + Number32(|data|);
  }

  lemma EmptyBlock(data: seq<byte>)
    requires data == []
    ensures Block(true, data) == [1, 0, 0, 255, 255]
  {}

  // ---------------------------------------------------------------------
  // Reading
  // ---------------------------------------------------------------------

  datatype StoredBlock = StoredBlock(final: bool, data: seq<byte>)

  /** Reads one stored block; the length must come with its complement. */
  function ReadBlock(bs: seq<byte>): Option<StoredBlock> {
    if |bs| < 5 || bs[0] / 2 % 4 != 0 then None
    else
      var n, m := (bs[1] as nat) + 256 * (bs[2] as nat), (bs[3] as nat) + 256 * (bs[4] as nat);
      if n + m != MAX_BLOCK || 5 + n > |bs| then None
      else Some(StoredBlock(bs[0] % 2 == 1, bs[5..5 + n]))
  }

  /** Reads blocks up to the first final one; also returns what follows it. */
  function ReadBlocks(bs: seq<byte>): Option<(seq<StoredBlock>, seq<byte>)>
    decreases |bs|
  {
    match ReadBlock(bs)
    case None => None
    case Some(b) =>
      var rest := bs[5 + |b.data|..];
      if b.final then Some(([b], rest))
      else
        match ReadBlocks(rest)
        case None => None
        case Some((blocks, tail)) => Some(([b] + blocks, tail))
  }

  function Contents(blocks: seq<StoredBlock>): seq<byte> {
    if blocks == [] then [] else blocks[0].data + Contents(blocks[1..])
  }

  /** A number of 32 bits, least significant byte first. */
  function ReadNumber32(bs: seq<byte>): nat
    requires |bs| == 4
  {
    (bs[0] as nat) + 256 * (bs[1] as nat) + 65536 * (bs[2] as nat) + 16777216 * (bs[3] as nat)
  }

  /** Identification, compression method and flags of section 2.3.1 of RFC 1952: deflate, and no optional part. */
  predicate ReadHeader(bs: seq<byte>) {
    |bs| >= 10 && bs[0] == 31 && bs[1] == 139 && bs[2] == 8 && bs[3] == 0
  }

  /** Reads a member, checking magic, method, checksum and size. */
  function Decompress(bs: seq<byte>): Option<seq<byte>> {
    if !ReadHeader(bs) then None
    else
      match ReadBlocks(bs[10..])
      case None => None
      case Some((blocks, tail)) =>
        var data := Contents(blocks);
        if |tail| == 8 && Stream(tail[..4]) == Checksum(data) && ReadNumber32(tail[4..]) == |data| % 0x1_0000_0000 then Some(data)
        else None
  }

  // ---------------------------------------------------------------------
  // Round trip
  // ---------------------------------------------------------------------

  lemma BlockReads(final: bool, data: seq<byte>, rest: seq<byte>)
    requires |data| <= MAX_BLOCK
    ensures ReadBlock(Block(final, data) + rest) == Some(StoredBlock(final, data))
    ensures (Block(final, data) + rest)[5 + |data|..] == rest
  {}

  /** Exactly one block is final and it comes last; the blocks make up the data. */
  ghost predicate Framed(blocks: seq<StoredBlock>, data: seq<byte>) {
    && blocks != []
    && (forall k :: 0 <= k < |blocks| ==> (blocks[k].final <==> k == |blocks| - 1))
    && (forall k :: 0 <= k < |blocks| ==> |blocks[k].data| <= MAX_BLOCK)
    && Contents(blocks) == data
  }

  lemma {:induction false} StoredReads(data: seq<byte>, rest: seq<byte>)
    ensures var r := ReadBlocks(Stored(data) + rest);
            r.Some? && r.value.1 == rest && Framed(r.value.0, data)
    decreases |data|
  {
    hide Block, ReadBlock;
    if |data| <= MAX_BLOCK {
      BlockReads(true, data, rest);
      var b := StoredBlock(true, data);
      assert [b][1..] == [];
      assert Contents([b]) == data + [];
    } else {
      var first, others := data[..MAX_BLOCK], data[MAX_BLOCK..];
      var tail := Stored(others) + rest;
      BlockReads(false, first, tail);
      StoredReads(others, rest);
      assert Stored(data) + rest == Block(false, first) + tail;
      var blocks := ReadBlocks(tail).value.0;
      var all := [StoredBlock(false, first)] + blocks;
      assert all[1..] == blocks;
      assert first + others == data;
    }
  }

  lemma NumberReads(n: nat)
    ensures ReadNumber32(Number32(n)) == n % 0x1_0000_0000
  {
    var a, b, c := n / 256, n / 65536, n / 16777216;
    var e := c / 256;
    assert a / 256 == b && b / 256 == c;
    assert n == n % 256 + 256 * (a % 256) + 65536 * (b % 256) + 16777216 * (c % 256) + 0x1_0000_0000 * e;
    LowPart(n, n % 256 + 256 * (a % 256) + 65536 * (b % 256) + 16777216 * (c % 256), e);
  }

  lemma LowPart(n: nat, low: nat, e: nat)
    requires n == low + 0x1_0000_0000 * e && low < 0x1_0000_0000
    ensures n % 0x1_0000_0000 == low
  {}

  lemma StreamCons(x: byte, rest: seq<byte>)
    ensures Stream([x] + rest) == BitsOf(x, 8) + Stream(rest)
  {
    hide BitsOf;
    assert ([x] + rest)[1..] == rest;
  }

  lemma FourBytes(a: byte, b: byte, c: byte, d: byte)
    ensures Stream([a, b, c, d]) == BitsOf(a, 8) + (BitsOf(b, 8) + (BitsOf(c, 8) + BitsOf(d, 8)))
  {
    var none: seq<byte> := [];
    assert Stream(none) == [];
    hide BitsOf, Stream;
    StreamCons(a, [b, c, d]);
    StreamCons(b, [c, d]);
    StreamCons(c, [d]);
    StreamCons(d, none);
    assert [a, b, c, d] == [a] + [b, c, d] && [b, c, d] == [b] + [c, d] && [c, d] == [c] + [d] && [d] == [d] + none;
    assert BitsOf(d, 8) + [] == BitsOf(d, 8);
  }

  /** A checksum's four bytes hold its bits from the least significant on. */
  lemma ChecksumBytes(word: seq<bool>)
    requires |word| == WIDTH
    ensures Stream(ToBytes(word)) == word
  {
    hide BitsOf, ByteOf, Stream;
    var bs := ToBytes(word);
    FourBytes(bs[0], bs[1], bs[2], bs[3]);
    assert bs == [bs[0], bs[1], bs[2], bs[3]];
    assert word[..8] + (word[8..16] + (word[16..24] + word[24..])) == word;
  }

  /**
   The bytes of a member as RFC 1952 lays them out: the ten of the header, no
   optional part, no time, Unix; then the blocks; then the CRC-32 of the data
   as division defines it and the size modulo 2^32, both least significant
   byte first.
   */
  lemma MemberLayout(data: seq<byte>)
    ensures var m := Member(data);
            var n := |m|;
            && n >= 18 && m[..10] == [31, 139, 8, 0, 0, 0, 0, 0, 0, 3]
            && m[10..n - 8] == Stored(data)
            && IsCrc32(data, Stream(m[n - 8..n - 4]))
            && ReadNumber32(m[n - 4..]) == |data| % 0x1_0000_0000
  {
    hide Stored, Checksum, ToBytes, Stream, IsCrc32, ReadNumber32, Number32;
    var m, crc := Member(data), ToBytes(Checksum(data));
    var n := |m|;
    NumberLength(|data|);
    assert m == HEADER + (Stored(data) + (crc + Number32(|data|)));
    assert m[n - 8..n - 4] == crc && m[n - 4..] == Number32(|data|) && m[10..n - 8] == Stored(data);
    ChecksumBytes(Checksum(data));
    ChecksumIsCrc32(data, Checksum(data));
    NumberReads(|data|);
  }

  lemma NumberLength(n: nat)
    ensures |Number32(n)| == 4
  {}

  /** Every member the writer makes is read back, whatever the data and however long. */
  lemma GzipRoundTrip(data: seq<byte>)
    ensures Decompress(Member(data)) == Some(data)
  {
    hide Block, ReadBlock, Stored, ReadBlocks, Contents, Checksum, ToBytes, Stream, Number32, ReadNumber32;
    NumberLength(|data|);
    var tail := ToBytes(Checksum(data)) + Number32(|data|);
    var bs := Member(data);
    assert bs == HEADER + (Stored(data) + tail);
    assert bs[10..] == Stored(data) + tail;
    assert ReadHeader(bs);
    StoredReads(data, tail);
    ChecksumBytes(Checksum(data));
    NumberReads(|data|);
    assert tail[..4] == ToBytes(Checksum(data)) && tail[4..] == Number32(|data|);
  }
}
