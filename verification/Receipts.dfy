/**
 The structural check applied to an uploaded PNG receipt.

 A PNG is a signature followed by chunks (sections 3.2 and 3.4 of RFC 2083). The check walks the
 chunks; here it is proved to accept exactly the byte strings that some acceptable chunk list
 serializes to, and that this list is unique. The CRC is a parameter: any function will do.
 */
module Receipts {

  type Byte = b: int | 0 <= b < 256

  const TWO_32: int := 0x1_0000_0000

  const SIGNATURE: seq<Byte> := [0x89, 0x50, 0x4e, 0x47, 0x0d, 0x0a, 0x1a, 0x0a]
  const IHDR: seq<Byte> := [0x49, 0x48, 0x44, 0x52]
  const PLTE: seq<Byte> := [0x50, 0x4c, 0x54, 0x45]
  const IDAT: seq<Byte> := [0x49, 0x44, 0x41, 0x54]
  const IEND: seq<Byte> := [0x49, 0x45, 0x4e, 0x44]

  type Crc = seq<Byte> -> nat

  datatype Chunk = Chunk(kind: seq<Byte>, data: seq<Byte>)

  /** The big-endian 32-bit number in four bytes. */
  function FromBigEndian(b: seq<Byte>): (n: nat)
    requires |b| == 4
    ensures n < TWO_32
  {
    b[0] as int * 0x100_0000 + b[1] as int * 0x1_0000 + b[2] as int * 0x100 + b[3]
  }

  function ToBigEndian(n: nat): (b: seq<Byte>)
    requires n < TWO_32
    ensures |b| == 4
  {
    [n / 0x100_0000, n / 0x1_0000 % 0x100, n / 0x100 % 0x100, n % 0x100]
  }

  lemma BigEndianRoundTrip(n: nat)
    requires n < TWO_32
    ensures FromBigEndian(ToBigEndian(n)) == n
  {
    assert n / 0x1_0000 == n / 0x100_0000 * 0x100 + n / 0x1_0000 % 0x100;
    assert n / 0x100 == n / 0x1_0000 * 0x100 + n / 0x100 % 0x100;
    assert n == n / 0x100 * 0x100 + n % 0x100;
  }

  lemma BigEndianIsUnique(b: seq<Byte>)
    requires |b| == 4
    ensures ToBigEndian(FromBigEndian(b)) == b
  {
    var n := FromBigEndian(b);
    assert n / 0x100 == b[0] as int * 0x1_0000 + b[1] as int * 0x100 + b[2];
    assert n / 0x1_0000 == b[0] as int * 0x100 + b[1];
    assert n / 0x100_0000 == b[0];
  }

  /** The CRC covers the chunk kind and the data, cut to 32 bits. */
  function CrcOf(kind: seq<Byte>, data: seq<Byte>, crc: Crc): (n: nat)
    ensures n < TWO_32
  {
    crc(kind + data) % TWO_32
  }

  predicate KnownKind(kind: seq<Byte>) {
    kind == IHDR || kind == PLTE || kind == IDAT || kind == IEND
  }

  function SerializeChunk(c: Chunk, crc: Crc): (b: seq<Byte>)
    requires |c.kind| == 4 && |c.data| < TWO_32
    ensures |b| == 12 + |c.data|
  {
    ToBigEndian(|c.data|) + c.kind + c.data + ToBigEndian(CrcOf(c.kind, c.data, crc))
  }

  predicate Encodable(chunks: seq<Chunk>) {
    forall i :: 0 <= i < |chunks| ==> |chunks[i].kind| == 4 && |chunks[i].data| < TWO_32
  }

  function Serialize(chunks: seq<Chunk>, crc: Crc): seq<Byte>
    requires Encodable(chunks)
  {
    if chunks == [] then [] else SerializeChunk(chunks[0], crc) + Serialize(chunks[1..], crc)
  }

  lemma ConcatAssociates(a: seq<Byte>, b: seq<Byte>, c: seq<Byte>)
    ensures a + (b + c) == a + b + c
  {
  }

  lemma PrefixGrows(chunks: seq<Chunk>, n: nat)
    requires n < |chunks|
    ensures chunks[..n + 1] == chunks[..n] + [chunks[n]]
  {
  }

  lemma {:induction false} SerializeSplits(a: seq<Chunk>, b: seq<Chunk>, crc: Crc)
    requires Encodable(a) && Encodable(b)
    ensures Encodable(a + b) && Serialize(a + b, crc) == Serialize(a, crc) + Serialize(b, crc)
  {
    if a == [] {
      assert a + b == b;
    } else {
      SerializeSplits(a[1..], b, crc);
      assert (a + b)[1..] == a[1..] + b && (a + b)[0] == a[0];
      ConcatAssociates(SerializeChunk(a[0], crc), Serialize(a[1..], crc), Serialize(b, crc));
    }
  }

  /** The chunk lists the check lets through: a 13-byte header first, an empty trailer last, nothing
      but palette and image data between. The check does not ask for any image data at all. */
  predicate Acceptable(chunks: seq<Chunk>) {
    && Encodable(chunks)
    && |chunks| >= 2
    && chunks[0].kind == IHDR && |chunks[0].data| == 13
    && chunks[|chunks| - 1] == Chunk(IEND, [])
    && forall i :: 1 <= i < |chunks| - 1 ==> chunks[i].kind == PLTE || chunks[i].kind == IDAT
  }

  predicate Encodes(value: seq<Byte>, chunks: seq<Chunk>, crc: Crc) {
    Acceptable(chunks) && value == SIGNATURE + Serialize(chunks, crc)
  }

  /** The chunk that starts at `offset`, read back from the bytes. */
  function ChunkAt(value: seq<Byte>, offset: nat): Chunk
    requires offset + 12 <= |value| && offset + 12 + FromBigEndian(value[offset..offset + 4]) <= |value|
  {
    Chunk(value[offset + 4..offset + 8], value[offset + 8..offset + 8 + FromBigEndian(value[offset..offset + 4])])
  }

  /** The CRC stored at the end of that chunk. */
  function StoredCrcAt(value: seq<Byte>, offset: nat): nat
    requires offset + 12 <= |value| && offset + 12 + FromBigEndian(value[offset..offset + 4]) <= |value|
  {
    var length := FromBigEndian(value[offset..offset + 4]);
    FromBigEndian(value[offset + 8 + length..offset + 12 + length])
  }

  lemma SliceWithin(before: seq<Byte>, middle: seq<Byte>, rest: seq<Byte>, i: nat, j: nat)
    requires i <= j <= |middle|
    ensures (before + middle + rest)[|before| + i..|before| + j] == middle[i..j]
  {
  }

  lemma SlicesOfFour(a: seq<Byte>, b: seq<Byte>, c: seq<Byte>, d: seq<Byte>)
    ensures var whole := a + b + c + d;
            && whole[0..|a|] == a && whole[|a|..|a| + |b|] == b
            && whole[|a| + |b|..|a| + |b| + |c|] == c && whole[|a| + |b| + |c|..|a| + |b| + |c| + |d|] == d
  {
  }

  /** Reading where a serialized chunk starts gives that chunk, whatever surrounds it. */
  lemma ReadsBack(before: seq<Byte>, c: Chunk, rest: seq<Byte>, crc: Crc)
    requires |c.kind| == 4 && |c.data| < TWO_32
    ensures var value := before + SerializeChunk(c, crc) + rest;
            var offset := |before|;
            var end := offset + 12 + |c.data|;
            && end <= |value|
            && FromBigEndian(value[offset..offset + 4]) == |c.data|
            && ChunkAt(value, offset) == c
            && StoredCrcAt(value, offset) == CrcOf(c.kind, c.data, crc)
  {
    var length, sum := ToBigEndian(|c.data|), ToBigEndian(CrcOf(c.kind, c.data, crc));
    var middle := SerializeChunk(c, crc);
    var n := |c.data|;
    SlicesOfFour(length, c.kind, c.data, sum);
    SliceWithin(before, middle, rest, 0, 4);
    SliceWithin(before, middle, rest, 4, 8);
    SliceWithin(before, middle, rest, 8, 8 + n);
    SliceWithin(before, middle, rest, 8 + n, 12 + n);
    BigEndianRoundTrip(n);
    BigEndianRoundTrip(CrcOf(c.kind, c.data, crc));
  }

  /** The input seen as what chunks `0..i` serialize to, then chunk `i`, then the remaining ones. */
  lemma SplitsAtChunk(value: seq<Byte>, chunks: seq<Chunk>, crc: Crc, i: nat)
    requires Encodes(value, chunks, crc) && i < |chunks|
    ensures value == SIGNATURE + Serialize(chunks[..i], crc) + SerializeChunk(chunks[i], crc) + Serialize(chunks[i + 1..], crc)
  {
    assert Serialize(chunks, crc) == Serialize(chunks[..i], crc) + Serialize(chunks[i..], crc) by {
      assert chunks == chunks[..i] + chunks[i..];
      SerializeSplits(chunks[..i], chunks[i..], crc);
    }
    assert chunks[i..][1..] == chunks[i + 1..] && chunks[i..][0] == chunks[i];
    var before, chunk, rest := Serialize(chunks[..i], crc), SerializeChunk(chunks[i], crc), Serialize(chunks[i + 1..], crc);
    ConcatAssociates(SIGNATURE, before, chunk + rest);
    ConcatAssociates(SIGNATURE + before, chunk, rest);
  }

  /** If the bytes encode `chunks` and `offset` is where chunk `i` starts, reading there gives chunk `i`. */
  lemma ReadsTheChunk(value: seq<Byte>, chunks: seq<Chunk>, crc: Crc, i: nat, offset: nat)
    requires Encodes(value, chunks, crc) && i < |chunks|
    requires offset == 8 + |Serialize(chunks[..i], crc)|
    ensures offset + 12 <= |value| && FromBigEndian(value[offset..offset + 4]) == |chunks[i].data|
    ensures var end := offset + 12 + |chunks[i].data|;
            && end <= |value|
            && ChunkAt(value, offset) == chunks[i]
            && StoredCrcAt(value, offset) == CrcOf(chunks[i].kind, chunks[i].data, crc)
            && (end == |value| <==> i == |chunks| - 1)
  {
    SplitsAtChunk(value, chunks, crc, i);
    ReadsBack(SIGNATURE + Serialize(chunks[..i], crc), chunks[i], Serialize(chunks[i + 1..], crc), crc);
  }

  /** Reading at `offset` and writing back gives the same bytes when the stored CRC is right. */
  lemma WritesTheChunk(value: seq<Byte>, offset: nat, crc: Crc)
    requires offset + 12 <= |value|
    requires var end := offset + 12 + FromBigEndian(value[offset..offset + 4]);
             end <= |value| &&
             var c := ChunkAt(value, offset);
             StoredCrcAt(value, offset) == CrcOf(c.kind, c.data, crc)
    ensures var end := offset + 12 + FromBigEndian(value[offset..offset + 4]);
            SerializeChunk(ChunkAt(value, offset), crc) == value[offset..end]
  {
    var end := offset + 12 + FromBigEndian(value[offset..offset + 4]);
    var c := ChunkAt(value, offset);
    BigEndianIsUnique(value[offset..offset + 4]);
    BigEndianIsUnique(value[end - 4..end]);
    assert value[offset..end] == value[offset..offset + 4] + c.kind + c.data + value[end - 4..end];
  }

  /** No byte string encodes two acceptable chunk lists. */
  lemma {:induction false} EncodingIsUnique(value: seq<Byte>, a: seq<Chunk>, b: seq<Chunk>, crc: Crc, n: nat)
    requires Encodes(value, a, crc) && Encodes(value, b, crc)
    requires n <= |a| && n <= |b|
    ensures a[..n] == b[..n]
    ensures n == |a| || n == |b| ==> a == b
  {
    if n > 0 {
      EncodingIsUnique(value, a, b, crc, n - 1);
      var offset := 8 + |Serialize(a[..n - 1], crc)|;
      ReadsTheChunk(value, a, crc, n - 1, offset);
      ReadsTheChunk(value, b, crc, n - 1, offset);
      PrefixGrows(a, n - 1);
      PrefixGrows(b, n - 1);
    }
  }

  /** What the walk has consumed: the bytes before `offset` are the signature and the chunks `done`. */
  ghost predicate Consumed(value: seq<Byte>, crc: Crc, done: seq<Chunk>, offset: nat) {
    && 8 <= offset <= |value|
    && Encodable(done) && value[..offset] == SIGNATURE + Serialize(done, crc)
    && forall i :: 1 <= i < |done| ==> done[i].kind == PLTE || done[i].kind == IDAT
  }

  /** Every acceptable list that encodes the input begins with `done` and goes on beyond it. */
  ghost predicate Forced(value: seq<Byte>, crc: Crc, done: seq<Chunk>) {
    forall chunks :: Encodes(value, chunks, crc) ==> |done| < |chunks| && chunks[..|done|] == done
  }

  lemma ConsumesOneMore(value: seq<Byte>, crc: Crc, done: seq<Chunk>, offset: nat)
    requires Consumed(value, crc, done, offset) && offset + 12 <= |value|
    requires var end := offset + 12 + FromBigEndian(value[offset..offset + 4]);
             end <= |value| &&
             var c := ChunkAt(value, offset);
             StoredCrcAt(value, offset) == CrcOf(c.kind, c.data, crc)
    ensures var end := offset + 12 + FromBigEndian(value[offset..offset + 4]);
            var more := done + [ChunkAt(value, offset)];
            Encodable(more) && value[..end] == SIGNATURE + Serialize(more, crc)
  {
    var end, c := offset + 12 + FromBigEndian(value[offset..offset + 4]), ChunkAt(value, offset);
    WritesTheChunk(value, offset, crc);
    SerializeSplits(done, [c], crc);
    assert Serialize([c], crc) == SerializeChunk(c, crc) + Serialize([], crc);
    assert value[..end] == value[..offset] + value[offset..end];
  }

  ghost predicate NextChunk(value: seq<Byte>, crc: Crc, done: seq<Chunk>, offset: nat, chunks: seq<Chunk>) {
    && |done| < |chunks| && offset + 12 <= |value|
    && var end := offset + 12 + FromBigEndian(value[offset..offset + 4]);
       && end <= |value|
       && ChunkAt(value, offset) == chunks[|done|]
       && chunks[..|done| + 1] == done + [ChunkAt(value, offset)]
       && StoredCrcAt(value, offset) == CrcOf(chunks[|done|].kind, chunks[|done|].data, crc)
       && (end == |value| <==> |done| == |chunks| - 1)
  }

  /** The next chunk of any acceptable list is the one the walk reads, and its CRC is right. */
  lemma NextIsForced(value: seq<Byte>, crc: Crc, done: seq<Chunk>, offset: nat, chunks: seq<Chunk>)
    requires Consumed(value, crc, done, offset) && Forced(value, crc, done)
    requires Encodes(value, chunks, crc)
    ensures NextChunk(value, crc, done, offset, chunks)
  {
    assert offset == |value[..offset]| == 8 + |Serialize(done, crc)|;
    ReadsTheChunk(value, chunks, crc, |done|, offset);
    PrefixGrows(chunks, |done|);
  }

  lemma NextForAll(value: seq<Byte>, crc: Crc, done: seq<Chunk>, offset: nat)
    requires Consumed(value, crc, done, offset) && Forced(value, crc, done)
    ensures forall chunks :: Encodes(value, chunks, crc) ==> NextChunk(value, crc, done, offset, chunks)
  {
    forall chunks | Encodes(value, chunks, crc) ensures NextChunk(value, crc, done, offset, chunks) {
      NextIsForced(value, crc, done, offset, chunks);
    }
  }

  /** Chunk `i` of an acceptable list: a header exactly at the start, a trailer exactly at the end. */
  lemma AcceptableKinds(chunks: seq<Chunk>, i: nat)
    requires Acceptable(chunks) && i < |chunks|
    ensures KnownKind(chunks[i].kind)
    ensures chunks[i].kind == IHDR <==> i == 0
    ensures chunks[i].kind == IHDR ==> |chunks[i].data| == 13
    ensures chunks[i].kind == IEND <==> i == |chunks| - 1
    ensures chunks[i].kind == IEND ==> chunks[i].data == []
  {
  }

  /** The reasons for which one turn of the walk gives up. */
  ghost predicate GivesUp(value: seq<Byte>, crc: Crc, done: seq<Chunk>, offset: nat)
    requires offset + 12 <= |value|
  {
    var length := FromBigEndian(value[offset..offset + 4]);
    var kind := value[offset + 4..offset + 8];
    var end := offset + 12 + length;
    || end > |value| || !KnownKind(kind)
    || StoredCrcAt(value, offset) != CrcOf(kind, ChunkAt(value, offset).data, crc)
    || (kind == IHDR && (done != [] || length != 13))
    || (kind == IEND && (done == [] || length != 0 || end != |value|))
  }

  /** The input is the serialization of an acceptable chunk list. */
  ghost predicate IsPng(value: seq<Byte>, crc: Crc) {
    exists chunks :: Encodes(value, chunks, crc)
  }

  /** When the walk gives up, or runs out of bytes, no acceptable list encodes the input. */
  lemma NoListFits(value: seq<Byte>, crc: Crc, done: seq<Chunk>, offset: nat, chunks: seq<Chunk>)
    requires Consumed(value, crc, done, offset) && Forced(value, crc, done)
    requires offset + 12 <= |value| ==> GivesUp(value, crc, done, offset)
    ensures !Encodes(value, chunks, crc)
  {
    if Encodes(value, chunks, crc) {
      NextIsForced(value, crc, done, offset, chunks);
      AcceptableKinds(chunks, |done|);
      assert false;
    }
  }

  lemma NoListFitsAtAll(value: seq<Byte>, crc: Crc, done: seq<Chunk>, offset: nat)
    requires Consumed(value, crc, done, offset) && Forced(value, crc, done)
    requires offset + 12 <= |value| ==> GivesUp(value, crc, done, offset)
    ensures !IsPng(value, crc)
  {
    forall chunks ensures !Encodes(value, chunks, crc) {
      NoListFits(value, crc, done, offset, chunks);
    }
  }

  lemma StaysForced(value: seq<Byte>, crc: Crc, done: seq<Chunk>, offset: nat)
    requires Consumed(value, crc, done, offset) && Forced(value, crc, done)
    requires offset + 12 <= |value| && offset + 12 + FromBigEndian(value[offset..offset + 4]) <= |value|
    requires ChunkAt(value, offset).kind != IEND
    ensures Forced(value, crc, done + [ChunkAt(value, offset)])
  {
    NextForAll(value, crc, done, offset);
    forall chunks | Encodes(value, chunks, crc)
      ensures |done| + 1 < |chunks| && chunks[..|done| + 1] == done + [ChunkAt(value, offset)]
    {
      assert NextChunk(value, crc, done, offset, chunks);
      AcceptableKinds(chunks, |done|);
    }
  }

  /** A list that does not start with a header can no longer become acceptable. */
  lemma WrongStart(value: seq<Byte>, crc: Crc, done: seq<Chunk>)
    requires Forced(value, crc, done) && done != [] && done[0].kind != IHDR
    ensures !IsPng(value, crc)
  {
  }

  /** One turn that does not give up and does not end the walk keeps both facts. */
  lemma Advances(value: seq<Byte>, crc: Crc, done: seq<Chunk>, offset: nat)
    requires Consumed(value, crc, done, offset) && Forced(value, crc, done)
    requires offset + 12 <= |value| && !GivesUp(value, crc, done, offset)
    requires ChunkAt(value, offset).kind != IEND
    ensures var more := done + [ChunkAt(value, offset)];
            Consumed(value, crc, more, offset + 12 + FromBigEndian(value[offset..offset + 4])) && Forced(value, crc, more)
  {
    ConsumesOneMore(value, crc, done, offset);
    StaysForced(value, crc, done, offset);
  }

  /** A trailer that ends the walk settles the question: it depends only on how the input started. */
  lemma Finishes(value: seq<Byte>, crc: Crc, done: seq<Chunk>, offset: nat)
    requires Consumed(value, crc, done, offset) && Forced(value, crc, done)
    requires offset + 12 <= |value| && !GivesUp(value, crc, done, offset)
    requires ChunkAt(value, offset).kind == IEND
    requires done[0].kind == IHDR ==> |done[0].data| == 13
    ensures done[0].kind == IHDR <==> IsPng(value, crc)
  {
    if done[0].kind == IHDR {
      ConsumesOneMore(value, crc, done, offset);
      var more := done + [ChunkAt(value, offset)];
      assert value == value[..|value|];
      assert Encodes(value, more, crc);
    } else {
      WrongStart(value, crc, done);
    }
  }

  lemma WalkStarts(value: seq<Byte>, crc: Crc)
    requires SIGNATURE <= value
    ensures Consumed(value, crc, [], 8) && Forced(value, crc, [])
  {
  }

  lemma NoSignature(value: seq<Byte>, crc: Crc)
    requires !(SIGNATURE <= value)
    ensures !IsPng(value, crc)
  {
  }

  // ---- The same in bytes -------------------------------------------------------------------

  /** The number in the four bytes from `i` on, the most significant one first. */
  function NumberAt(value: seq<Byte>, i: nat): int
    requires i + 4 <= |value|
  {
    ((value[i] as int * 256 + value[i + 1]) * 256 + value[i + 2]) * 256 + value[i + 3]
  }

  predicate Spells(value: seq<Byte>, i: nat, name: string) {
    i + |name| <= |value| && forall j {:trigger name[j]} :: 0 <= j < |name| ==> value[i + j] == name[j] as int
  }

  /** A chunk fills the bytes from `o` to `end`: its length, its kind and data, and their checksum. */
  predicate ChunkBytes(value: seq<Byte>, crc: Crc, o: nat, end: nat) {
    && o + 12 <= end <= |value|
    && NumberAt(value, o) == end - o - 12
    && NumberAt(value, end - 4) == crc(value[o + 4..end - 4]) % 0x1_0000_0000
  }

  /** The chunks of a PNG begin at the places in `at`, whose last one is the end of the input. */
  ghost predicate PngBytes(value: seq<Byte>, crc: Crc, at: seq<nat>) {
    && |value| >= 8 && value[..8] == [137, 80, 78, 71, 13, 10, 26, 10]
    && |at| >= 3 && at[0] == 8 && at[|at| - 1] == |value|
    && (forall i, j {:trigger at[i], at[j]} :: 0 <= i && j == i + 1 < |at| ==> ChunkBytes(value, crc, at[i], at[j]))
    && Spells(value, at[0] + 4, "IHDR") && at[1] == at[0] + 25
    && Spells(value, at[|at| - 2] + 4, "IEND") && at[|at| - 1] == at[|at| - 2] + 12
    && (forall i {:trigger at[i]} :: 1 <= i < |at| - 2 ==> Spells(value, at[i] + 4, "PLTE") || Spells(value, at[i] + 4, "IDAT"))
  }

  ghost predicate IsPngInBytes(value: seq<Byte>, crc: Crc) {
    exists at :: PngBytes(value, crc, at)
  }

  lemma NumbersAgree(value: seq<Byte>, i: nat)
    requires i + 4 <= |value|
    ensures NumberAt(value, i) == FromBigEndian(value[i..i + 4])
  {
  }

  lemma SpellingsAgree(value: seq<Byte>, i: nat)
    requires i + 4 <= |value|
    ensures Spells(value, i, "IHDR") <==> value[i..i + 4] == IHDR
    ensures Spells(value, i, "PLTE") <==> value[i..i + 4] == PLTE
    ensures Spells(value, i, "IDAT") <==> value[i..i + 4] == IDAT
    ensures Spells(value, i, "IEND") <==> value[i..i + 4] == IEND
  {
    FourLetters(value, i, "IHDR", IHDR);
    FourLetters(value, i, "PLTE", PLTE);
    FourLetters(value, i, "IDAT", IDAT);
    FourLetters(value, i, "IEND", IEND);
  }

  lemma FourLetters(value: seq<Byte>, i: nat, name: string, kind: seq<Byte>)
    requires i + 4 <= |value| && |name| == 4 && |kind| == 4
    requires kind[0] == name[0] as int && kind[1] == name[1] as int && kind[2] == name[2] as int && kind[3] == name[3] as int
    ensures Spells(value, i, name) <==> value[i..i + 4] == kind
  {
    if Spells(value, i, name) {
      assert value[i] == name[0] as int && value[i + 1] == name[1] as int && value[i + 2] == name[2] as int && value[i + 3] == name[3] as int;
    }
    if value[i..i + 4] == kind {
      assert value[i + 0] == kind[0] && value[i + 1] == kind[1] && value[i + 2] == kind[2] && value[i + 3] == kind[3];
    }
  }

  /** Reading a chunk with the right checksum is the same as finding its bytes. */
  lemma ChunksAgree(value: seq<Byte>, crc: Crc, o: nat, end: nat)
    requires o + 12 <= end <= |value|
    ensures ChunkBytes(value, crc, o, end) <==>
              && end == o + 12 + FromBigEndian(value[o..o + 4])
              && (var c := ChunkAt(value, o); StoredCrcAt(value, o) == CrcOf(c.kind, c.data, crc))
  {
    NumbersAgree(value, o);
    NumbersAgree(value, end - 4);
    if end == o + 12 + FromBigEndian(value[o..o + 4]) {
      assert value[o + 4..end - 4] == value[o + 4..o + 8] + value[o + 8..end - 4];
    }
  }

  /** Where the chunks of an encoding begin. */
  function Places(chunks: seq<Chunk>, crc: Crc): (at: seq<nat>)
    requires Encodable(chunks)
    ensures |at| == |chunks| + 1
  {
    seq(|chunks| + 1, i requires 0 <= i <= |chunks| => 8 + |Serialize(chunks[..i], crc)|)
  }

  lemma PlaceFollows(chunks: seq<Chunk>, crc: Crc, i: nat)
    requires Encodable(chunks) && i < |chunks|
    ensures Places(chunks, crc)[i + 1] == Places(chunks, crc)[i] + 12 + |chunks[i].data|
  {
    PrefixGrows(chunks, i);
    SerializeSplits(chunks[..i], [chunks[i]], crc);
    assert Serialize([chunks[i]], crc) == SerializeChunk(chunks[i], crc) + Serialize([], crc);
  }

  lemma EncodedChunk(value: seq<Byte>, chunks: seq<Chunk>, crc: Crc, i: nat)
    requires Encodes(value, chunks, crc) && i < |chunks|
    ensures var at := Places(chunks, crc);
            && ChunkBytes(value, crc, at[i], at[i + 1]) && at[i + 1] == at[i] + 12 + |chunks[i].data|
            && chunks[i].kind == value[at[i] + 4..at[i] + 8]
            && (i == |chunks| - 1 ==> at[i + 1] == |value|)
  {
    var at := Places(chunks, crc);
    PlaceFollows(chunks, crc, i);
    ReadsTheChunk(value, chunks, crc, i, at[i]);
    ChunksAgree(value, crc, at[i], at[i + 1]);
  }

  /** The name each chunk bears, by its place in the list. */
  lemma EncodedName(value: seq<Byte>, chunks: seq<Chunk>, crc: Crc, i: nat)
    requires Encodes(value, chunks, crc) && i < |chunks|
    ensures var o := Places(chunks, crc)[i];
            && (i == 0 ==> Spells(value, o + 4, "IHDR") && |chunks[i].data| == 13)
            && (0 < i < |chunks| - 1 ==> Spells(value, o + 4, "PLTE") || Spells(value, o + 4, "IDAT"))
            && (i == |chunks| - 1 ==> Spells(value, o + 4, "IEND") && |chunks[i].data| == 0)
  {
    EncodedChunk(value, chunks, crc, i);
    SpellingsAgree(value, Places(chunks, crc)[i] + 4);
  }

  lemma FirstPlace(value: seq<Byte>, chunks: seq<Chunk>, crc: Crc)
    requires Encodes(value, chunks, crc)
    ensures Places(chunks, crc)[0] == 8 && |value| >= 8 && value[..8] == [137, 80, 78, 71, 13, 10, 26, 10]
  {
    assert chunks[..0] == [];
    assert value[..8] == SIGNATURE;
  }

  lemma PlacesAreChunks(value: seq<Byte>, chunks: seq<Chunk>, crc: Crc, at: seq<nat>)
    requires Encodes(value, chunks, crc) && at == Places(chunks, crc)
    ensures forall i, j {:trigger at[i], at[j]} :: 0 <= i && j == i + 1 < |at| ==> ChunkBytes(value, crc, at[i], at[j])
  {
    forall i, j | 0 <= i && j == i + 1 < |at| ensures ChunkBytes(value, crc, at[i], at[j]) {
      EncodedChunk(value, chunks, crc, i);
    }
  }

  lemma EncodingsAreBytes(value: seq<Byte>, chunks: seq<Chunk>, crc: Crc, at: seq<nat>)
    requires Encodes(value, chunks, crc) && at == Places(chunks, crc)
    ensures PngBytes(value, crc, at)
  {
    FirstPlace(value, chunks, crc);
    PlacesAreChunks(value, chunks, crc, at);
    EndsAreNamed(value, chunks, crc, at);
    forall i {:trigger at[i]} | 1 <= i < |at| - 2 ensures Spells(value, at[i] + 4, "PLTE") || Spells(value, at[i] + 4, "IDAT") {
      EncodedName(value, chunks, crc, i);
    }
  }

  lemma EndsAreNamed(value: seq<Byte>, chunks: seq<Chunk>, crc: Crc, at: seq<nat>)
    requires Encodes(value, chunks, crc) && at == Places(chunks, crc)
    ensures Spells(value, at[0] + 4, "IHDR") && at[1] == at[0] + 25
    ensures Spells(value, at[|at| - 2] + 4, "IEND") && at[|at| - 1] == at[|at| - 2] + 12 && at[|at| - 1] == |value|
  {
    EncodedName(value, chunks, crc, 0);
    PlaceFollows(chunks, crc, 0);
    EncodedName(value, chunks, crc, |chunks| - 1);
    EncodedChunk(value, chunks, crc, |chunks| - 1);
  }

  /** The chunk of the bytes from one place to the next. */
  lemma PlacedChunk(value: seq<Byte>, crc: Crc, at: seq<nat>, i: nat)
    requires PngBytes(value, crc, at) && i < |at| - 1
    ensures at[i] + 12 <= |value| && at[i + 1] == at[i] + 12 + FromBigEndian(value[at[i]..at[i] + 4]) && at[i + 1] <= |value|
    ensures var c := ChunkAt(value, at[i]);
            && |c.kind| == 4 && |c.data| < TWO_32 && StoredCrcAt(value, at[i]) == CrcOf(c.kind, c.data, crc)
            && (i == 0 ==> c.kind == IHDR && |c.data| == 13)
            && (0 < i < |at| - 2 ==> c.kind == PLTE || c.kind == IDAT)
            && (i == |at| - 2 ==> c == Chunk(IEND, []))
  {
    assert ChunkBytes(value, crc, at[i], at[i + 1]);
    ChunksAgree(value, crc, at[i], at[i + 1]);
    SpellingsAgree(value, at[i] + 4);
  }

  ghost function ReadOff(value: seq<Byte>, crc: Crc, at: seq<nat>, n: nat): (chunks: seq<Chunk>)
    requires PngBytes(value, crc, at) && n < |at|
    ensures |chunks| == n
  {
    if n == 0 then []
    else
      PlacedChunk(value, crc, at, n - 1);
      ReadOff(value, crc, at, n - 1) + [ChunkAt(value, at[n - 1])]
  }

  lemma {:induction false} ReadOffIsConsumed(value: seq<Byte>, crc: Crc, at: seq<nat>, n: nat)
    requires PngBytes(value, crc, at) && n < |at| - 1
    ensures Consumed(value, crc, ReadOff(value, crc, at, n), at[n])
    ensures n > 0 ==> var first := ReadOff(value, crc, at, n)[0]; first.kind == IHDR && |first.data| == 13
  {
    if n > 0 {
      ReadOffIsConsumed(value, crc, at, n - 1);
      PlacedChunk(value, crc, at, n - 1);
      ConsumesOneMore(value, crc, ReadOff(value, crc, at, n - 1), at[n - 1]);
    } else {
      assert value[..8] == SIGNATURE;
    }
  }

  lemma BytesAreEncodings(value: seq<Byte>, crc: Crc, at: seq<nat>)
    requires PngBytes(value, crc, at)
    ensures Encodes(value, ReadOff(value, crc, at, |at| - 1), crc)
  {
    var n := |at| - 2;
    ReadOffIsConsumed(value, crc, at, n);
    PlacedChunk(value, crc, at, n);
    ConsumesOneMore(value, crc, ReadOff(value, crc, at, n), at[n]);
    assert value[..at[n + 1]] == value;
  }

  /** Encodings of acceptable chunk lists, told byte by byte. */
  lemma PngsInBytes(value: seq<Byte>, crc: Crc)
    ensures IsPng(value, crc) <==> IsPngInBytes(value, crc)
  {
    if chunks :| Encodes(value, chunks, crc) {
      EncodingsAreBytes(value, chunks, crc, Places(chunks, crc));
    }
    if at :| PngBytes(value, crc, at) {
      BytesAreEncodings(value, crc, at);
    }
  }

  /** One chunk's length and kind, and whether it fits the input, is known and has the right checksum. */
  method ReadChunk(value: seq<Byte>, offset: nat, crc: Crc) returns (good: bool, length: nat, kind: seq<Byte>)
    requires offset + 12 <= |value|
    ensures length == FromBigEndian(value[offset..offset + 4]) && kind == value[offset + 4..offset + 8]
    ensures good <==>
              && offset + 12 + length <= |value| && KnownKind(kind)
              && StoredCrcAt(value, offset) == CrcOf(kind, ChunkAt(value, offset).data, crc)
    ensures length == NumberAt(value, offset)
    ensures good <==>
              && ChunkBytes(value, crc, offset, offset + 12 + length)
              && (Spells(value, offset + 4, "IHDR") || Spells(value, offset + 4, "PLTE") || Spells(value, offset + 4, "IDAT") || Spells(value, offset + 4, "IEND"))
  {
    length := FromBigEndian(value[offset..offset + 4]);
    kind := value[offset + 4..offset + 8];
    NumbersAgree(value, offset);
    SpellingsAgree(value, offset + 4);
    if offset + 12 + length <= |value| {
      ChunksAgree(value, crc, offset, offset + 12 + length);
    }
    if offset + 12 + length > |value| || !KnownKind(kind) {
      return false, length, kind;
    }
    var stored := StoredCrcAt(value, offset);
    good := CrcOf(kind, ChunkAt(value, offset).data, crc) == stored;
  }

  /**
   Accepted are exactly the encodings of acceptable chunk lists. The loop of the walk keeps two facts: what
   has been consumed, and that no other reading of the input is possible.
   */
  method ValidPng(value: seq<Byte>, crc: Crc) returns (ok: bool)
    ensures ok <==> IsPng(value, crc)
    ensures ok <==> IsPngInBytes(value, crc)
  {
    PngsInBytes(value, crc);
    if !(SIGNATURE <= value) {
      NoSignature(value, crc);
      return false;
    }
    ok := WalkChunks(value, crc);
  }

  method WalkChunks(value: seq<Byte>, crc: Crc) returns (ok: bool)
    requires SIGNATURE <= value
    ensures ok <==> IsPng(value, crc)
  {
    var offset := 8;
    var seenIhdr := false;
    ghost var done: seq<Chunk> := [];
    WalkStarts(value, crc);
    while offset + 12 <= |value|
      invariant Consumed(value, crc, done, offset) && Forced(value, crc, done)
      invariant offset == 8 <==> done == []
      invariant seenIhdr <==> done != [] && done[0].kind == IHDR
      invariant seenIhdr ==> |done[0].data| == 13
    {
      var good, length, kind := ReadChunk(value, offset, crc);
      var end := offset + 12 + length;
      if !good {
        NoListFitsAtAll(value, crc, done, offset);
        return false;
      }
      if kind == IHDR {
        if seenIhdr || offset != 8 || length != 13 {
          NoListFitsAtAll(value, crc, done, offset);
          return false;
        }
        seenIhdr := true;
      }
      if kind == IEND {
        if done == [] || length != 0 || end != |value| {
          NoListFitsAtAll(value, crc, done, offset);
        } else {
          Finishes(value, crc, done, offset);
        }
        return seenIhdr && length == 0 && end == |value|;
      }
      Advances(value, crc, done, offset);
      done, offset := done + [ChunkAt(value, offset)], end;
    }
    NoListFitsAtAll(value, crc, done, offset);
    return false;
  }
}
