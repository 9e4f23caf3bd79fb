/** What a writer leaves in a store, and that reading gives it back: the shard
    files of the sharding codec, their index in front of the chunks or behind. */
module ZarrWriting {
  import opened Words
  import opened Radix
  import opened ChunkGrids
  import opened ChunkCodecs
  import opened LittleEndian
  import opened ZarrArrays
  import opened ZarrReading

  /** An inner chunk's stored bytes, unless nobody wrote it. */
  type Part = Option<seq<byte>>

  /** The stored chunks end to end. */
  ghost function Body(parts: seq<Part>): seq<byte> {
    if parts == [] then []
    else Body(parts[..|parts| - 1]) + if parts[|parts| - 1].None? then [] else parts[|parts| - 1].value
  }

  /** The sixteen bytes of an index entry: offset, then length, eight bytes each,
      low byte first; all ones for a chunk that is not there. */
  ghost function EntryBytes(part: Part, at: nat): (bytes: seq<byte>)
    ensures |bytes| == 16
  {
    if part.None? then seq(16, _ => 255) else LeBytes(at, 8) + LeBytes(|part.value|, 8)
  }

  /** The entries of chunks that lie end to end from byte `base` of the file on. */
  ghost function Entries(parts: seq<Part>, base: nat): seq<byte> {
    if parts == [] then []
    else
      var n := |parts| - 1;
      Entries(parts[..n], base) + EntryBytes(parts[n], base + |Body(parts[..n])|)
  }

  /** Where in the file the chunks begin. */
  ghost function BodyStart(n: nat, indexAtStart: bool, indexCrc: bool): nat {
    if indexAtStart then 16 * n + (if indexCrc then 4 else 0) else 0
  }

  /** A shard's file: the chunks, and the index on one side of them, its checksum
      behind it if there is one. */
  ghost function ShardFile(coders: Coders, parts: seq<Part>, indexAtStart: bool, indexCrc: bool): seq<byte> {
    var entries := Entries(parts, BodyStart(|parts|, indexAtStart, indexCrc));
    var index := entries + if indexCrc then coders.crc32c(entries) else [];
    if indexAtStart then index + Body(parts) else Body(parts) + index
  }

  lemma {:induction false} EntriesLength(parts: seq<Part>, base: nat)
    ensures |Entries(parts, base)| == 16 * |parts|
    decreases |parts|
  {
    if parts != [] {
      EntriesLength(parts[..|parts| - 1], base);
    }
  }

  lemma {:induction false} BodyHas(parts: seq<Part>, i: nat)
    requires i < |parts| && parts[i].Some?
    ensures var at := |Body(parts[..i])|;
      at + |parts[i].value| <= |Body(parts)| && Body(parts)[at..at + |parts[i].value|] == parts[i].value
    decreases |parts|
  {
    var n := |parts| - 1;
    var at := |Body(parts[..i])|;
    if i < n {
      BodyHas(parts[..n], i);
      assert parts[..n][..i] == parts[..i];
      assert Body(parts)[at..at + |parts[i].value|] == Body(parts[..n])[at..at + |parts[i].value|];
    }
  }

  lemma {:induction false} EntriesHave(parts: seq<Part>, base: nat, i: nat)
    requires i < |parts|
    ensures |Entries(parts, base)| == 16 * |parts|
    ensures Entries(parts, base)[i * 16..i * 16 + 16] == EntryBytes(parts[i], base + |Body(parts[..i])|)
    decreases |parts|
  {
    hide Body, EntryBytes;
    var n := |parts| - 1;
    var front, entry := Entries(parts[..n], base), EntryBytes(parts[n], base + |Body(parts[..n])|);
    EntriesLength(parts, base);
    EntriesLength(parts[..n], base);
    assert Entries(parts, base) == front + entry;
    if i < n {
      EntriesHave(parts[..n], base, i);
      assert parts[..n][..i] == parts[..i];
      WithinFront(front, entry, i * 16, i * 16 + 16);
    } else {
      assert (front + entry)[|front|..|front| + |entry|] == entry;
    }
  }

  lemma WithinFront(front: seq<byte>, back: seq<byte>, lo: nat, hi: nat)
    requires lo <= hi <= |front|
    ensures (front + back)[lo..hi] == front[lo..hi]
  {
  }

  lemma AllOnes(bytes: seq<byte>)
    requires |bytes| == 8 && forall k :: 0 <= k < 8 ==> bytes[k] == 255
    ensures LeNumber(bytes) == U64 - 1
  {
    assert LeNumber(bytes[8..]) == 0;
    assert bytes[7..][1..] == bytes[8..] && LeNumber(bytes[7..]) == 0xff;
    assert bytes[6..][1..] == bytes[7..] && LeNumber(bytes[6..]) == 0xffff;
    assert bytes[5..][1..] == bytes[6..] && LeNumber(bytes[5..]) == 0xff_ffff;
    assert bytes[4..][1..] == bytes[5..] && LeNumber(bytes[4..]) == 0xffff_ffff;
    assert bytes[3..][1..] == bytes[4..] && LeNumber(bytes[3..]) == 0xff_ffff_ffff;
    assert bytes[2..][1..] == bytes[3..] && LeNumber(bytes[2..]) == 0xffff_ffff_ffff;
    assert bytes[1..][1..] == bytes[2..] && LeNumber(bytes[1..]) == 0xff_ffff_ffff_ffff;
  }

  lemma Power8()
    ensures Power256(8) == U64
  {
    assert Power256(4) == 0x1_0000_0000 by {
      assert Power256(2) == 0x1_0000;
    }
    assert Power256(6) == 0x1_0000_0000_0000;
  }

  /** Sixteen bytes read back as the entry they were written for. */
  lemma EntryReadsBack(a: ZarrArray, raw: seq<byte>, i: nat, part: Part, at: nat)
    requires i * 16 + 16 <= |raw| && raw[i * 16..i * 16 + 16] == EntryBytes(part, at)
    requires part.Some? ==> at + |part.value| < U64
    ensures a.EntryAt(raw, i) == if part.None? then MISSING else ShardEntry(at, |part.value|)
  {
    var sixteen := EntryBytes(part, at);
    assert raw[i * 16..i * 16 + 8] == sixteen[..8] && raw[i * 16 + 8..i * 16 + 16] == sixteen[8..];
    if part.None? {
      AllOnes(sixteen[..8]);
      AllOnes(sixteen[8..]);
    } else {
      assert sixteen[..8] == LeBytes(at, 8) && sixteen[8..] == LeBytes(|part.value|, 8);
      Power8();
      NumberOfBytes(at, 8);
      NumberOfBytes(|part.value|, 8);
    }
  }

  /** The two halves of a shard's file: its index, checksum included, and its chunks. */
  lemma FileParts(coders: Coders, parts: seq<Part>, indexAtStart: bool, indexCrc: bool)
    requires coders.Inverse()
    ensures var n := 16 * |parts| + if indexCrc then 4 else 0;
      var base := BodyStart(|parts|, indexAtStart, indexCrc);
      var file := ShardFile(coders, parts, indexAtStart, indexCrc);
      var entries := Entries(parts, base);
      && |entries| == 16 * |parts|
      && |file| == n + |Body(parts)| && base + |Body(parts)| <= |file|
      && file[base..base + |Body(parts)|] == Body(parts)
      && (if indexAtStart then file[..n] else file[|Body(parts)|..])
         == entries + if indexCrc then coders.crc32c(entries) else []
  {
    hide Entries, Body;
    var n := 16 * |parts| + if indexCrc then 4 else 0;
    EntriesLength(parts, BodyStart(|parts|, indexAtStart, indexCrc));
  }

  /** A reader finds the entries of the index in the file a writer left. */
  lemma IndexReadsBack(a: ZarrArray, parts: seq<Part>)
    requires a.store.Sharded? && |parts| == a.store.inner.Chunks() && a.coders.Inverse()
    ensures var base := BodyStart(|parts|, a.store.indexAtStart, a.store.indexCrc);
      a.RawIndex(ShardFile(a.coders, parts, a.store.indexAtStart, a.store.indexCrc)) == Some(Entries(parts, base))
  {
    hide Entries, Body, ShardFile, ChunkGrid.Chunks, ZarrArray.RawIndex, Coders.StripCrc;
    var base := BodyStart(|parts|, a.store.indexAtStart, a.store.indexCrc);
    var entries := Entries(parts, base);
    var file := ShardFile(a.coders, parts, a.store.indexAtStart, a.store.indexCrc);
    FileParts(a.coders, parts, a.store.indexAtStart, a.store.indexCrc);
    RawIndexIs(a, file, entries + if a.store.indexCrc then a.coders.crc32c(entries) else []);
    if a.store.indexCrc {
      a.coders.RevertsApply(Crc32c, entries, 0);
    } else {
      assert entries + [] == entries;
    }
  }

  /** The index is the first or the last of the file's bytes. */
  lemma RawIndexIs(a: ZarrArray, file: seq<byte>, raw: seq<byte>)
    requires a.store.Sharded? && |raw| <= |file|
    requires |raw| == 16 * a.store.inner.Chunks() + if a.store.indexCrc then 4 else 0
    requires raw == if a.store.indexAtStart then file[..|raw|] else file[|file| - |raw|..]
    ensures a.RawIndex(file) == if a.store.indexCrc then a.coders.StripCrc(raw) else Some(raw)
  {
    hide ChunkGrid.Chunks, Coders.StripCrc;
    var at := if a.store.indexAtStart then 0 else |file| - |raw|;
    assert file[at..at + |raw|] == raw;
  }

  /** Each chunk a writer put into a shard is found there, byte for byte, and each
      it left out is missing. */
  lemma ShardReadsBack(a: ZarrArray, parts: seq<Part>, i: nat)
    requires a.store.Sharded? && |parts| == a.store.inner.Chunks() && a.coders.Inverse() && i < |parts|
    requires |ShardFile(a.coders, parts, a.store.indexAtStart, a.store.indexCrc)| < U64
    ensures var file := ShardFile(a.coders, parts, a.store.indexAtStart, a.store.indexCrc);
      var entry := a.EntryIn(file, i);
      && entry.Ok?
      && (entry.value.IsMissing() <==> parts[i].None?)
      && (parts[i].Some? ==>
            && entry.value.offset + entry.value.nbytes <= |file|
            && file[entry.value.offset..entry.value.offset + entry.value.nbytes] == parts[i].value)
  {
    hide Entries, Body, ShardFile, ChunkGrid.Chunks, ZarrArray.EntryIn, ZarrArray.RawIndex, EntryBytes, BodyStart;
    hide Coders.Inverse;
    var base := BodyStart(|parts|, a.store.indexAtStart, a.store.indexCrc);
    var file := ShardFile(a.coders, parts, a.store.indexAtStart, a.store.indexCrc);
    IndexReadsBack(a, parts);
    EntriesHave(parts, base, i);
    PartInFile(a.coders, parts, a.store.indexAtStart, a.store.indexCrc, i);
    FindsEntry(a, file, Entries(parts, base), i, parts[i], base + |Body(parts[..i])|);
  }

  lemma PartInFile(coders: Coders, parts: seq<Part>, indexAtStart: bool, indexCrc: bool, i: nat)
    requires coders.Inverse() && i < |parts|
    ensures var file := ShardFile(coders, parts, indexAtStart, indexCrc);
      var at := BodyStart(|parts|, indexAtStart, indexCrc) + |Body(parts[..i])|;
      parts[i].Some? ==>
        at + |parts[i].value| <= |file| && file[at..at + |parts[i].value|] == parts[i].value
  {
    hide Entries, Body, ShardFile, BodyStart;
    var base := BodyStart(|parts|, indexAtStart, indexCrc);
    var file := ShardFile(coders, parts, indexAtStart, indexCrc);
    FileParts(coders, parts, indexAtStart, indexCrc);
    if parts[i].Some? {
      BodyHas(parts, i);
      Within(file, base, base + |Body(parts)|, |Body(parts[..i])|, |parts[i].value|);
    }
  }

  lemma FindsEntry(a: ZarrArray, file: seq<byte>, raw: seq<byte>, i: nat, part: Part, at: nat)
    requires a.store.Sharded? && i < a.store.inner.Chunks() && a.RawIndex(file) == Some(raw)
    requires i * 16 + 16 <= |raw| && raw[i * 16..i * 16 + 16] == EntryBytes(part, at)
    requires part.Some? ==> at + |part.value| <= |file| < U64
    ensures a.EntryIn(file, i) == Ok(if part.None? then MISSING else ShardEntry(at, |part.value|))
  {
    hide EntryBytes, ZarrArray.EntryAt, ZarrArray.RawIndex, ChunkGrid.Chunks;
    EntryReadsBack(a, raw, i, part, at);
  }

  lemma Within(file: seq<byte>, lo: nat, hi: nat, at: nat, len: nat)
    requires lo <= hi <= |file| && at + len <= hi - lo
    ensures file[lo..hi][at..at + len] == file[lo + at..lo + at + len]
  {
    SliceOfSlice(file, lo, hi, at, len);
  }

  /** What the chunks of an array were written with, by the numbers they have in
      the cache; nothing for those nobody wrote. */
  type Contents = nat -> Option<seq<byte>>

  ghost function Stored(a: ZarrArray, content: Option<seq<byte>>): Part {
    if content.None? then None else Some(a.coders.Encoded(a.codecs, content.value))
  }

  /** The stored inner chunks of one shard. */
  ghost function PartsOf(a: ZarrArray, contents: Contents, shard: nat): (parts: seq<Part>)
    requires a.store.Sharded?
    ensures |parts| == a.store.inner.Chunks()
  {
    seq(a.store.inner.Chunks(), i requires 0 <= i < a.store.inner.Chunks() =>
      Stored(a, contents(Offset(shard, a.store.inner.Chunks()) + i)))
  }

  /** The shard's file is the one a writer leaves; it may leave none for an empty shard. */
  ghost predicate ShardWritten(a: ZarrArray, contents: Contents, shard: nat)
    requires a.Readable() && a.store.Sharded?
  {
    var parts := PartsOf(a, contents, shard);
    var file := ShardFile(a.coders, parts, a.store.indexAtStart, a.store.indexCrc);
    || (a.FileOf(shard) == Ok(Some(file)) && |file| < U64)
    || (a.FileOf(shard) == Ok(None) && forall i :: 0 <= i < |parts| ==> parts[i].None?)
  }

  /** A chunk is written whole, through codecs that can be undone. */
  ghost predicate Sound(a: ZarrArray, content: Option<seq<byte>>) {
    content.Some? ==>
      |content.value| == a.Leaf().chunkBytes && a.coders.StagesFit(a.codecs, content.value)
  }

  /** The store holds what a writer of these chunks leaves. */
  ghost predicate Written(a: ZarrArray, contents: Contents) {
    && a.Readable() && a.coders.Inverse()
    && (forall n :: 0 <= n < a.Chunks() ==> Sound(a, contents(n)))
    && (if a.store.Chunked? then forall n :: 0 <= n < a.Chunks() ==> a.FileOf(n) == Ok(Stored(a, contents(n)))
        else forall s :: 0 <= s < a.store.shards.Chunks() ==> ShardWritten(a, contents, s))
  }

  lemma OpensStored(a: ZarrArray, content: Option<seq<byte>>)
    requires a.coders.Inverse() && Sound(a, content) && content.Some?
    ensures a.Opened(Stored(a, content).value) == Ok(content.value)
  {
    a.coders.UndoesEncoding(a.codecs, content.value);
  }

  lemma OfFile(a: ZarrArray, shard: nat, i: nat, file: seq<byte>)
    requires a.Readable() && a.store.Sharded? && i < a.store.inner.Chunks()
    requires a.FileOf(shard) == Ok(Some(file)) && a.EntryIn(file, i).Ok?
    ensures a.Entry(shard, i) == a.EntryIn(file, i)
    ensures var entry := a.EntryIn(file, i).value;
      && (entry.IsMissing() ==> a.InnerChunk(shard, i) == Ok(a.FillChunk()))
      && (!entry.IsMissing() ==>
            entry.offset + entry.nbytes <= |file|
            && a.InnerChunk(shard, i) == a.Opened(file[entry.offset..entry.offset + entry.nbytes]))
  {
    hide ZarrArray.FileOf, ZarrArray.Opened, ZarrArray.FillChunk, ZarrArray.RawIndex, ZarrArray.EntryAt;
  }

  lemma OfNothing(a: ZarrArray, shard: nat, i: nat)
    requires a.Readable() && a.store.Sharded? && i < a.store.inner.Chunks() && a.FileOf(shard) == Ok(None)
    ensures a.Entry(shard, i) == Ok(MISSING) && a.InnerChunk(shard, i) == Ok(a.FillChunk())
  {
    hide ZarrArray.FileOf, ZarrArray.Opened, ZarrArray.FillChunk;
  }

  /** Every entry of every index is found, and leads to what its chunk was stored as. */
  lemma EntryReads(a: ZarrArray, contents: Contents, shard: nat, i: nat)
    requires Written(a, contents) && a.store.Sharded? && shard < a.store.shards.Chunks() && i < a.store.inner.Chunks()
    ensures a.Readable() && a.Entry(shard, i).Ok?
    ensures var part := Stored(a, contents(Offset(shard, a.store.inner.Chunks()) + i));
      a.InnerChunk(shard, i) == if part.None? then Ok(a.FillChunk()) else a.Opened(part.value)
  {
    hide ShardFile, ChunkGrid.Chunks, Coders.Inverse, Stored, Offset, ZarrArray.InnerChunk, ZarrArray.Entry;
    hide ZarrArray.FileOf, ZarrArray.EntryIn, ZarrArray.FillChunk, ZarrArray.Opened;
    var parts := PartsOf(a, contents, shard);
    assert ShardWritten(a, contents, shard);
    assert parts[i] == Stored(a, contents(Offset(shard, a.store.inner.Chunks()) + i));
    if a.FileOf(shard) == Ok(None) {
      OfNothing(a, shard, i);
    } else {
      ShardReadsBack(a, parts, i);
      OfFile(a, shard, i, ShardFile(a.coders, parts, a.store.indexAtStart, a.store.indexCrc));
    }
  }

  lemma StoredOrNot(a: ZarrArray, content: Option<seq<byte>>)
    ensures Stored(a, content).None? <==> content.None?
  {
  }

  lemma OfStored(a: ZarrArray, n: nat, part: Part)
    requires a.Readable() && a.store.Chunked? && a.FileOf(n) == Ok(part)
    ensures a.Chunk(n) == if part.None? then Ok(a.FillChunk()) else a.Opened(part.value)
  {
  }

  lemma OfShard(a: ZarrArray, n: nat)
    requires a.Readable() && a.store.Sharded?
    ensures a.Chunk(n) == a.InnerChunk(n / a.store.inner.Chunks(), n % a.store.inner.Chunks())
  {
    hide ZarrArray.InnerChunk, ChunkGrid.Chunks;
  }

  /** A chunk decodes from what it was stored as, and is fill if it was not. */
  lemma ChunkReadsStored(a: ZarrArray, contents: Contents, n: nat)
    requires Written(a, contents) && n < a.Chunks()
    ensures a.Readable() && Sound(a, contents(n)) && a.coders.Inverse()
    ensures var part := Stored(a, contents(n));
      a.Chunk(n) == if part.None? then Ok(a.FillChunk()) else a.Opened(part.value)
  {
    hide ZarrArray.FillChunk, ZarrArray.Chunk, ZarrArray.InnerChunk, ZarrArray.Entry, ZarrArray.Opened;
    hide Coders.Inverse, Sound, Stored, ShardWritten, ZarrArray.FileOf;
    if a.store.Chunked? {
      OfStored(a, n, Stored(a, contents(n)));
    } else {
      var perShard := a.store.inner.Chunks();
      NumberParts(n, a.store.shards.Chunks(), perShard);
      EntryReads(a, contents, n / perShard, n % perShard);
      OfShard(a, n);
    }
  }

  /** Every chunk decodes to what it was written with, or to fill. */
  lemma ChunkReadsBack(a: ZarrArray, contents: Contents, n: nat)
    requires Written(a, contents) && n < a.Chunks()
    ensures a.Readable() && a.Chunk(n) == Ok(if contents(n).None? then a.FillChunk() else contents(n).value)
  {
    hide ZarrArray.FillChunk, ZarrArray.Chunk, ZarrArray.Opened, Coders.Inverse, Sound, Stored, Written;
    ChunkReadsStored(a, contents, n);
    StoredOrNot(a, contents(n));
    if contents(n).Some? {
      OpensStored(a, contents(n));
    }
  }

  lemma NumberParts(n: nat, shards: nat, perShard: nat)
    requires perShard > 0 && n < Offset(shards, perShard)
    ensures n / perShard < shards && Offset(n / perShard, perShard) + n % perShard == n
  {
    QuotientBelow(n, shards, perShard);
  }

  /** The byte the array was written with: a written chunk's, or the fill value's. */
  ghost function Logical(a: ZarrArray, contents: Contents, b: nat): byte
    requires Written(a, contents) && Positive(a.Outer().shape) && b < a.Outer().Bytes()
  {
    var (n, at) := a.LeafByte(b);
    assert n < a.Chunks() && at < a.Leaf().chunkBytes by {
      LeafByteInside(a, b);
    }
    assert Sound(a, contents(n));
    if contents(n).None? then a.fill[b % |a.fill|] else contents(n).value[at]
  }

  /** Reading a store that was written, plain or sharded, never fails and gives
      back the bytes it was written with. */
  lemma WrittenReadsBack(a: ZarrArray, contents: Contents, at: nat, n: nat)
    requires Written(a, contents) && Positive(a.Outer().shape) && at + n <= a.Outer().Bytes()
    ensures forall bytes: seq<byte> :: |bytes| == n ==>
      (Reads(a, at, bytes) <==> forall b :: at <= b < at + n ==> bytes[b - at] == Logical(a, contents, b))
    ensures forall error :: !SomeByteFails(a, at, n, error)
    ensures a.store.Sharded? ==> forall error :: !a.SomeEntryFails(error)
  {
    hide ZarrArray.Chunk, ZarrArray.LeafByte, ChunkGrid.Bytes, ZarrArray.Entry, Written, ByteOf, Logical;
    WrittenReadable(a, contents);
    forall b | at <= b < at + n
      ensures ByteOf(a, b) == Some(Logical(a, contents, b)) && a.Chunk(a.LeafByte(b).0).Ok?
    {
      ByteReadsBack(a, contents, b);
    }
    if a.store.Sharded? {
      forall s, i | 0 <= s < a.store.shards.Chunks() && 0 <= i < a.store.inner.Chunks() ensures a.Entry(s, i).Ok? {
        EntryReads(a, contents, s, i);
      }
    }
  }

  lemma WrittenReadable(a: ZarrArray, contents: Contents)
    requires Written(a, contents)
    ensures a.Readable()
  {
  }

  lemma ByteReadsBack(a: ZarrArray, contents: Contents, b: nat)
    requires Written(a, contents) && Positive(a.Outer().shape) && b < a.Outer().Bytes()
    ensures ByteOf(a, b) == Some(Logical(a, contents, b)) && a.Chunk(a.LeafByte(b).0).Ok?
  {
    hide ZarrArray.Chunk, ZarrArray.LeafByte, ChunkGrid.Bytes, ZarrArray.FillChunk;
    var (k, start) := a.LeafByte(b);
    LeafByteInside(a, b);
    ChunkReadsBack(a, contents, k);
    assert Sound(a, contents(k));
    if contents(k).None? {
      MissingReadsFill(a, b);
    }
  }
}
