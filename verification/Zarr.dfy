/** Zarr v3 arrays: one file per chunk, or many chunks to a shard. */
module ZarrArrays {
  import opened Words
  import opened Radix
  import opened ChunkGrids
  import opened ChunkCodecs
  import opened Buffers
  import opened DecodeCaches
  import opened LittleEndian
  import opened StoreKeys

  /** A name in the store: what is there, nothing, or why it could not be read. */
  type StoredFile = Result<Option<seq<byte>>, string>

  /** Where an inner chunk lies in its shard's file. */
  datatype ShardEntry = ShardEntry(offset: nat, nbytes: nat) {
    predicate IsMissing() {
      offset == U64 - 1 && nbytes == U64 - 1
    }
  }

  const MISSING: ShardEntry := ShardEntry(U64 - 1, U64 - 1)

  datatype Store =
    | Chunked(grid: ChunkGrid)
    | Sharded(shards: ChunkGrid, inner: ChunkGrid, indexAtStart: bool, indexCrc: bool)

  /** `pattern`, over and over, from byte `at` of it. */
  ghost function Repeated(pattern: seq<byte>, at: nat, n: nat): (s: seq<byte>)
    requires pattern != []
    ensures |s| == n
  {
    seq(n, i requires 0 <= i < n => pattern[(at + i) % |pattern|])
  }

  /** `n` bytes of the pattern repeated, from byte `at` on. */
  method FillFrom(pattern: seq<byte>, at: nat, n: nat) returns (dst: seq<byte>)
    requires pattern != []
    ensures dst == Repeated(pattern, at, n)
  {
    var start := at % |pattern|;
    dst := [];
    for i := 0 to n
      invariant dst == Repeated(pattern, at, i)
    {
      SameRemainder(at, i, |pattern|);
      dst := dst + [pattern[(start + i) % |pattern|]];
    }
  }

  lemma SameRemainder(a: nat, b: nat, n: nat)
    requires n > 0
    ensures (a % n + b) % n == (a + b) % n
  {
    BytesOn(a, b, n);
  }

  /** More chunks than this and their index would not fit in memory. */
  const MAX_CHUNKS: nat := 0x400_0000

  ghost predicate Divides(chunkShape: seq<nat>, shard: seq<nat>)
    requires |chunkShape| == |shard| && Positive(chunkShape)
  {
    forall i :: 0 <= i < |shard| ==> shard[i] % chunkShape[i] == 0
  }

  /** The grid over one shard, if inner chunks of this shape fit the shard, divide
      it evenly, and are few enough over the whole array. */
  method ShardGrid(shards: ChunkGrid, chunkShape: seq<nat>) returns (inner: Option<ChunkGrid>)
    requires shards.Valid() && shards.itemsize < U64
    ensures inner.Some? <==>
      && Griddable(shards.chunkShape, chunkShape, shards.itemsize)
      && Divides(chunkShape, shards.chunkShape)
      && Offset(shards.Chunks(), Product(Grid(shards.chunkShape, chunkShape))) <= MAX_CHUNKS
    ensures inner.Some? ==>
      && inner.value.Valid() && inner.value.shape == shards.chunkShape && inner.value.chunkShape == chunkShape
      && inner.value.itemsize == shards.itemsize
  {
    hide Product, FoldFits;
    inner := New(shards.chunkShape, chunkShape, shards.itemsize);
    if inner.Some? {
      var grid := inner.value;
      GridIs(grid);
      if exists i :: 0 <= i < |chunkShape| && shards.chunkShape[i] % chunkShape[i] != 0 {
        return None;
      }
      if shards.Chunks() * grid.Chunks() > MAX_CHUNKS {
        return None;
      }
    }
  }

  lemma GridIs(g: ChunkGrid)
    requires g.Valid()
    ensures g.grid == Grid(g.shape, g.chunkShape)
  {
  }

  datatype ZarrArray = ZarrArray(
    path: string, key: KeyEncoding, store: Store, codecs: seq<ChunkCodec>, coders: Coders,
    fill: seq<byte>, cacheKey: nat, files: string -> StoredFile)
  {
    ghost predicate Valid() {
      match store
      case Chunked(grid) => grid.Valid() && |fill| == grid.itemsize
      case Sharded(shards, inner, _, _) =>
        && shards.Valid() && inner.Valid() && inner.shape == shards.chunkShape
        && inner.itemsize == shards.itemsize == |fill|
        && Divides(inner.chunkShape, inner.shape)
    }

    /** The grid over the whole array, and the grid of what is decoded whole. */
    function Outer(): ChunkGrid {
      if store.Chunked? then store.grid else store.shards
    }

    function Leaf(): ChunkGrid {
      if store.Chunked? then store.grid else store.inner
    }

    /** Where byte `b` of the array lies: the number its chunk has in the cache,
        and the offset in that chunk. */
    ghost function LeafByte(b: nat): (nat, nat)
      requires Valid() && Positive(Outer().shape)
    {
      match store
      case Chunked(grid) => grid.Locate(b)
      case Sharded(shards, inner, _, _) =>
        var (shard, inShard) := shards.Locate(b);
        var (chunk, start) := inner.Locate(inShard);
        (Offset(shard, inner.Chunks()) + chunk, start)
    }

    /** How many chunks are decoded whole, shards' inner chunks counted one by one. */
    ghost function Chunks(): nat {
      match store
      case Chunked(grid) => grid.Chunks()
      case Sharded(shards, inner, _, _) => Offset(shards.Chunks(), inner.Chunks())
    }

    ghost function FileOf(n: nat): StoredFile
      requires Valid() && Positive(Outer().grid)
    {
      files(Key(path, key, Unravel(n, Outer().grid)))
    }

    /** The file holding chunk `n` of the outer grid. */
    method Stored(n: nat) returns (file: StoredFile)
      requires Valid() && Positive(Outer().grid)
      ensures file == FileOf(n)
    {
      var coords := CoordsOf(n, Outer().grid);
      var name := KeyOf(path, key, coords);
      file := files(name);
    }

    function IndexBytes(): nat
      requires store.Sharded?
    {
      store.inner.Chunks() * 16 + if store.indexCrc then 4 else 0
    }

    /** The index of a shard's file, its checksum checked and dropped. */
    function RawIndex(file: seq<byte>): (raw: Option<seq<byte>>)
      requires store.Sharded?
      ensures raw.Some? ==> |raw.value| == store.inner.Chunks() * 16
    {
      if |file| < IndexBytes() then None
      else
        var at := if store.indexAtStart then 0 else |file| - IndexBytes();
        var raw := file[at..at + IndexBytes()];
        if store.indexCrc then coders.StripCrc(raw) else Some(raw)
    }

    function EntryAt(raw: seq<byte>, i: nat): ShardEntry
      requires i * 16 + 16 <= |raw|
    {
      ShardEntry(LeNumber(raw[i * 16..i * 16 + 8]), LeNumber(raw[i * 16 + 8..i * 16 + 16]))
    }

    function EntryIn(file: seq<byte>, i: nat): Result<ShardEntry, string>
      requires store.Sharded? && i < store.inner.Chunks()
    {
      var raw := RawIndex(file);
      if raw.None? then Err("shard index")
      else
        var entry := EntryAt(raw.value, i);
        if entry.IsMissing() || entry.offset + entry.nbytes <= |file| then Ok(entry)
        else Err("inner chunk outside its shard")
    }

    /** The index entry of inner chunk `i` of a shard, missing if the shard itself is. */
    ghost function Entry(shard: nat, i: nat): Result<ShardEntry, string>
      requires Valid() && store.Sharded? && Positive(Outer().grid) && i < store.inner.Chunks()
    {
      match FileOf(shard)
      case Err(e) => Err(e)
      case Ok(None) => Ok(MISSING)
      case Ok(Some(file)) => EntryIn(file, i)
    }

    ghost function FillChunk(): seq<byte>
      requires Valid() && fill != []
    {
      Repeated(fill, 0, Leaf().chunkBytes)
    }

    ghost function Opened(bytes: seq<byte>): Result<seq<byte>, string> {
      match coders.Undone(codecs, bytes, Leaf().chunkBytes)
      case None => Err("chunk")
      case Some(chunk) => Ok(chunk)
    }

    /** What chunk `i` of shard `shard` holds. */
    ghost function InnerChunk(shard: nat, i: nat): Result<seq<byte>, string>
      requires Valid() && fill != [] && store.Sharded? && Positive(Outer().grid) && i < store.inner.Chunks()
    {
      match Entry(shard, i)
      case Err(e) => Err(e)
      case Ok(entry) =>
        if entry.IsMissing() then Ok(FillChunk())
        else
          var file := FileOf(shard).value.value;
          Opened(file[entry.offset..entry.offset + entry.nbytes])
    }

    /** What chunk `n` holds, as a read of it alone finds. */
    ghost function Chunk(n: nat): Result<seq<byte>, string>
      requires Valid() && fill != [] && Positive(Outer().grid) && (store.Sharded? ==> store.inner.Chunks() > 0)
    {
      match store
      case Chunked(_) =>
        (match FileOf(n)
         case Err(e) => Err(e)
         case Ok(None) => Ok(FillChunk())
         case Ok(Some(bytes)) => Opened(bytes))
      case Sharded(_, inner, _, _) => InnerChunk(n / inner.Chunks(), n % inner.Chunks())
    }

    ghost predicate Readable()
    {
      Valid() && fill != [] && Positive(Outer().grid) && (store.Sharded? ==> store.inner.Chunks() > 0)
    }

    /** Entry `i` of shard `s` is in place. */
    ghost predicate EntryIs(index: seq<ShardEntry>, s: nat, i: nat)
      requires Readable() && store.Sharded? && |index| == Chunks()
      requires s < store.shards.Chunks() && i < store.inner.Chunks()
    {
      EntryPlace(s, i, store.shards.Chunks(), store.inner.Chunks());
      Entry(s, i) == Ok(index[Offset(s, store.inner.Chunks()) + i])
    }

    /** The entries of the shards before `shard`, and the first `done` of its own,
        are in place; the others are still missing. */
    ghost predicate Indexed(index: seq<ShardEntry>, shard: nat, done: nat)
      requires Readable() && store.Sharded?
    {
      && |index| == Chunks()
      && (forall s, i ::
            (0 <= s < store.shards.Chunks() && 0 <= i < store.inner.Chunks()
             && (s < shard || (s == shard && i < done))) ==> EntryIs(index, s, i))
      && (forall n :: Offset(shard, store.inner.Chunks()) + done <= n < |index| ==> index[n] == MISSING)
    }

    ghost predicate SomeEntryFails(error: string)
      requires Readable() && store.Sharded?
    {
      exists s, i ::
        0 <= s < store.shards.Chunks() && 0 <= i < store.inner.Chunks() && Entry(s, i) == Err(error)
    }

    lemma NextEntry(index: seq<ShardEntry>, shard: nat, i: nat, entry: ShardEntry)
      requires Readable() && store.Sharded? && shard < store.shards.Chunks() && i < store.inner.Chunks()
      requires Indexed(index, shard, i) && Entry(shard, i) == Ok(entry)
      ensures Offset(shard, store.inner.Chunks()) + i < |index|
      ensures Indexed(index[Offset(shard, store.inner.Chunks()) + i := entry], shard, i + 1)
    {
      hide ZarrArray.Readable, ZarrArray.Entry, Offset;
      var perShard := store.inner.Chunks();
      EntryPlace(shard, i, store.shards.Chunks(), perShard);
      var next := index[Offset(shard, perShard) + i := entry];
      forall s, k | 0 <= s < store.shards.Chunks() && 0 <= k < perShard && (s < shard || (s == shard && k < i + 1))
        ensures EntryIs(next, s, k)
      {
        if s < shard {
          EntryPlace(s, k, shard, perShard);
        }
        assert (s == shard && k == i) || EntryIs(index, s, k);
        EntryPlace(s, k, store.shards.Chunks(), perShard);
      }
    }

    lemma NextShard(index: seq<ShardEntry>, shard: nat)
      requires Readable() && store.Sharded? && shard < store.shards.Chunks()
      requires Indexed(index, shard, store.inner.Chunks())
      ensures Indexed(index, shard + 1, 0)
    {
      hide ZarrArray.Readable, ZarrArray.Entry, Offset;
      OffsetNext(shard, store.inner.Chunks());
    }

    /** Where every inner chunk lies, by `shard * chunks per shard + inner number`. */
    method Index() returns (index: Result<seq<ShardEntry>, string>)
      requires Readable() && store.Sharded?
      ensures index.Ok? ==> Indexed(index.value, store.shards.Chunks(), 0)
      ensures index.Err? ==> SomeEntryFails(index.error)
    {
      hide Product, DivUp, Offset, ZarrArray.Indexed, ChunkGrid.Chunks;
      var perShard := store.inner.Chunks();
      var entries := seq(Offset(store.shards.Chunks(), perShard), _ => MISSING);
      NothingIndexed(entries);
      for shard := 0 to store.shards.Chunks()
        invariant Indexed(entries, shard, 0)
      {
        var file := Stored(shard);
        if file.Err? {
          assert Entry(shard, 0) == Err(file.error);
          return Err(file.error);
        }
        if file.value.None? {
          UnwrittenShard(entries, shard);
        } else {
          var bytes := file.value.value;
          var raw := RawIndex(bytes);
          if raw.None? {
            assert Entry(shard, 0) == Err("shard index");
            return Err("shard index");
          }
          for i := 0 to perShard
            invariant Indexed(entries, shard, i)
          {
            var entry := EntryAt(raw.value, i);
            if entry.IsMissing() {
              SkippedEntry(entries, shard, i);
              continue;
            }
            if entry.offset + entry.nbytes > |bytes| {
              assert Entry(shard, i) == Err("inner chunk outside its shard");
              return Err("inner chunk outside its shard");
            }
            NextEntry(entries, shard, i, entry);
            entries := entries[Offset(shard, perShard) + i := entry];
          }
          NextShard(entries, shard);
        }
      }
      index := Ok(entries);
    }

    lemma NothingIndexed(index: seq<ShardEntry>)
      requires Readable() && store.Sharded? && |index| == Chunks() && forall e :: e in index ==> e == MISSING
      ensures Indexed(index, 0, 0)
    {
      forall n | 0 <= n < |index| ensures index[n] == MISSING {
        assert index[n] in index;
      }
    }

    /** A missing entry is where the index started from. */
    lemma SkippedEntry(index: seq<ShardEntry>, shard: nat, i: nat)
      requires Readable() && store.Sharded? && shard < store.shards.Chunks() && i < store.inner.Chunks()
      requires Indexed(index, shard, i) && Entry(shard, i) == Ok(MISSING)
      ensures Indexed(index, shard, i + 1)
    {
      hide ZarrArray.Readable, ZarrArray.Entry;
      var at := Offset(shard, store.inner.Chunks()) + i;
      NextEntry(index, shard, i, MISSING);
      assert index[at := MISSING] == index;
    }

    lemma UnwrittenShard(index: seq<ShardEntry>, shard: nat)
      requires Readable() && store.Sharded? && shard < store.shards.Chunks()
      requires Indexed(index, shard, 0) && FileOf(shard) == Ok(None)
      ensures Indexed(index, shard + 1, 0)
    {
      hide ZarrArray.Indexed, ChunkGrid.Chunks;
      for i := 0 to store.inner.Chunks()
        invariant Indexed(index, shard, i)
      {
        SkippedEntry(index, shard, i);
      }
      NextShard(index, shard);
    }

    /** A chunk of fill value, written over whatever `spare` held. */
    method FillWhole(spare: Buffer)
      requires Valid() && fill != []
      modifies spare
      ensures spare.bytes == FillChunk()
    {
      spare.Resize(Leaf().chunkBytes);
      var whole := FillFrom(fill, 0, Leaf().chunkBytes);
      spare.Overwrite(whole);
    }

    method Open(bytes: seq<byte>, spare: Buffer) returns (chunk: Result<Buffer, string>)
      requires coders.Bounded()
      modifies spare
      ensures Decoded(chunk, Opened(bytes))
      ensures chunk.Ok? ==> chunk.value == spare || fresh(chunk.value)
    {
      var stored := new Buffer(bytes);
      var undone := coders.Undo(codecs, stored, Leaf().chunkBytes, spare);
      chunk := if undone.Some? then Ok(undone.value) else Err("chunk");
    }

    lemma IndexLookup(index: seq<ShardEntry>, n: nat)
      requires Readable() && store.Sharded? && n < Chunks() && Indexed(index, store.shards.Chunks(), 0)
      ensures n < |index| && Entry(n / store.inner.Chunks(), n % store.inner.Chunks()) == Ok(index[n])
    {
      hide Product, DivUp, ChunkGrid.Chunks, ZarrArray.Entry;
      var perShard := store.inner.Chunks();
      var shard, i := n / perShard, n % perShard;
      assert n == Offset(shard, perShard) + i;
      QuotientBelow(n, store.shards.Chunks(), perShard);
      assert EntryIs(index, shard, i);
    }

    /** Decoding chunk `n` on a miss, with the shard indexes at hand, into the lent
        buffer or one of its own. */
    method DecodeChunk(n: nat, index: seq<ShardEntry>, spare: Buffer) returns (chunk: Result<Buffer, string>)
      requires Readable() && n < Chunks() && coders.Bounded()
      requires store.Sharded? ==> Indexed(index, store.shards.Chunks(), 0)
      modifies spare
      ensures Decoded(chunk, Chunk(n))
      ensures chunk.Ok? ==> chunk.value == spare || fresh(chunk.value)
    {
      if store.Chunked? {
        chunk := DecodeFile(n, spare);
      } else {
        chunk := DecodeInner(n, index, spare);
      }
    }

    method DecodeFile(n: nat, spare: Buffer) returns (chunk: Result<Buffer, string>)
      requires Readable() && store.Chunked? && coders.Bounded()
      modifies spare
      ensures Decoded(chunk, Chunk(n))
      ensures chunk.Ok? ==> chunk.value == spare || fresh(chunk.value)
    {
      var file := Stored(n);
      if file.Err? {
        return Err(file.error);
      }
      if file.value.None? {
        FillWhole(spare);
        return Ok(spare);
      }
      chunk := Open(file.value.value, spare);
    }

    method DecodeInner(n: nat, index: seq<ShardEntry>, spare: Buffer) returns (chunk: Result<Buffer, string>)
      requires Readable() && store.Sharded? && n < Chunks() && Indexed(index, store.shards.Chunks(), 0)
      requires coders.Bounded()
      modifies spare
      ensures Decoded(chunk, Chunk(n))
      ensures chunk.Ok? ==> chunk.value == spare || fresh(chunk.value)
    {
      hide Product, DivUp, Offset, Unravel, Key, ChunkGrid.Chunks, ZarrArray.Indexed, ZarrArray.Entry, ZarrArray.Opened;
      hide ZarrArray.FileOf, ZarrArray.FillChunk, ZarrArray.Valid;
      IndexLookup(index, n);
      var entry := index[n];
      var shard := n / store.inner.Chunks();
      if entry.IsMissing() {
        FillResult(spare);
        chunk := Ok(spare);
      } else {
        EntryFits(shard, n % store.inner.Chunks(), entry);
        var file := Stored(shard);
        chunk := Open(file.value.value[entry.offset..entry.offset + entry.nbytes], spare);
      }
    }

    method FillResult(spare: Buffer)
      requires Valid() && fill != []
      modifies spare
      ensures spare.bytes == FillChunk()
    {
      FillWhole(spare);
    }

    /** An entry that is not missing lies inside its shard's file. */
    lemma EntryFits(shard: nat, i: nat, entry: ShardEntry)
      requires Readable() && store.Sharded? && i < store.inner.Chunks()
      requires Entry(shard, i) == Ok(entry) && !entry.IsMissing()
      ensures FileOf(shard).Ok? && FileOf(shard).value.Some?
      ensures entry.offset + entry.nbytes <= |FileOf(shard).value.value|
    {
    }
  }

  lemma EntryPlace(s: nat, i: nat, shards: nat, perShard: nat)
    requires s < shards && i < perShard
    ensures Offset(s, perShard) + i < Offset(shards, perShard)
  {
    DigitBound(s, shards, i, perShard);
  }
}
