/** Reading a Zarr array's bytes: the grid walked, each piece copied out of a
    decoded chunk, and for a sharded array the same walk again inside a shard. */
module ZarrReading {
  import opened Words
  import opened Radix
  import opened ChunkGrids
  import opened DecodeCaches
  import opened ZarrArrays

  /** A grid whose chunks are cached under `owner`, numbered from `base`. */
  datatype Keyed = Keyed(owner: nat, base: nat, grid: ChunkGrid) {
    function Key(chunk: nat): ChunkKey {
      (owner, base + chunk)
    }

    /** Chunks that decode at all decode whole. */
    ghost predicate Served(source: Source) {
      && grid.Valid()
      && forall c :: 0 <= c < grid.Chunks() && source(Key(c)).Ok? ==> |source(Key(c)).value| == grid.chunkBytes
    }

    ghost function KeyAt(b: nat): ChunkKey
      requires grid.Valid() && Positive(grid.shape)
    {
      Key(grid.Locate(b).0)
    }

    /** The bytes are the grid's array from byte `at` on. */
    ghost predicate Delivers(source: Source, at: nat, bytes: seq<byte>)
      requires Served(source) && Positive(grid.shape)
    {
      forall b :: at <= b < at + |bytes| ==> Holds(source, at, bytes, b)
    }

    /** Byte `b` of the array is where it should be in `bytes`, which start at byte `at`. */
    ghost predicate Holds(source: Source, at: nat, bytes: seq<byte>, b: nat)
      requires Served(source) && Positive(grid.shape) && at <= b < at + |bytes|
    {
      var chunk := source(KeyAt(b));
      chunk.Ok? && grid.Locate(b).1 < |chunk.value| && chunk.value[grid.Locate(b).1] == bytes[b - at]
    }

    /** One of the array's bytes `[at, at + n)` lies in a chunk that does not decode. */
    ghost predicate Fails(source: Source, at: nat, n: nat, error: string)
      requires Served(source) && Positive(grid.shape)
    {
      exists b :: at <= b < at + n && source(KeyAt(b)) == Err(error)
    }

    lemma DeliversMore(source: Source, at: nat, a: seq<byte>, b: seq<byte>)
      requires Served(source) && Positive(grid.shape)
      requires Delivers(source, at, a) && Delivers(source, at + |a|, b)
      ensures Delivers(source, at, a + b)
    {
      hide Keyed.Served;
      forall i | at <= i < at + |a + b| ensures Holds(source, at, a + b, i) {
        if i < at + |a| {
          assert Holds(source, at, a, i);
        } else {
          assert Holds(source, at + |a|, b, i);
        }
      }
    }

    lemma PieceDelivers(source: Source, at: nat, p: Piece, bytes: seq<byte>)
      requires Served(source) && Positive(grid.shape) && StaysIn(grid, at, p)
      requires source(Key(p.chunk)).Ok?
      requires |source(Key(p.chunk)).value| == grid.chunkBytes
      requires bytes == source(Key(p.chunk)).value[p.start..p.start + p.len]
      ensures Delivers(source, at, bytes)
    {
    }

    lemma PieceFails(source: Source, at: nat, p: Piece, error: string)
      requires Served(source) && Positive(grid.shape) && StaysIn(grid, at, p) && p.len > 0
      requires source(Key(p.chunk)) == Err(error)
      ensures Fails(source, at, p.len, error)
    {
      assert grid.Locate(at) == (p.chunk, p.start + (at - at));
      assert source(KeyAt(at)) == Err(error);
    }

    lemma FailsMore(source: Source, at: nat, n: nat, start: nat, len: nat, error: string)
      requires Served(source) && Positive(grid.shape) && Fails(source, start, len, error)
      requires at <= start && start + len <= at + n
      ensures Fails(source, at, n, error)
    {
    }

    /** Copy one piece of the walk, which starts at byte `at` of the array. */
    method ReadPiece(cache: DecodeCache, at: nat, p: Piece, out: array<byte>, lo: nat)
      returns (done: Result<(), string>)
      requires cache.Valid() && cache.Sound() && Served(cache.source)
      requires Positive(grid.shape) && StaysIn(grid, at, p) && lo + p.len <= out.Length
      modifies cache, cache.Pool(), out
      ensures cache.Valid() && cache.Sound() && fresh(cache.Pool() - old(cache.Pool()))
      ensures cache.lent == old(cache.lent) && cache.held == old(cache.held)
      ensures done.Ok? ==> Delivers(cache.source, at, out[lo..lo + p.len])
      ensures done.Err? && p.len > 0 ==> Fails(cache.source, at, p.len, done.error)
      ensures out[..lo] == old(out[..lo]) && out[lo + p.len..] == old(out[lo + p.len..])
    {
      hide Keyed.Delivers, Keyed.Fails, DecodeCache.Valid, DecodeCache.Sound, DecodeCache.Pool, Positive, Touch;
      done := cache.ReadInto(Key(p.chunk), p.start, out, lo, p.len);
      if done.Ok? {
        PieceDelivers(cache.source, at, p, out[lo..lo + p.len]);
      } else if p.len > 0 {
        PieceFails(cache.source, at, p, done.error);
      }
    }

    /** Read `[at, at + n)` of the grid's array into `out[lo..lo + n]`. */
    method Read(cache: DecodeCache, at: nat, out: array<byte>, lo: nat, n: nat) returns (done: Result<(), string>)
      requires cache.Valid() && cache.Sound() && Served(cache.source)
      requires at + n <= grid.Bytes() && lo + n <= out.Length
      modifies cache, cache.Pool(), out
      ensures cache.Valid() && cache.Sound() && fresh(cache.Pool() - old(cache.Pool()))
      ensures cache.lent == old(cache.lent) && cache.held == old(cache.held)
      ensures n > 0 ==> Positive(grid.shape)
      ensures done.Ok? && n > 0 ==> Delivers(cache.source, at, out[lo..lo + n])
      ensures done.Err? && n > 0 ==> Fails(cache.source, at, n, done.error)
      ensures out[..lo] == old(out[..lo]) && out[lo + n..] == old(out[lo + n..])
    {
      var pieces := Walk(grid, at, n);
      done := Ok(());
      if pieces != [] {
        done := ReadPieces(cache, at, pieces, out, lo, n);
      }
    }

    method ReadPieces(cache: DecodeCache, at: nat, pieces: seq<Piece>, out: array<byte>, lo: nat, n: nat)
      returns (done: Result<(), string>)
      requires cache.Valid() && cache.Sound() && Served(cache.source)
      requires Positive(grid.shape) && Walked(grid, at, pieces) && Carried(pieces) == n && lo + n <= out.Length
      requires n > 0 ==> forall i :: 0 <= i < |pieces| ==> pieces[i].len > 0
      modifies cache, cache.Pool(), out
      ensures cache.Valid() && cache.Sound() && fresh(cache.Pool() - old(cache.Pool()))
      ensures cache.lent == old(cache.lent) && cache.held == old(cache.held)
      ensures done.Ok? ==> Delivers(cache.source, at, out[lo..lo + n])
      ensures done.Err? && n > 0 ==> Fails(cache.source, at, n, done.error)
      ensures out[..lo] == old(out[..lo]) && out[lo + n..] == old(out[lo + n..])
    {
      hide Keyed.Delivers, Keyed.Fails, Keyed.Served, StaysIn, Carried, Positive, DecodeCache.Valid, DecodeCache.Sound;
      var got: nat := 0;
      NothingDelivered(cache.source, at);
      assert out[lo..lo + got] == [];
      NothingCarried(pieces);
      for i := 0 to |pieces|
        invariant cache.Valid() && cache.Sound() && fresh(cache.Pool() - old(cache.Pool()))
        invariant cache.lent == old(cache.lent) && cache.held == old(cache.held)
        invariant got == Carried(pieces[..i]) <= n
        invariant Delivers(cache.source, at, out[lo..lo + got])
        invariant out[..lo] == old(out[..lo]) && out[lo + n..] == old(out[lo + n..])
      {
        var p := pieces[i];
        CarriedNext(pieces, i);
        ghost var was := out[..];
        done := ReadPiece(cache, at + got, p, out, lo + got);
        SliceKept(was, out[..], lo, got, p.len, n);
        if done.Err? {
          if n > 0 {
            FailsMore(cache.source, at, n, at + got, p.len, done.error);
          }
          return;
        }
        DeliversMore(cache.source, at, out[lo..lo + got], out[lo + got..lo + got + p.len]);
        got := got + p.len;
      }
      assert pieces[..|pieces|] == pieces;
      done := Ok(());
    }

    lemma NothingDelivered(source: Source, at: nat)
      requires Served(source) && Positive(grid.shape)
      ensures Delivers(source, at, [])
    {
    }
  }

  lemma NothingCarried(pieces: seq<Piece>)
    ensures Carried(pieces[..0]) == 0
  {
  }

  lemma CarriedNext(pieces: seq<Piece>, i: nat)
    requires i < |pieces|
    ensures Carried(pieces[..i + 1]) == Carried(pieces[..i]) + pieces[i].len
    ensures Carried(pieces[..i + 1]) <= Carried(pieces)
    decreases |pieces|
  {
    assert pieces[..i + 1][..i] == pieces[..i];
    if i + 1 == |pieces| {
      assert pieces[..i + 1] == pieces;
    } else {
      var init := pieces[..|pieces| - 1];
      CarriedNext(init, i);
      assert init[..i + 1] == pieces[..i + 1];
    }
  }

  /** Writing `out[lo + got..lo + got + len]` leaves the rest as it was. */
  lemma SliceKept(was: seq<byte>, now: seq<byte>, lo: nat, got: nat, len: nat, n: nat)
    requires |was| == |now| && got + len <= n && lo + n <= |was|
    requires now[..lo + got] == was[..lo + got] && now[lo + got + len..] == was[lo + got + len..]
    ensures now[..lo] == was[..lo] && now[lo + n..] == was[lo + n..]
    ensures now[lo..lo + got] == was[lo..lo + got]
    ensures now[lo..lo + got + len] == now[lo..lo + got] + now[lo + got..lo + got + len]
  {
    assert now[..lo] == now[..lo + got][..lo] && was[..lo] == was[..lo + got][..lo];
    assert now[lo..lo + got] == now[..lo + got][lo..] && was[lo..lo + got] == was[..lo + got][lo..];
    var k := lo + got + len;
    assert now[lo + n..] == now[k..][lo + n - k..] && was[lo + n..] == was[k..][lo + n - k..];
  }

  /** Byte `b` of the array, unless its chunk does not decode. */
  ghost function ByteOf(a: ZarrArray, b: nat): Option<byte>
    requires a.Readable() && Positive(a.Outer().shape)
  {
    var (n, start) := a.LeafByte(b);
    var chunk := a.Chunk(n);
    if chunk.Ok? && start < |chunk.value| then Some(chunk.value[start]) else None
  }

  /** The cache decodes the array's chunks as the array does. */
  ghost predicate Backs(a: ZarrArray, source: Source)
    requires a.Readable()
  {
    forall n :: 0 <= n < a.Chunks() ==> source((a.cacheKey, n)) == a.Chunk(n)
  }

  /** The bytes are the array's from byte `at` on. */
  ghost predicate Reads(a: ZarrArray, at: nat, bytes: seq<byte>)
    requires a.Readable() && Positive(a.Outer().shape)
  {
    forall b :: at <= b < at + |bytes| ==> ByteOf(a, b) == Some(bytes[b - at])
  }

  ghost predicate SomeByteFails(a: ZarrArray, at: nat, n: nat, error: string)
    requires a.Readable() && Positive(a.Outer().shape)
  {
    exists b :: at <= b < at + n && a.Chunk(a.LeafByte(b).0) == Err(error)
  }

  /** A chunk decodes to its full, padded size or not at all. */
  lemma ChunkWhole(a: ZarrArray, n: nat)
    requires a.Readable() && a.Chunk(n).Ok?
    ensures |a.Chunk(n).value| == a.Leaf().chunkBytes
  {
  }

  /** An array whose axes all have elements has chunks. */
  lemma HasChunks(g: ChunkGrid)
    requires g.Valid() && Positive(g.shape)
    ensures Positive(g.grid) && g.Chunks() > 0
  {
    forall i | 0 <= i < |g.grid| ensures g.grid[i] > 0 {
      ChunkOnAxis(0, g.shape[i], g.chunkShape[i]);
    }
    ProductPositive(g.grid);
  }

  lemma IsReadable(a: ZarrArray)
    requires a.Valid() && Positive(a.Outer().shape)
    ensures a.Readable()
  {
    HasChunks(a.Outer());
    HasChunks(a.Leaf());
  }

  /** Every byte lies in a chunk the array has, at a place inside it. */
  lemma LeafByteInside(a: ZarrArray, b: nat)
    requires a.Valid() && Positive(a.Outer().shape) && b < a.Outer().Bytes()
    ensures a.LeafByte(b).0 < a.Chunks() && a.LeafByte(b).1 < a.Leaf().chunkBytes
  {
    hide ChunkGrid.Locate, ChunkGrid.Chunks, Product;
    LocateInside(a.Outer(), b);
    if a.store.Sharded? {
      var (shard, inShard) := a.store.shards.Locate(b);
      LocateInside(a.store.inner, inShard);
      EntryPlace(shard, a.store.inner.Locate(inShard).0, a.store.shards.Chunks(), a.store.inner.Chunks());
    }
  }

  /** No two inner chunks share a number, so none share a cache entry. */
  lemma NumbersApart(shard: nat, i: nat, shard': nat, i': nat, perShard: nat)
    requires i < perShard && i' < perShard && Offset(shard, perShard) + i == Offset(shard', perShard) + i'
    ensures shard == shard' && i == i'
  {
    DivModUnique(shard, i, perShard);
    DivModUnique(shard', i', perShard);
  }

  /** The chunks of an unsharded array, as the cache keys them. */
  function WholeArray(a: ZarrArray): Keyed
    requires a.store.Chunked?
  {
    Keyed(a.cacheKey, 0, a.store.grid)
  }

  /** The inner chunks of one shard. */
  function InShard(a: ZarrArray, shard: nat): Keyed
    requires a.store.Sharded?
  {
    Keyed(a.cacheKey, Offset(shard, a.store.inner.Chunks()), a.store.inner)
  }

  lemma WholeServed(a: ZarrArray, source: Source)
    requires a.Readable() && a.store.Chunked? && Backs(a, source)
    ensures WholeArray(a).Served(source)
  {
    var k := WholeArray(a);
    forall c | 0 <= c < a.store.grid.Chunks() && source(k.Key(c)).Ok?
      ensures |source(k.Key(c)).value| == a.store.grid.chunkBytes
    {
      assert k.Key(c) == (a.cacheKey, c);
      ChunkWhole(a, c);
    }
  }

  lemma ShardServed(a: ZarrArray, source: Source, shard: nat)
    requires a.Readable() && a.store.Sharded? && Backs(a, source) && shard < a.store.shards.Chunks()
    ensures InShard(a, shard).Served(source)
  {
    hide ZarrArray.Chunk, ChunkGrid.Chunks;
    var k, inner := InShard(a, shard), a.store.inner;
    forall c | 0 <= c < inner.Chunks() && source(k.Key(c)).Ok?
      ensures |source(k.Key(c)).value| == inner.chunkBytes
    {
      EntryPlace(shard, c, a.store.shards.Chunks(), inner.Chunks());
      assert k.Key(c) == (a.cacheKey, Offset(shard, inner.Chunks()) + c);
      ChunkWhole(a, Offset(shard, inner.Chunks()) + c);
    }
  }

  lemma WholeReads(a: ZarrArray, source: Source, at: nat, bytes: seq<byte>)
    requires a.Readable() && a.store.Chunked? && Backs(a, source) && Positive(a.Outer().shape)
    requires WholeArray(a).Served(source) && WholeArray(a).Delivers(source, at, bytes)
    requires at + |bytes| <= a.Outer().Bytes()
    ensures Reads(a, at, bytes)
  {
    hide ZarrArray.Chunk, ChunkGrid.Locate, ChunkGrid.Chunks, ChunkGrid.Bytes;
    var k := WholeArray(a);
    forall b | at <= b < at + |bytes| ensures ByteOf(a, b) == Some(bytes[b - at]) {
      assert k.Holds(source, at, bytes, b);
      LeafByteInside(a, b);
      assert k.KeyAt(b) == (a.cacheKey, a.LeafByte(b).0);
    }
  }

  lemma WholeFails(a: ZarrArray, source: Source, at: nat, n: nat, error: string)
    requires a.Readable() && a.store.Chunked? && Backs(a, source) && Positive(a.Outer().shape)
    requires WholeArray(a).Served(source) && WholeArray(a).Fails(source, at, n, error)
    requires at + n <= a.Outer().Bytes()
    ensures SomeByteFails(a, at, n, error)
  {
    hide ZarrArray.Chunk, ChunkGrid.Locate, ChunkGrid.Chunks, ChunkGrid.Bytes;
    var k := WholeArray(a);
    var b :| at <= b < at + n && source(k.KeyAt(b)) == Err(error);
    LeafByteInside(a, b);
    assert k.KeyAt(b) == (a.cacheKey, a.LeafByte(b).0);
  }

  /** Bytes of one piece of the outer walk, read inside their shard, are bytes of the array. */
  lemma ShardReads(a: ZarrArray, source: Source, at: nat, p: Piece, bytes: seq<byte>)
    requires a.Readable() && a.store.Sharded? && Backs(a, source) && Positive(a.Outer().shape)
    requires at + p.len <= a.Outer().Bytes() && StaysIn(a.store.shards, at, p) && |bytes| == p.len
    requires InShard(a, p.chunk).Served(source) && InShard(a, p.chunk).Delivers(source, p.start, bytes)
    ensures Reads(a, at, bytes)
  {
    hide ZarrArray.Chunk, ChunkGrid.Locate, ChunkGrid.Chunks, ChunkGrid.Bytes;
    var k := InShard(a, p.chunk);
    forall b | at <= b < at + |bytes| ensures ByteOf(a, b) == Some(bytes[b - at]) {
      assert k.Holds(source, p.start, bytes, p.start + (b - at));
      LeafByteInside(a, b);
      assert k.KeyAt(p.start + (b - at)) == (a.cacheKey, a.LeafByte(b).0);
    }
  }

  lemma ShardFails(a: ZarrArray, source: Source, at: nat, p: Piece, error: string)
    requires a.Readable() && a.store.Sharded? && Backs(a, source) && Positive(a.Outer().shape)
    requires at + p.len <= a.Outer().Bytes() && StaysIn(a.store.shards, at, p)
    requires InShard(a, p.chunk).Served(source) && InShard(a, p.chunk).Fails(source, p.start, p.len, error)
    ensures SomeByteFails(a, at, p.len, error)
  {
    hide ZarrArray.Chunk, ChunkGrid.Locate, ChunkGrid.Chunks, ChunkGrid.Bytes;
    var k := InShard(a, p.chunk);
    var x :| p.start <= x < p.start + p.len && source(k.KeyAt(x)) == Err(error);
    var b := at + (x - p.start);
    LeafByteInside(a, b);
    assert a.store.shards.Locate(b) == (p.chunk, x);
    assert k.KeyAt(x) == (a.cacheKey, a.LeafByte(b).0);
    assert a.Chunk(a.LeafByte(b).0) == Err(error);
  }

  lemma ReadsMore(a: ZarrArray, at: nat, x: seq<byte>, y: seq<byte>)
    requires a.Readable() && Positive(a.Outer().shape) && Reads(a, at, x) && Reads(a, at + |x|, y)
    ensures Reads(a, at, x + y)
  {
  }

  lemma BytesFail(a: ZarrArray, at: nat, n: nat, start: nat, len: nat, error: string)
    requires a.Readable() && Positive(a.Outer().shape) && SomeByteFails(a, start, len, error)
    requires at <= start && start + len <= at + n
    ensures SomeByteFails(a, at, n, error)
  {
  }

  /** Any bytes of the array, or the error of a byte among them or of an index entry. */
  method ReadAt(a: ZarrArray, cache: DecodeCache, at: nat, out: array<byte>) returns (done: Result<(), string>)
    requires a.Valid() && at + out.Length <= a.Outer().Bytes()
    requires cache.Valid() && cache.Sound() && (a.Readable() ==> Backs(a, cache.source))
    modifies cache, cache.Pool(), out
    ensures cache.Valid() && cache.Sound() && cache.lent == old(cache.lent) && cache.held == old(cache.held)
    ensures out.Length > 0 ==> Positive(a.Outer().shape) && a.Readable()
    ensures done.Ok? && out.Length > 0 ==> Reads(a, at, out[..])
    ensures done.Err? && out.Length > 0 ==>
      SomeByteFails(a, at, out.Length, done.error) || (a.store.Sharded? && a.SomeEntryFails(done.error))
  {
    if out.Length == 0 {
      return Ok(());
    }
    ByteOfArray(a.Outer(), at);
    IsReadable(a);
    if a.store.Chunked? {
      done := ReadWhole(a, cache, at, out);
    } else {
      done := ReadShards(a, cache, at, out);
    }
  }

  method ReadWhole(a: ZarrArray, cache: DecodeCache, at: nat, out: array<byte>) returns (done: Result<(), string>)
    requires a.Readable() && a.store.Chunked? && Positive(a.Outer().shape)
    requires out.Length > 0 && at + out.Length <= a.Outer().Bytes()
    requires cache.Valid() && cache.Sound() && Backs(a, cache.source)
    modifies cache, cache.Pool(), out
    ensures cache.Valid() && cache.Sound() && cache.lent == old(cache.lent) && cache.held == old(cache.held)
    ensures done.Ok? ==> Reads(a, at, out[..])
    ensures done.Err? ==> SomeByteFails(a, at, out.Length, done.error)
  {
    hide Reads, SomeByteFails, Backs, ZarrArray.Chunk, Keyed.Delivers, Keyed.Fails;
    WholeServed(a, cache.source);
    done := WholeArray(a).Read(cache, at, out, 0, out.Length);
    assert out[0..0 + out.Length] == out[..];
    if done.Ok? {
      WholeReads(a, cache.source, at, out[..]);
    } else {
      WholeFails(a, cache.source, at, out.Length, done.error);
    }
  }

  method ReadShards(a: ZarrArray, cache: DecodeCache, at: nat, out: array<byte>) returns (done: Result<(), string>)
    requires a.Readable() && a.store.Sharded? && Positive(a.Outer().shape)
    requires out.Length > 0 && at + out.Length <= a.Outer().Bytes()
    requires cache.Valid() && cache.Sound() && Backs(a, cache.source)
    modifies cache, cache.Pool(), out
    ensures cache.Valid() && cache.Sound() && cache.lent == old(cache.lent) && cache.held == old(cache.held)
    ensures done.Ok? ==> Reads(a, at, out[..])
    ensures done.Err? ==> SomeByteFails(a, at, out.Length, done.error) || a.SomeEntryFails(done.error)
  {
    hide Reads, SomeByteFails, Backs, ZarrArray.Chunk, ZarrArray.SomeEntryFails, ChunkGrid.Valid, Positive;
    hide StaysIn, Carried, DecodeCache.Valid, DecodeCache.Sound, ZarrArray.Indexed;
    var index := a.Index();
    if index.Err? {
      return Err(index.error);
    }
    var pieces := Walk(a.store.shards, at, out.Length);
    var got: nat := 0;
    NothingCarried(pieces);
    NothingRead(a, at);
    assert out[..0] == [];
    for i := 0 to |pieces|
      invariant cache.Valid() && cache.Sound() && fresh(cache.Pool() - old(cache.Pool()))
      invariant cache.lent == old(cache.lent) && cache.held == old(cache.held)
      invariant got == Carried(pieces[..i]) <= out.Length
      invariant Reads(a, at, out[..got])
    {
      var p := pieces[i];
      CarriedNext(pieces, i);
      ghost var was := out[..got];
      done := ReadShard(a, cache, at + got, p, out, got);
      assert out[..got] == was;
      if done.Err? {
        BytesFail(a, at, out.Length, at + got, p.len, done.error);
        return;
      }
      ReadsMore(a, at, out[..got], out[got..got + p.len]);
      assert out[..got + p.len] == out[..got] + out[got..got + p.len];
      got := got + p.len;
    }
    assert pieces[..|pieces|] == pieces && out[..got] == out[..];
    done := Ok(());
  }

  lemma NothingRead(a: ZarrArray, at: nat)
    requires a.Readable() && Positive(a.Outer().shape)
    ensures Reads(a, at, [])
  {
  }

  /** One piece of the outer walk, which is a range for the grid inside the shard. */
  method ReadShard(a: ZarrArray, cache: DecodeCache, at: nat, p: Piece, out: array<byte>, got: nat)
    returns (done: Result<(), string>)
    requires a.Readable() && a.store.Sharded? && Positive(a.Outer().shape)
    requires at + p.len <= a.Outer().Bytes() && StaysIn(a.store.shards, at, p) && p.len > 0
    requires got + p.len <= out.Length
    requires cache.Valid() && cache.Sound() && Backs(a, cache.source)
    modifies cache, cache.Pool(), out
    ensures cache.Valid() && cache.Sound() && fresh(cache.Pool() - old(cache.Pool()))
    ensures cache.lent == old(cache.lent) && cache.held == old(cache.held)
    ensures done.Ok? ==> Reads(a, at, out[got..got + p.len])
    ensures done.Err? ==> SomeByteFails(a, at, p.len, done.error)
    ensures out[..got] == old(out[..got])
  {
    hide Reads, SomeByteFails, Backs, ZarrArray.Chunk, Positive, DecodeCache.Valid, DecodeCache.Sound;
    hide Keyed.Delivers, Keyed.Fails, Keyed.Served;
    ShardServed(a, cache.source, p.chunk);
    done := InShard(a, p.chunk).Read(cache, p.start, out, got, p.len);
    if done.Ok? {
      ShardReads(a, cache.source, at, p, out[got..got + p.len]);
    } else {
      ShardFails(a, cache.source, at, p, done.error);
    }
  }

  /** A byte of a chunk nobody wrote is the fill value's. */
  lemma MissingReadsFill(a: ZarrArray, b: nat)
    requires a.Readable() && Positive(a.Outer().shape) && b < a.Outer().Bytes()
    requires a.Chunk(a.LeafByte(b).0) == Ok(a.FillChunk())
    ensures ByteOf(a, b) == Some(a.fill[b % |a.fill|])
  {
    hide ZarrArray.Chunk, ChunkGrid.Chunks, Product, Ravel;
    LeafByteInside(a, b);
    var start := a.LeafByte(b).1;
    var item := |a.fill|;
    if a.store.Chunked? {
      OffsetRemainder(a.store.grid.WithinAt(a.store.grid.Position(b)), b % item, item);
    } else {
      var shards, inner := a.store.shards, a.store.inner;
      var inShard := shards.Locate(b).1;
      OffsetRemainder(shards.WithinAt(shards.Position(b)), b % item, item);
      OffsetRemainder(inner.WithinAt(inner.Position(inShard)), inShard % item, item);
    }
    assert start % item == b % item;
  }

  lemma OffsetRemainder(e: nat, skip: nat, itemsize: nat)
    requires skip < itemsize
    ensures (Offset(e, itemsize) + skip) % itemsize == skip
  {
    DivModUnique(e, skip, itemsize);
  }

  /** Cutting an axis into shards and each shard into chunks that divide it evenly
      is cutting the axis into those chunks. */
  lemma TwoLevels(x: nat, shard: nat, chunk: nat)
    requires shard > 0 && chunk > 0 && shard % chunk == 0
    ensures Quot(x, chunk) == Offset(Quot(x, shard), DivUp(shard, chunk)) + Quot(Rem(x, shard), chunk)
    ensures Rem(Rem(x, shard), chunk) == Rem(x, chunk)
  {
    hide Quot, Rem, Offset, DivUp;
    var k, q, r := DivUp(shard, chunk), Quot(x, shard), Rem(x, shard);
    var t, u := Quot(r, chunk), Rem(r, chunk);
    QuotRem(x, shard);
    QuotRem(r, chunk);
    DivUpExact(shard, chunk);
    OffsetTwice(q, k, chunk);
    OffsetAdd(Offset(q, k), t, chunk);
    QuotUnique(x, Offset(q, k) + t, u, chunk);
  }

  lemma QuotRem(x: nat, c: nat)
    requires c > 0
    ensures x == Offset(Quot(x, c), c) + Rem(x, c)
  {
  }

  lemma QuotUnique(x: nat, q: nat, r: nat, c: nat)
    requires r < c && x == Offset(q, c) + r
    ensures Quot(x, c) == q && Rem(x, c) == r
  {
    DivModUnique(q, r, c);
  }

  lemma DivUpExact(n: nat, d: nat)
    requires d > 0 && n % d == 0
    ensures n == Offset(DivUp(n, d), d)
  {
  }

  lemma OffsetTwice(a: nat, b: nat, c: nat)
    ensures Offset(a, Offset(b, c)) == Offset(Offset(a, b), c)
  {
    assert a * (b * c) == a * b * c;
  }

  /** The shard a byte lies in, by its coordinates. */
  ghost function ShardCoords(a: ZarrArray, b: nat): seq<nat>
    requires a.Valid() && a.store.Sharded? && Positive(a.Outer().shape)
  {
    ChunkIndex(a.store.shards.Position(b), a.store.shards.chunkShape)
  }

  /** Where in the shard its element lies. */
  ghost function CoordsInShard(a: ZarrArray, b: nat): seq<nat>
    requires a.Valid() && a.store.Sharded? && Positive(a.Outer().shape)
  {
    WithinIndex(a.store.shards.Position(b), a.store.shards.chunkShape)
  }

  /** Each coordinate is the first, scaled, plus the second. */
  ghost predicate Scaled(whole: seq<nat>, high: seq<nat>, scale: seq<nat>, low: seq<nat>) {
    && |whole| == |high| == |scale| == |low|
    && forall i :: 0 <= i < |whole| ==> whole[i] == Digit(high[i], scale[i], low[i])
  }

  lemma AxesInShard(pos: seq<nat>, shard: seq<nat>, chunk: seq<nat>, grid: seq<nat>)
    requires |pos| == |shard| == |chunk| == |grid| && Positive(shard) && Positive(chunk)
    requires forall i :: 0 <= i < |shard| ==> shard[i] % chunk[i] == 0 && grid[i] == DivUp(shard[i], chunk[i])
    ensures Scaled(ChunkIndex(pos, chunk), ChunkIndex(pos, shard), grid, ChunkIndex(WithinIndex(pos, shard), chunk))
    ensures WithinIndex(WithinIndex(pos, shard), chunk) == WithinIndex(pos, chunk)
  {
    hide DivUp;
    forall i | 0 <= i < |pos|
      ensures Quot(pos[i], chunk[i]) == Digit(Quot(pos[i], shard[i]), grid[i], Quot(Rem(pos[i], shard[i]), chunk[i]))
      ensures Rem(Rem(pos[i], shard[i]), chunk[i]) == Rem(pos[i], chunk[i])
    {
      TwoLevels(pos[i], shard[i], chunk[i]);
    }
  }

  /** A sharded array lies as the same array chunked by the inner chunks alone
      does: each byte is at the same place of its inner chunk, and the inner
      chunk's coordinates are its shard's, scaled, plus its own in the shard. */
  lemma ShardedLikeFlat(a: ZarrArray, b: nat)
    requires a.Readable() && a.store.Sharded? && Positive(a.Outer().shape) && b < a.Outer().Bytes()
    ensures var shards, inner := a.store.shards, a.store.inner;
      && a.LeafByte(b) == (
           Offset(Ravel(ShardCoords(a, b), shards.grid), inner.Chunks())
             + Ravel(ChunkIndex(CoordsInShard(a, b), inner.chunkShape), inner.grid),
           Offset(Ravel(WithinIndex(shards.Position(b), inner.chunkShape), inner.chunkShape), inner.itemsize)
             + b % inner.itemsize)
      && Scaled(ChunkIndex(shards.Position(b), inner.chunkShape), ShardCoords(a, b), inner.grid,
                ChunkIndex(CoordsInShard(a, b), inner.chunkShape))
  {
    hide Ravel, Unravel, Product, Scaled, DivUp;
    var shards, inner := a.store.shards, a.store.inner;
    PositionInShard(a, b);
    AxesInShard(shards.Position(b), shards.chunkShape, inner.chunkShape, inner.grid);
  }

  /** What the outer walk calls an offset in the shard is, to the inner grid, the
      element at the coordinates inside the shard. */
  lemma PositionInShard(a: ZarrArray, b: nat)
    requires a.Readable() && a.store.Sharded? && Positive(a.Outer().shape) && b < a.Outer().Bytes()
    ensures var shards, inner := a.store.shards, a.store.inner;
      var at := shards.Locate(b).1;
      && inner.Position(at) == WithinIndex(shards.Position(b), shards.chunkShape)
      && at % inner.itemsize == b % inner.itemsize
  {
    hide Ravel, Unravel, Product;
    var shards, inner := a.store.shards, a.store.inner;
    var pos := shards.Position(b);
    ByteOfArray(shards, b);
    IndexInside(shards, pos);
    var inShard := WithinIndex(pos, shards.chunkShape);
    var e := Ravel(inShard, inner.shape);
    DivModUnique(e, b % inner.itemsize, inner.itemsize);
    UnravelRavel(inShard, inner.shape);
  }
}
