/** HDF5 chunked datasets: the filter pipeline undone, and the read that picks
    fill value, raw file or decoded chunk. */
module Hdf5Chunks {
  import opened Words
  import opened Radix
  import opened Buffers
  import opened ChunkGrids
  import opened DecodeCaches
  import opened ZarrArrays
  import opened ZarrReading
  import Fletcher
  import LittleEndian
  import Shuffling

  datatype Filter = Fletcher32 | Deflate | Shuffle

  /** Whether a chunk's mask says filter `i` was skipped for it. */
  predicate Skipped(mask: nat, i: nat) {
    if i == 0 then mask % 2 == 1 else Skipped(mask / 2, i - 1)
  }

  /** The compression library: what it writes, and what it expands to, at most
      some bytes of it. */
  datatype Zlib = Zlib(deflate: seq<byte> -> seq<byte>, inflate: (seq<byte>, nat) -> Option<seq<byte>>) {
    ghost predicate Inverse() {
      forall x, n :: inflate(deflate(x), n) == Some(x[..Min(n, |x|)])
    }
  }

  /** One filter applied by a writer. */
  ghost function Applied(zlib: Zlib, filter: Filter, itemsize: nat, x: seq<byte>): seq<byte>
    requires itemsize > 0
  {
    match filter
    case Fletcher32 => x + LittleEndian.LeBytes(Fletcher.ChecksumOf(x), 4)
    case Deflate => zlib.deflate(x)
    case Shuffle => Shuffling.Shuffled(x, itemsize)
  }

  ghost function Reverted(zlib: Zlib, filter: Filter, itemsize: nat, chunkBytes: nat, x: seq<byte>): Option<seq<byte>>
    requires itemsize > 0
  {
    match filter
    case Fletcher32 => if Fletcher.Checks(x) then Some(x[..|x| - 4]) else None
    case Deflate => zlib.inflate(x, chunkBytes + 1)
    case Shuffle => Some(Shuffling.Unshuffled(x, itemsize))
  }

  /** A chunk as the pipeline writes it, filters masked out left out. */
  ghost function Stored(zlib: Zlib, filters: seq<Filter>, mask: nat, itemsize: nat, chunk: seq<byte>): seq<byte>
    requires itemsize > 0
  {
    if filters == [] then chunk
    else
      var n := |filters| - 1;
      var inner := Stored(zlib, filters[..n], mask, itemsize, chunk);
      if Skipped(mask, n) then inner else Applied(zlib, filters[n], itemsize, inner)
  }

  /** The stored bytes with the pipeline undone, last filter first. */
  ghost function Undone(zlib: Zlib, filters: seq<Filter>, mask: nat, itemsize: nat, chunkBytes: nat,
      x: seq<byte>): Option<seq<byte>>
    requires itemsize > 0
    decreases |filters|
  {
    if filters == [] then Some(x)
    else
      var n := |filters| - 1;
      var under := if Skipped(mask, n) then Some(x) else Reverted(zlib, filters[n], itemsize, chunkBytes, x);
      if under.None? then None else Undone(zlib, filters[..n], mask, itemsize, chunkBytes, under.value)
  }

  /** What a chunk decodes to: a whole chunk, or nothing. */
  ghost function Whole(zlib: Zlib, filters: seq<Filter>, mask: nat, itemsize: nat, chunkBytes: nat,
      x: seq<byte>): Option<seq<byte>>
    requires itemsize > 0
  {
    var r := Undone(zlib, filters, mask, itemsize, chunkBytes, x);
    if r.Some? && |r.value| == chunkBytes then r else None
  }

  /** Undo a chunk's filters between the buffer it was read into and the lent one,
      each in turn the source and the destination. */
  method Decode(zlib: Zlib, filters: seq<Filter>, mask: nat, itemsize: nat, chunkBytes: nat, stored: Buffer,
      lent: Buffer)
    returns (chunk: Option<Buffer>)
    requires itemsize > 0 && stored != lent
    modifies stored, lent
    ensures chunk.Some? <==> Whole(zlib, filters, mask, itemsize, chunkBytes, old(stored.bytes)).Some?
    ensures chunk.Some? ==>
      && Whole(zlib, filters, mask, itemsize, chunkBytes, old(stored.bytes)) == Some(chunk.value.bytes)
      && chunk.value in {stored, lent}
  {
    hide Reverted;
    var bytes, spare := stored, lent;
    var i: nat := |filters|;
    assert filters[..i] == filters;
    while i > 0
      invariant i <= |filters| && {bytes, spare} == {stored, lent}
      invariant Undone(zlib, filters, mask, itemsize, chunkBytes, old(stored.bytes))
             == Undone(zlib, filters[..i], mask, itemsize, chunkBytes, bytes.bytes)
    {
      i := i - 1;
      assert filters[..i + 1][..i] == filters[..i];
      if Skipped(mask, i) {
        continue;
      }
      var under, other := Revert(zlib, filters[i], itemsize, chunkBytes, bytes, spare);
      if under.None? {
        return None;
      }
      bytes, spare := under.value, other;
    }
    chunk := if |bytes.bytes| == chunkBytes then Some(bytes) else None;
  }

  /** Undo one filter: into `spare`, or in place for a checksum. */
  method Revert(zlib: Zlib, filter: Filter, itemsize: nat, chunkBytes: nat, bytes: Buffer, spare: Buffer)
    returns (under: Option<Buffer>, other: Buffer)
    requires itemsize > 0 && bytes != spare
    modifies bytes, spare
    ensures under.Some? <==> Reverted(zlib, filter, itemsize, chunkBytes, old(bytes.bytes)).Some?
    ensures under.Some? ==>
      && Reverted(zlib, filter, itemsize, chunkBytes, old(bytes.bytes)) == Some(under.value.bytes)
      && {under.value, other} == {bytes, spare}
  {
    under, other := None, spare;
    match filter {
      case Fletcher32 =>
        var stripped := Fletcher.Strip(bytes.bytes);
        if stripped.Some? {
          bytes.Truncate(|stripped.value|);
          under := Some(bytes);
        }
      case Deflate =>
        var expanded := zlib.inflate(bytes.bytes, chunkBytes + 1);
        if expanded.Some? {
          spare.Refill(expanded.value);
          under, other := Some(spare), bytes;
        }
      case Shuffle =>
        spare.Refill(bytes.bytes);
        var out := new byte[|spare.bytes|](i requires 0 <= i < |spare.bytes| reads spare => spare.bytes[i]);
        Shuffling.Unshuffle(bytes.bytes, itemsize, out);
        spare.Overwrite(out[..]);
        assert spare.bytes == out[..];
        under, other := Some(spare), bytes;
    }
  }

  function Power2(i: nat): (p: nat)
    ensures p > 0
  {
    if i == 0 then 1 else 2 * Power2(i - 1)
  }

  /** A filter is skipped exactly if its own bit of the mask is set. */
  lemma {:induction false} SkippedIsBit(mask: nat, i: nat)
    ensures Skipped(mask, i) <==> mask / Power2(i) % 2 == 1
    decreases i
  {
    if i > 0 {
      SkippedIsBit(mask / 2, i - 1);
      HalfFirst(mask, Power2(i - 1));
    }
  }

  lemma HalfFirst(n: nat, p: nat)
    requires p > 0
    ensures n / 2 / p == n / (2 * p)
  {
    var q, r := n / (2 * p), n % (2 * p);
    assert n == q * (2 * p) + r;
    assert q * (2 * p) == 2 * (q * p);
    assert n / 2 == q * p + r / 2;
    DivModUnique(q, r / 2, p);
  }

  /** The filters a chunk went through: those whose bit of its mask is clear. */
  ghost function InUse(filters: seq<Filter>, mask: nat): seq<Filter> {
    if filters == [] then []
    else
      var n := |filters| - 1;
      InUse(filters[..n], mask) + if mask / Power2(n) % 2 == 0 then [filters[n]] else []
  }

  ghost function AppliedAll(zlib: Zlib, filters: seq<Filter>, itemsize: nat, x: seq<byte>): seq<byte>
    requires itemsize > 0
  {
    if filters == [] then x
    else Applied(zlib, filters[|filters| - 1], itemsize, AppliedAll(zlib, filters[..|filters| - 1], itemsize, x))
  }

  /** Every filter reverted, the last one applied first. */
  ghost function RevertedAll(zlib: Zlib, filters: seq<Filter>, itemsize: nat, chunkBytes: nat,
      x: seq<byte>): Option<seq<byte>>
    requires itemsize > 0
    decreases |filters|
  {
    if filters == [] then Some(x)
    else
      var under := Reverted(zlib, filters[|filters| - 1], itemsize, chunkBytes, x);
      if under.None? then None
      else RevertedAll(zlib, filters[..|filters| - 1], itemsize, chunkBytes, under.value)
  }

  /** A mask takes filters out of the pipeline, for the writer and the reader alike:
      what is applied, and reverted, are the filters whose bit is clear. */
  lemma {:induction false} MaskTakesOut(zlib: Zlib, filters: seq<Filter>, mask: nat, itemsize: nat, chunkBytes: nat,
      x: seq<byte>)
    requires itemsize > 0
    ensures Undone(zlib, filters, mask, itemsize, chunkBytes, x)
         == RevertedAll(zlib, InUse(filters, mask), itemsize, chunkBytes, x)
    ensures Stored(zlib, filters, mask, itemsize, x) == AppliedAll(zlib, InUse(filters, mask), itemsize, x)
    decreases |filters|
  {
    if filters != [] {
      hide Reverted, Applied;
      var n := |filters| - 1;
      SkippedIsBit(mask, n);
      var used := InUse(filters[..n], mask);
      MaskTakesOut(zlib, filters[..n], mask, itemsize, chunkBytes, x);
      if Skipped(mask, n) {
        assert used + [] == used;
      } else {
        assert (used + [filters[n]])[..|used|] == used;
        var under := Reverted(zlib, filters[n], itemsize, chunkBytes, x);
        if under.Some? {
          MaskTakesOut(zlib, filters[..n], mask, itemsize, chunkBytes, under.value);
        }
      }
    }
  }

  /** The usual mask, 0, skips nothing; one with a bit set for each filter skips all. */
  lemma {:induction false} NoneOrAllSkipped(filters: seq<Filter>, mask: nat)
    ensures InUse(filters, 0) == filters
    ensures (forall i :: 0 <= i < |filters| ==> mask / Power2(i) % 2 == 1) ==> InUse(filters, mask) == []
    decreases |filters|
  {
    if filters != [] {
      hide Power2;
      var n := |filters| - 1;
      NoneOrAllSkipped(filters[..n], mask);
      NoBits(Power2(n));
      assert filters[..n] + [filters[n]] == filters;
    }
  }

  lemma NoBits(p: nat)
    requires p > 0
    ensures 0 / p % 2 == 0
  {
  }

  /** Nothing the compressor was given is longer than expanding it may produce. */
  ghost predicate StagesFit(zlib: Zlib, filters: seq<Filter>, mask: nat, itemsize: nat, chunk: seq<byte>)
    requires itemsize > 0
  {
    filters != [] ==>
      var n := |filters| - 1;
      && StagesFit(zlib, filters[..n], mask, itemsize, chunk)
      && (filters[n] == Deflate && !Skipped(mask, n) ==>
            |Stored(zlib, filters[..n], mask, itemsize, chunk)| <= |chunk| + 1)
  }

  /** A chunk written through a pipeline whose stages fit decodes to itself,
      whichever filters were skipped for it. */
  lemma {:induction false} DecodesWhatIsStored(zlib: Zlib, filters: seq<Filter>, mask: nat, itemsize: nat,
      chunk: seq<byte>)
    requires itemsize > 0 && zlib.Inverse() && StagesFit(zlib, filters, mask, itemsize, chunk)
    ensures Undone(zlib, filters, mask, itemsize, |chunk|, Stored(zlib, filters, mask, itemsize, chunk)) == Some(chunk)
    decreases |filters|
  {
    hide Applied, Reverted;
    if filters != [] {
      var n := |filters| - 1;
      var inner := Stored(zlib, filters[..n], mask, itemsize, chunk);
      DecodesWhatIsStored(zlib, filters[..n], mask, itemsize, chunk);
      if !Skipped(mask, n) {
        RevertsApplied(zlib, filters[n], itemsize, |chunk|, inner);
      }
    }
  }

  lemma RevertsApplied(zlib: Zlib, filter: Filter, itemsize: nat, chunkBytes: nat, x: seq<byte>)
    requires itemsize > 0 && zlib.Inverse() && (filter == Deflate ==> |x| <= chunkBytes + 1)
    ensures Reverted(zlib, filter, itemsize, chunkBytes, Applied(zlib, filter, itemsize, x)) == Some(x)
  {
    match filter {
      case Fletcher32 => Fletcher.StripsWhatIsWritten(x, false);
      case Deflate => assert x[..|x|] == x;
      case Shuffle => Shuffling.UnshufflesShuffle(x, itemsize);
    }
  }

  /** Filter `f` was used for the chunk, at place `i` of the pipeline. */
  predicate Used(filters: seq<Filter>, mask: nat, i: nat, f: Filter)
    requires i < |filters|
  {
    filters[i] == f && !Skipped(mask, i)
  }

  ghost predicate NoDeflate(filters: seq<Filter>, mask: nat) {
    forall i :: 0 <= i < |filters| ==> !Used(filters, mask, i, Deflate)
  }

  /** Checksums the pipeline added. */
  ghost function Checksums(filters: seq<Filter>, mask: nat): nat {
    if filters == [] then 0
    else
      var n := |filters| - 1;
      Checksums(filters[..n], mask) + if Used(filters, mask, n, Fletcher32) then 1 else 0
  }

  lemma NoDeflatePrefix(filters: seq<Filter>, mask: nat, n: nat)
    requires NoDeflate(filters, mask) && n <= |filters|
    ensures NoDeflate(filters[..n], mask)
  {
    forall i | 0 <= i < n ensures !Used(filters[..n], mask, i, Deflate) {
      assert !Used(filters, mask, i, Deflate);
    }
  }

  /** Without a compressor a stored chunk is longer by its checksums. */
  lemma {:induction false} StoredLength(zlib: Zlib, filters: seq<Filter>, mask: nat, itemsize: nat, chunk: seq<byte>)
    requires itemsize > 0 && NoDeflate(filters, mask)
    ensures |Stored(zlib, filters, mask, itemsize, chunk)| == |chunk| + 4 * Checksums(filters, mask)
    ensures StagesFit(zlib, filters, mask, itemsize, chunk)
    decreases |filters|
  {
    if filters != [] {
      var n := |filters| - 1;
      NoDeflatePrefix(filters, mask, n);
      StoredLength(zlib, filters[..n], mask, itemsize, chunk);
      assert !Used(filters, mask, n, Deflate);
    }
  }

  lemma {:induction false} UndoneLength(zlib: Zlib, filters: seq<Filter>, mask: nat, itemsize: nat, chunkBytes: nat,
                                        x: seq<byte>)
    requires itemsize > 0 && NoDeflate(filters, mask)
    ensures var r := Undone(zlib, filters, mask, itemsize, chunkBytes, x);
      r.Some? ==> |r.value| + 4 * Checksums(filters, mask) == |x|
    decreases |filters|
  {
    if filters != [] {
      var n := |filters| - 1;
      assert !Used(filters, mask, n, Deflate);
      NoDeflatePrefix(filters, mask, n);
      var under := if Skipped(mask, n) then Some(x) else Reverted(zlib, filters[n], itemsize, chunkBytes, x);
      if under.Some? {
        UndoneLength(zlib, filters[..n], mask, itemsize, chunkBytes, under.value);
      }
    }
  }

  /** The filters after the compressor are undone exactly. */
  lemma {:induction false} TailUndone(zlib: Zlib, filters: seq<Filter>, mask: nat, itemsize: nat, chunk: seq<byte>,
      d: nat)
    requires itemsize > 0 && zlib.Inverse() && d <= |filters|
    requires forall i :: d <= i < |filters| ==> !Used(filters, mask, i, Deflate)
    ensures Undone(zlib, filters, mask, itemsize, |chunk|, Stored(zlib, filters, mask, itemsize, chunk))
         == Undone(zlib, filters[..d], mask, itemsize, |chunk|, Stored(zlib, filters[..d], mask, itemsize, chunk))
    ensures StagesFit(zlib, filters[..d], mask, itemsize, chunk) ==> StagesFit(zlib, filters, mask, itemsize, chunk)
    decreases |filters|
  {
    hide Reverted, Applied;
    if d == |filters| {
      assert filters[..d] == filters;
    } else {
      var n := |filters| - 1;
      assert !Used(filters, mask, n, Deflate);
      forall i | d <= i < n ensures !Used(filters[..n], mask, i, Deflate) {
        assert !Used(filters, mask, i, Deflate);
      }
      TailUndone(zlib, filters[..n], mask, itemsize, chunk, d);
      assert filters[..n][..d] == filters[..d];
      if !Skipped(mask, n) {
        RevertsApplied(zlib, filters[n], itemsize, |chunk|, Stored(zlib, filters[..n], mask, itemsize, chunk));
      }
    }
  }

  /** With one compressor in use, a chunk reads back if and only if no checksum was
      added before it was compressed: what expands is one byte over a chunk at most. */
  lemma OneDeflate(zlib: Zlib, filters: seq<Filter>, mask: nat, itemsize: nat, chunk: seq<byte>, d: nat)
    requires itemsize > 0 && zlib.Inverse() && d < |filters| && Used(filters, mask, d, Deflate)
    requires forall i :: 0 <= i < |filters| && i != d ==> !Used(filters, mask, i, Deflate)
    ensures Whole(zlib, filters, mask, itemsize, |chunk|, Stored(zlib, filters, mask, itemsize, chunk)) == Some(chunk)
       <==> Checksums(filters[..d], mask) == 0
  {
    hide Applied, Reverted;
    var before, upTo := filters[..d], filters[..d + 1];
    assert upTo[..d] == before;
    forall i | 0 <= i < d ensures !Used(before, mask, i, Deflate) {
      assert !Used(filters, mask, i, Deflate);
    }
    StoredLength(zlib, before, mask, itemsize, chunk);
    TailUndone(zlib, filters, mask, itemsize, chunk, d + 1);
    if Checksums(before, mask) == 0 {
      DecodesWhatIsStored(zlib, filters, mask, itemsize, chunk);
    } else {
      var inner := Stored(zlib, before, mask, itemsize, chunk);
      Expands(zlib, itemsize, |chunk|, inner);
      UndoneLength(zlib, before, mask, itemsize, |chunk|, inner[..|chunk| + 1]);
    }
  }

  lemma Expands(zlib: Zlib, itemsize: nat, chunkBytes: nat, x: seq<byte>)
    requires itemsize > 0 && zlib.Inverse() && |x| > chunkBytes
    ensures Reverted(zlib, Deflate, itemsize, chunkBytes, Applied(zlib, Deflate, itemsize, x))
      == Some(x[..chunkBytes + 1])
  {
  }

  /** A chunk's place in the file, unless it has none. */
  datatype ChunkEntry = Missing | ChunkEntry(addr: nat, size: nat, filterMask: nat)

  datatype Chunked = Chunked(
    grid: ChunkGrid, filters: seq<Filter>, zlib: Zlib, index: seq<ChunkEntry>, file: seq<byte>,
    fill: seq<byte>, cacheKey: nat)
  {
    /** What reading the index checks: chunks lie in the file, and unfiltered ones
        are whole. */
    ghost predicate Valid() {
      && grid.Valid() && |index| == grid.Chunks() && |fill| == grid.itemsize
      && forall n :: 0 <= n < |index| ==> EntryFits(index[n])
    }

    ghost predicate EntryFits(entry: ChunkEntry) {
      entry.ChunkEntry? ==>
        entry.addr + entry.size <= |file| && (filters == [] ==> entry.size == grid.chunkBytes)
    }

    /** What chunk `n` holds, whichever way it is read. */
    ghost function Chunk(n: nat): Result<seq<byte>, string>
      requires Valid() && n < |index|
    {
      match index[n]
      case Missing => Ok(Repeated(fill, 0, grid.chunkBytes))
      case ChunkEntry(addr, size, mask) =>
        if filters == [] then Ok(file[addr..addr + size])
        else
          match Whole(zlib, filters, mask, grid.itemsize, grid.chunkBytes, file[addr..addr + size])
          case None => Err("chunk")
          case Some(chunk) => Ok(chunk)
    }

    /** A chunk that lies in the file as the pipeline wrote it decodes to what was
        written, whichever filters its mask left out. */
    lemma ReadsBack(n: nat, chunk: seq<byte>)
      requires Valid() && n < |index| && index[n].ChunkEntry? && grid.itemsize > 0 && zlib.Inverse()
      requires |chunk| == grid.chunkBytes && StagesFit(zlib, filters, index[n].filterMask, grid.itemsize, chunk)
      requires file[index[n].addr..index[n].addr + index[n].size]
            == AppliedAll(zlib, InUse(filters, index[n].filterMask), grid.itemsize, chunk)
      ensures Chunk(n) == Ok(chunk)
    {
      hide Applied, Undone, StagesFit, Zlib.Inverse, Chunked.Chunk, Chunked.Valid;
      var mask := index[n].filterMask;
      MaskTakesOut(zlib, filters, mask, grid.itemsize, grid.chunkBytes, chunk);
      DecodesWhatIsStored(zlib, filters, mask, grid.itemsize, chunk);
      OneChunk(n);
    }

    lemma OneChunk(n: nat)
      requires Valid() && n < |index| && index[n].ChunkEntry? && grid.itemsize > 0
      ensures index[n].addr + index[n].size <= |file|
      ensures var x := file[index[n].addr..index[n].addr + index[n].size];
        if filters == [] then Chunk(n) == Ok(x)
        else
          var r := Undone(zlib, filters, index[n].filterMask, grid.itemsize, grid.chunkBytes, x);
          r.Some? && |r.value| == grid.chunkBytes ==> Chunk(n) == Ok(r.value)
    {
    }

    /** All the chunks, as one source. */
    ghost function Chunks(): Source
      requires Valid()
    {
      (key: ChunkKey) => if key.1 < |index| then Chunk(key.1) else Err("chunk")
    }

    ghost function Keys(): Keyed {
      Keyed(cacheKey, 0, grid)
    }

    /** Chunks the cache is asked for decode as the dataset does. */
    ghost predicate Backed(source: Source)
      requires Valid()
    {
      forall n :: 0 <= n < |index| && index[n].ChunkEntry? && filters != [] ==> source((cacheKey, n)) == Chunk(n)
    }

    lemma ChunksWhole(n: nat)
      requires Valid() && n < |index| && Chunk(n).Ok?
      ensures |Chunk(n).value| == grid.chunkBytes
    {
    }

    lemma ChunksServed()
      requires Valid()
      ensures Keys().Served(Chunks())
    {
      forall c | 0 <= c < grid.Chunks() && Chunks()(Keys().Key(c)).Ok?
        ensures |Chunks()(Keys().Key(c)).value| == grid.chunkBytes
      {
        ChunksWhole(c);
      }
    }

    /** A piece of a chunk that is not decoded: the fill value, or the file as it is. */
    method CopyPlain(p: Piece, out: array<byte>, lo: nat)
      requires Valid() && p.chunk < |index| && (index[p.chunk].Missing? || filters == [])
      requires p.start + p.len <= grid.chunkBytes && lo + p.len <= out.Length
      modifies out
      ensures Chunk(p.chunk).Ok? && p.start + p.len <= |Chunk(p.chunk).value|
      ensures out[lo..lo + p.len] == Chunk(p.chunk).value[p.start..p.start + p.len]
      ensures out[..lo] == old(out[..lo]) && out[lo + p.len..] == old(out[lo + p.len..])
    {
      hide Repeated;
      match index[p.chunk] {
        case Missing =>
          var bytes := FillFrom(fill, p.start % grid.itemsize, p.len);
          FillAnywhere(p.start, p.len);
          CopyOut(bytes, 0, out, lo, p.len);
        case ChunkEntry(addr, size, _) =>
          CopyOut(file, addr + p.start, out, lo, p.len);
          SliceOfFile(addr, size, p.start, p.len);
      }
    }

    lemma SliceOfFile(addr: nat, size: nat, start: nat, len: nat)
      requires addr + size <= |file| && start + len <= size
      ensures file[addr..addr + size][start..start + len] == file[addr + start..addr + start + len]
    {
      SliceOfSlice(file, addr, addr + size, start, len);
    }

    /** One piece of the walk: the fill value, the file, or the decoded chunk. */
    method ReadPiece(cache: DecodeCache, p: Piece, out: array<byte>, lo: nat) returns (done: Result<(), string>)
      requires Valid() && cache.Valid() && cache.Sound() && Backed(cache.source)
      requires p.chunk < |index| && p.start + p.len <= grid.chunkBytes && lo + p.len <= out.Length
      modifies cache, cache.Pool(), out
      ensures cache.Valid() && cache.Sound() && fresh(cache.Pool() - old(cache.Pool()))
      ensures done.Ok? <==> Chunk(p.chunk).Ok?
      ensures done.Ok? ==> p.start + p.len <= |Chunk(p.chunk).value|
      ensures done.Ok? ==> out[lo..lo + p.len] == Chunk(p.chunk).value[p.start..p.start + p.len]
      ensures done.Err? ==> done.error == Chunk(p.chunk).error
      ensures out[..lo] == old(out[..lo]) && out[lo + p.len..] == old(out[lo + p.len..])
    {
      hide Chunked.Chunk, Chunked.Valid, Chunked.Backed, DecodeCache.Valid, DecodeCache.Sound;
      if index[p.chunk].Missing? || filters == [] {
        CopyPlain(p, out, lo);
        done := Ok(());
      } else {
        ChunkIfOk(p.chunk);
        BackedAt(cache.source, p.chunk);
        done := cache.ReadInto((cacheKey, p.chunk), p.start, out, lo, p.len);
      }
    }

    lemma BackedAt(source: Source, n: nat)
      requires Valid() && Backed(source) && n < |index| && index[n].ChunkEntry? && filters != []
      ensures source((cacheKey, n)) == Chunk(n)
    {
    }

    lemma ChunkIfOk(n: nat)
      requires Valid() && n < |index|
      ensures Chunk(n).Ok? ==> |Chunk(n).value| == grid.chunkBytes
    {
    }

    /** The fill value read at an offset is a piece of the whole fill chunk. */
    lemma FillAnywhere(start: nat, len: nat)
      requires Valid() && start + len <= grid.chunkBytes
      ensures Repeated(fill, start % grid.itemsize, len)[0..0 + len]
        == Repeated(fill, 0, grid.chunkBytes)[start..start + len]
    {
      var a := Repeated(fill, start % grid.itemsize, len);
      var b := Repeated(fill, 0, grid.chunkBytes);
      forall i | 0 <= i < len ensures a[i] == b[start + i] {
        SameRemainder(start, i, |fill|);
      }
      SamePieces(a, b, start, len);
    }

    /** Any bytes of the dataset, or the error of one chunk they lie in. */
    method Read(cache: DecodeCache, at: nat, out: array<byte>) returns (done: Result<(), string>)
      requires Valid() && cache.Valid() && cache.Sound() && Backed(cache.source)
      requires at + out.Length <= grid.Bytes()
      modifies cache, cache.Pool(), out
      ensures cache.Valid() && cache.Sound()
      ensures out.Length > 0 ==> Positive(grid.shape) && Keys().Served(Chunks())
      ensures done.Ok? && out.Length > 0 ==> Keys().Delivers(Chunks(), at, out[..])
      ensures done.Err? && out.Length > 0 ==> Keys().Fails(Chunks(), at, out.Length, done.error)
    {
      var pieces := Walk(grid, at, out.Length);
      ChunksServed();
      done := Ok(());
      if pieces != [] {
        done := ReadPieces(cache, at, pieces, out);
      }
    }

    method ReadPieces(cache: DecodeCache, at: nat, pieces: seq<Piece>, out: array<byte>)
      returns (done: Result<(), string>)
      requires Valid() && cache.Valid() && cache.Sound() && Backed(cache.source)
      requires Positive(grid.shape) && Walked(grid, at, pieces) && Carried(pieces) == out.Length
      requires out.Length > 0 ==> forall i :: 0 <= i < |pieces| ==> pieces[i].len > 0
      modifies cache, cache.Pool(), out
      ensures cache.Valid() && cache.Sound() && Keys().Served(Chunks())
      ensures done.Ok? ==> Keys().Delivers(Chunks(), at, out[..])
      ensures done.Err? && out.Length > 0 ==> Keys().Fails(Chunks(), at, out.Length, done.error)
    {
      hide Keyed.Delivers, Keyed.Fails, Keyed.Served, StaysIn, Carried, Positive;
      hide DecodeCache.Valid, DecodeCache.Sound, Chunked.Chunk, Chunked.Valid, Chunked.Backed;
      var got: nat := 0;
      ChunksServed();
      Keys().NothingDelivered(Chunks(), at);
      NothingCarried(pieces);
      assert out[..0] == [];
      for i := 0 to |pieces|
        invariant cache.Valid() && cache.Sound() && fresh(cache.Pool() - old(cache.Pool()))
        invariant got == Carried(pieces[..i]) <= out.Length
        invariant Keys().Delivers(Chunks(), at, out[..got])
      {
        var p := pieces[i];
        CarriedNext(pieces, i);
        PieceInside(at + got, p);
        ghost var was := out[..got];
        done := ReadPiece(cache, p, out, got);
        assert out[..got] == was;
        if done.Err? {
          if out.Length > 0 {
            PieceFailed(at + got, p, done.error);
            Keys().FailsMore(Chunks(), at, out.Length, at + got, p.len, done.error);
          }
          return;
        }
        PieceRead(at + got, p, out[got..got + p.len]);
        Keys().DeliversMore(Chunks(), at, out[..got], out[got..got + p.len]);
        assert out[..got + p.len] == out[..got] + out[got..got + p.len];
        got := got + p.len;
      }
      assert pieces[..|pieces|] == pieces && out[..got] == out[..];
      done := Ok(());
    }

    lemma PieceInside(at: nat, p: Piece)
      requires Valid() && Positive(grid.shape) && StaysIn(grid, at, p)
      ensures p.chunk < |index| && p.start + p.len <= grid.chunkBytes
    {
    }

    lemma PieceRead(at: nat, p: Piece, bytes: seq<byte>)
      requires Valid() && Positive(grid.shape) && StaysIn(grid, at, p) && Keys().Served(Chunks())
      requires p.chunk < |index| && Chunk(p.chunk).Ok? && p.start + p.len <= |Chunk(p.chunk).value|
      requires bytes == Chunk(p.chunk).value[p.start..p.start + p.len]
      ensures Keys().Delivers(Chunks(), at, bytes)
    {
      ChunksWhole(p.chunk);
      Keys().PieceDelivers(Chunks(), at, p, bytes);
    }

    lemma PieceFailed(at: nat, p: Piece, error: string)
      requires Valid() && Positive(grid.shape) && StaysIn(grid, at, p) && Keys().Served(Chunks())
      requires p.chunk < |index| && Chunk(p.chunk) == Err(error) && p.len > 0
      ensures Keys().Fails(Chunks(), at, p.len, error)
    {
      Keys().PieceFails(Chunks(), at, p, error);
    }
  }

  lemma SamePieces(a: seq<byte>, b: seq<byte>, start: nat, len: nat)
    requires |a| == len && start + len <= |b| && forall i :: 0 <= i < len ==> a[i] == b[start + i]
    ensures a[0..0 + len] == b[start..start + len]
  {
    var piece := b[start..start + len];
    forall i | 0 <= i < len ensures a[i] == piece[i] {
    }
  }
}
