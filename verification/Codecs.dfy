/** A stored chunk's codecs, undone in the reverse of the order they were applied. */
module ChunkCodecs {
  import opened Words
  import opened Buffers

  datatype ChunkCodec = Gzip | Zstd | Crc32c

  /** The compression libraries. Expanding takes the most bytes to produce: gzip
      stops there, zstd refuses to go further. */
  datatype Coders = Coders(
    gzip: seq<byte> -> seq<byte>,
    gunzip: (seq<byte>, nat) -> Option<seq<byte>>,
    zstd: seq<byte> -> seq<byte>,
    unzstd: (seq<byte>, nat) -> Option<seq<byte>>,
    crc32c: seq<byte> -> seq<byte>)
  {
    /** What is asked of the libraries about streams they wrote themselves. */
    ghost predicate Inverse() {
      && (forall x, n :: gunzip(gzip(x), n) == Some(x[..Min(n, |x|)]))
      && (forall x, n :: unzstd(zstd(x), n) == if |x| <= n then Some(x) else None)
      && (forall x :: |crc32c(x)| == 4)
    }

    /** The bytes in front of a checksum that is right for them. */
    function StripCrc(bytes: seq<byte>): Option<seq<byte>> {
      if |bytes| < 4 then None
      else
        var at := |bytes| - 4;
        if crc32c(bytes[..at]) == bytes[at..] then Some(bytes[..at]) else None
    }

    /** A checksum is taken off exactly when it is the one of the bytes in front of it. */
    lemma StripsOnlyRight(bytes: seq<byte>, body: seq<byte>)
      requires forall x :: |crc32c(x)| == 4
      ensures StripCrc(bytes) == Some(body) <==> bytes == body + crc32c(body)
    {
      if bytes == body + crc32c(body) {
        assert bytes[..|bytes| - 4] == body && bytes[|bytes| - 4..] == crc32c(body);
      }
    }

    function Apply(codec: ChunkCodec, bytes: seq<byte>): seq<byte> {
      match codec
      case Gzip => gzip(bytes)
      case Zstd => zstd(bytes)
      case Crc32c => bytes + crc32c(bytes)
    }

    function Revert(codec: ChunkCodec, bytes: seq<byte>, chunkBytes: nat): Option<seq<byte>> {
      match codec
      case Gzip => gunzip(bytes, chunkBytes + 1)
      case Zstd => unzstd(bytes, chunkBytes)
      case Crc32c => StripCrc(bytes)
    }

    /** A chunk as a writer stores it. */
    ghost function Encoded(codecs: seq<ChunkCodec>, chunk: seq<byte>): seq<byte> {
      if codecs == [] then chunk
      else Apply(codecs[|codecs| - 1], Encoded(codecs[..|codecs| - 1], chunk))
    }

    /** The bytes under all the codecs, last one first. */
    ghost function Reverted(codecs: seq<ChunkCodec>, bytes: seq<byte>, chunkBytes: nat): Option<seq<byte>>
      decreases |codecs|
    {
      if codecs == [] then Some(bytes)
      else
        var under := Revert(codecs[|codecs| - 1], bytes, chunkBytes);
        if under.None? then None else Reverted(codecs[..|codecs| - 1], under.value, chunkBytes)
    }

    /** What the stored bytes hold: a whole chunk, or nothing. */
    ghost function Undone(codecs: seq<ChunkCodec>, bytes: seq<byte>, chunkBytes: nat): Option<seq<byte>> {
      var r := Reverted(codecs, bytes, chunkBytes);
      if r.Some? && |r.value| == chunkBytes then r else None
    }

    /** zstd writes no more than it was given room for. */
    ghost predicate Bounded() {
      forall x, n :: unzstd(x, n).Some? ==> |unzstd(x, n).value| <= n
    }

    /** Undo one codec: into `spare`, or in place for a checksum. */
    method UndoOne(codec: ChunkCodec, bytes: Buffer, chunkBytes: nat, spare: Buffer)
      returns (under: Option<Buffer>, other: Buffer)
      requires Bounded() && bytes != spare
      modifies bytes, spare
      ensures under.Some? <==> Revert(codec, old(bytes.bytes), chunkBytes).Some?
      ensures under.Some? ==>
        && Revert(codec, old(bytes.bytes), chunkBytes) == Some(under.value.bytes)
        && {under.value, other} == {bytes, spare}
    {
      under, other := None, spare;
      match codec {
        case Crc32c =>
          var stripped := StripCrc(bytes.bytes);
          if stripped.Some? {
            bytes.Truncate(|stripped.value|);
            under := Some(bytes);
          }
        case Gzip =>
          var expanded := gunzip(bytes.bytes, chunkBytes + 1);
          if expanded.Some? {
            spare.Refill(expanded.value);
            under, other := Some(spare), bytes;
          }
        case Zstd =>
          spare.Resize(chunkBytes);
          var expanded := unzstd(bytes.bytes, chunkBytes);
          if expanded.Some? {
            spare.Overwrite(expanded.value);
            spare.Truncate(|expanded.value|);
            under, other := Some(spare), bytes;
          }
      }
    }

    /** Undo a chunk's codecs between the buffer it was read into and the lent one,
        each in turn the source and the destination. */
    method Undo(codecs: seq<ChunkCodec>, stored: Buffer, chunkBytes: nat, lent: Buffer)
      returns (chunk: Option<Buffer>)
      requires Bounded() && stored != lent
      modifies stored, lent
      ensures chunk.Some? <==> Undone(codecs, old(stored.bytes), chunkBytes).Some?
      ensures chunk.Some? ==>
        Undone(codecs, old(stored.bytes), chunkBytes) == Some(chunk.value.bytes) && chunk.value in {stored, lent}
    {
      var bytes, spare := stored, lent;
      var i := |codecs|;
      assert codecs[..i] == codecs;
      while i > 0
        invariant i <= |codecs| && {bytes, spare} == {stored, lent}
        invariant Reverted(codecs, old(stored.bytes), chunkBytes) == Reverted(codecs[..i], bytes.bytes, chunkBytes)
      {
        i := i - 1;
        assert codecs[..i + 1][..i] == codecs[..i];
        var under, other := UndoOne(codecs[i], bytes, chunkBytes, spare);
        if under.None? {
          return None;
        }
        bytes, spare := under.value, other;
      }
      chunk := if |bytes.bytes| == chunkBytes then Some(bytes) else None;
    }

    /** Nothing a compressor was given is longer than expanding it may produce. */
    ghost predicate StagesFit(codecs: seq<ChunkCodec>, chunk: seq<byte>) {
      codecs != [] ==>
        var init, last := codecs[..|codecs| - 1], codecs[|codecs| - 1];
        && StagesFit(init, chunk)
        && (last == Gzip ==> |Encoded(init, chunk)| <= |chunk| + 1)
        && (last == Zstd ==> |Encoded(init, chunk)| <= |chunk|)
    }

    /** A chunk written through codecs whose stages fit reads back. */
    lemma {:induction false} UndoesEncoding(codecs: seq<ChunkCodec>, chunk: seq<byte>)
      requires Inverse() && StagesFit(codecs, chunk)
      ensures Reverted(codecs, Encoded(codecs, chunk), |chunk|) == Some(chunk)
      decreases |codecs|
    {
      if codecs != [] {
        var init, last := codecs[..|codecs| - 1], codecs[|codecs| - 1];
        var inner := Encoded(init, chunk);
        UndoesEncoding(init, chunk);
        RevertsApply(last, inner, |chunk|);
      }
    }

    lemma RevertsApply(codec: ChunkCodec, x: seq<byte>, chunkBytes: nat)
      requires Inverse()
      requires codec == Gzip ==> |x| <= chunkBytes + 1
      requires codec == Zstd ==> |x| <= chunkBytes
      ensures Revert(codec, Apply(codec, x), chunkBytes) == Some(x)
    {
      match codec {
        case Gzip =>
          assert x[..|x|] == x;
        case Zstd =>
        case Crc32c =>
          var bytes := x + crc32c(x);
          assert bytes[..|x|] == x && bytes[|x|..] == crc32c(x);
      }
    }

    ghost function Checksums(n: nat): (codecs: seq<ChunkCodec>)
      ensures |codecs| == n
    {
      seq(n, _ => Crc32c)
    }

    /** One compressor between checksums, the usual chain: a chunk reads back if
        and only if no checksum was added before it was compressed. Expanding
        leaves no room for one. */
    lemma OneCompressor(before: nat, compressor: ChunkCodec, after: nat, chunk: seq<byte>)
      requires Inverse() && compressor != Crc32c
      ensures var codecs := Checksums(before) + [compressor] + Checksums(after);
        Undone(codecs, Encoded(codecs, chunk), |chunk|) == Some(chunk) <==> before == 0
      decreases after
    {
      var codecs := Checksums(before) + [compressor] + Checksums(after);
      if after > 0 {
        OneCompressor(before, compressor, after - 1, chunk);
        var init := Checksums(before) + [compressor] + Checksums(after - 1);
        assert codecs[..|codecs| - 1] == init && codecs[|codecs| - 1] == Crc32c;
        RevertsApply(Crc32c, Encoded(init, chunk), |chunk|);
      } else {
        assert codecs[..|codecs| - 1] == Checksums(before) && codecs[|codecs| - 1] == compressor;
        ChecksumsLengthen(before, chunk);
        var inner := Encoded(Checksums(before), chunk);
        if before == 0 {
          RevertsApply(compressor, inner, |chunk|);
          assert codecs[..|codecs| - 1] == [] && Reverted([], inner, |chunk|) == Some(inner);
          assert Reverted(codecs, Encoded(codecs, chunk), |chunk|) == Some(chunk);
        } else {
          var cut := inner[..|chunk| + 1];
          ChecksumsShorten(before, cut, |chunk|);
        }
      }
    }

    lemma {:induction false} ChecksumsLengthen(n: nat, chunk: seq<byte>)
      requires Inverse()
      ensures |Encoded(Checksums(n), chunk)| == |chunk| + 4 * n
      ensures n == 0 ==> Encoded(Checksums(n), chunk) == chunk
    {
      if n > 0 {
        assert Checksums(n)[..n - 1] == Checksums(n - 1);
        ChecksumsLengthen(n - 1, chunk);
      }
    }

    lemma {:induction false} ChecksumsShorten(n: nat, bytes: seq<byte>, chunkBytes: nat)
      ensures var r := Reverted(Checksums(n), bytes, chunkBytes);
        r.Some? ==> |r.value| + 4 * n == |bytes|
      decreases n
    {
      if n > 0 {
        assert Checksums(n)[..n - 1] == Checksums(n - 1);
        var under := StripCrc(bytes);
        if under.Some? {
          ChecksumsShorten(n - 1, under.value, chunkBytes);
        }
      }
    }
  }
}
