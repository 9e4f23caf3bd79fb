/** Chunks: how a transfer is cut, and how many come of it. */
module Plans {
  import opened Words
  import opened Radix
  import opened Pool
  import opened PoolSafety
  import opened PoolBytes

  const MIN_CHUNK_BYTES: nat := 256 * 1024

  /** The chunks of a stream from `offset` on: (offset, length), in order. */
  function ChunksFrom(total: nat, chunkBytes: nat, offset: nat): seq<(nat, nat)>
    requires chunkBytes > 0
    decreases if offset <= total then total - offset else 0
  {
    if offset >= total then []
    else [(offset, Min(chunkBytes, total - offset))] + ChunksFrom(total, chunkBytes, offset + chunkBytes)
  }

  /** Pieces of `chunkBytes` from the start on, the last one as long as is left. */
  function Chunks(total: nat, chunkBytes: nat): seq<(nat, nat)> {
    ChunksFrom(total, Max(1, chunkBytes), 0)
  }

  /** Non-empty pieces, each starting where the one before ended, from `from` to `to`. */
  ghost predicate Consecutive(pieces: seq<(nat, nat)>, from: nat, to: nat)
    decreases |pieces|
  {
    if pieces == [] then from == to
    else pieces[0].0 == from && pieces[0].1 > 0 && Consecutive(pieces[1..], from + pieces[0].1, to)
  }

  lemma {:induction false} ChunksConsecutive(total: nat, chunkBytes: nat, offset: nat)
    requires chunkBytes > 0 && offset <= total
    ensures Consecutive(ChunksFrom(total, chunkBytes, offset), offset, total)
    ensures forall k :: 0 <= k < |ChunksFrom(total, chunkBytes, offset)| ==>
              ChunksFrom(total, chunkBytes, offset)[k].1 <= chunkBytes
    ensures |ChunksFrom(total, chunkBytes, offset)| == DivCeil(total - offset, chunkBytes)
    decreases total - offset
  {
    if offset < total {
      DivCeilStep(total - offset, chunkBytes);
      if offset + chunkBytes <= total {
        ChunksConsecutive(total, chunkBytes, offset + chunkBytes);
      }
    }
  }

  function DivCeil(n: nat, d: nat): nat
    requires d > 0
  {
    (n + d - 1) / d
  }

  /** The least count of pieces of `d` that holds `n`. */
  lemma DivCeilIs(n: nat, d: nat, q: nat)
    requires d > 0 && n <= Offset(q, d) && (q > 0 ==> Offset(q - 1, d) < n)
    ensures DivCeil(n, d) == q
  {
    if q > 0 {
      OffsetNext(q - 1, d);
      var r := n + d - 1 - Offset(q, d);
      assert n + d - 1 == q * d + r;
      DivModUnique(q, r, d);
    } else {
      DivModUnique(0, d - 1, d);
    }
  }

  lemma DivCeilHolds(n: nat, d: nat)
    requires d > 0
    ensures n <= Offset(DivCeil(n, d), d) && (DivCeil(n, d) > 0 ==> Offset(DivCeil(n, d) - 1, d) < n)
  {
    var m := n + d - 1;
    assert m == m / d * d + m % d;
    if m / d > 0 {
      OffsetNext(m / d - 1, d);
    }
  }

  lemma DivCeilStep(n: nat, d: nat)
    requires d > 0 && n > 0
    ensures n <= d ==> DivCeil(n, d) == 1
    ensures n > d ==> DivCeil(n, d) == DivCeil(n - d, d) + 1
  {
    OffsetNext(0, d);
    if n <= d {
      DivCeilIs(n, d, 1);
    } else {
      var q := DivCeil(n - d, d);
      DivCeilHolds(n - d, d);
      OffsetNext(q, d);
      if q > 0 {
        OffsetNext(q - 1, d);
      }
      DivCeilIs(n, d, q + 1);
    }
  }

  /** Every byte of a stream is in one of consecutive pieces. */
  lemma {:induction false} ConsecutiveCovers(pieces: seq<(nat, nat)>, from: nat, to: nat, x: nat) returns (k: nat)
    requires Consecutive(pieces, from, to) && from <= x < to
    ensures k < |pieces| && pieces[k].0 <= x < pieces[k].0 + pieces[k].1
    decreases |pieces|
  {
    if x < from + pieces[0].1 {
      k := 0;
    } else {
      var j := ConsecutiveCovers(pieces[1..], from + pieces[0].1, to, x);
      k := j + 1;
    }
  }

  /** Pieces stay inside the stream, and later ones start after earlier ones end. */
  lemma {:induction false} ConsecutiveBounds(pieces: seq<(nat, nat)>, from: nat, to: nat, k: nat)
    requires Consecutive(pieces, from, to) && k < |pieces|
    ensures from <= pieces[k].0 && pieces[k].1 > 0 && pieces[k].0 + pieces[k].1 <= to
    ensures k > 0 ==> from + pieces[0].1 <= pieces[k].0
    decreases |pieces|
  {
    ConsecutiveOrdered(pieces, from, to);
    if k > 0 {
      ConsecutiveBounds(pieces[1..], from + pieces[0].1, to, k - 1);
    }
  }

  lemma {:induction false} ConsecutiveOrdered(pieces: seq<(nat, nat)>, from: nat, to: nat)
    requires Consecutive(pieces, from, to)
    ensures from <= to && (pieces != [] ==> from + pieces[0].1 <= to)
    decreases |pieces|
  {
    if pieces != [] {
      ConsecutiveOrdered(pieces[1..], from + pieces[0].1, to);
    }
  }

  lemma {:induction false} ConsecutiveApart(pieces: seq<(nat, nat)>, from: nat, to: nat, j: nat, k: nat)
    requires Consecutive(pieces, from, to) && j < k < |pieces|
    ensures pieces[j].0 + pieces[j].1 <= pieces[k].0
    decreases |pieces|
  {
    if j == 0 {
      ConsecutiveBounds(pieces, from, to, k);
    } else {
      ConsecutiveApart(pieces[1..], from + pieces[0].1, to, j - 1, k - 1);
    }
  }

  /** A chunk size that keeps every connection busy, if that leaves chunks worth sending. */
  function SplitForStreams(chunkBytes: nat, total: nat, streams: nat): (cut: nat)
    requires chunkBytes > 0
    ensures 0 < cut <= chunkBytes
    ensures cut < chunkBytes ==> cut >= MIN_CHUNK_BYTES
  {
    var streams := Max(1, streams);
    if DivCeil(total, chunkBytes) >= streams then chunkBytes
    else Min(Max(DivCeil(total, streams), MIN_CHUNK_BYTES), chunkBytes)
  }

  /** With a default-size chunk for every connection the size stays; with fewer it is
      an even share, not below the minimum unless the default is. */
  lemma SplitIs(chunkBytes: nat, total: nat, streams: nat)
    requires chunkBytes > 0
    ensures var cut, wanted := SplitForStreams(chunkBytes, total, streams), if streams == 0 then 1 else streams;
      && (|Chunks(total, chunkBytes)| >= wanted ==> cut == chunkBytes)
      && (|Chunks(total, chunkBytes)| < wanted ==>
            && (DivCeil(total, wanted) <= MIN_CHUNK_BYTES ==> cut == Min(MIN_CHUNK_BYTES, chunkBytes))
            && (MIN_CHUNK_BYTES <= DivCeil(total, wanted) ==> cut == DivCeil(total, wanted)))
  {
    ChunksConsecutive(total, chunkBytes, 0);
    var wanted := Max(1, streams);
    if DivCeil(total, chunkBytes) < wanted {
      ShareFits(chunkBytes, total, wanted);
    }
  }

  /** When there are fewer default-size chunks than connections and an even share
      is not too small, the cut gives every connection exactly one chunk. */
  lemma OneChunkEach(chunkBytes: nat, total: nat, streams: nat)
    requires 0 < streams <= MIN_CHUNK_BYTES && chunkBytes > 0
    requires DivCeil(total, chunkBytes) < streams && DivCeil(total, streams) >= MIN_CHUNK_BYTES
    ensures SplitForStreams(chunkBytes, total, streams) == DivCeil(total, streams)
    ensures |Chunks(total, SplitForStreams(chunkBytes, total, streams))| == streams
  {
    var share := DivCeil(total, streams);
    ShareFits(chunkBytes, total, streams);
    ShareCounts(total, streams, share);
    ChunksConsecutive(total, share, 0);
  }

  /** An even share is no larger than a default-size chunk. */
  lemma ShareFits(chunkBytes: nat, total: nat, streams: nat)
    requires streams > 0 && chunkBytes > 0 && DivCeil(total, chunkBytes) < streams
    ensures DivCeil(total, streams) <= chunkBytes
  {
    var q, share := DivCeil(total, chunkBytes), DivCeil(total, streams);
    DivCeilHolds(total, chunkBytes);
    DivCeilHolds(total, streams);
    if share > chunkBytes {
      OffsetMonotone(q, streams, chunkBytes);
      OffsetMonotone(chunkBytes, share - 1, streams);
      OffsetSwaps(streams, chunkBytes);
    }
  }

  lemma OffsetSwaps(a: nat, b: nat)
    ensures Offset(a, b) == Offset(b, a)
  {
  }

  lemma ShareCounts(total: nat, streams: nat, share: nat)
    requires 0 < streams <= share == DivCeil(total, streams)
    ensures DivCeil(total, share) == streams
  {
    DivCeilHolds(total, streams);
    OffsetSwaps(share, streams);
    OffsetSwaps(share, streams - 1);
    OffsetNext(streams - 1, share);
    OffsetNext(share - 1, streams);
    OffsetSwaps(streams, share);
    DivCeilIs(total, share, streams);
  }

  /** One part's chunks, as the queue lists them. */
  ghost function PartChunks(part: nat, total: nat, chunkBytes: nat): (ranges: seq<Range>)
    ensures |ranges| == |Chunks(total, chunkBytes)|
  {
    var chunks := Chunks(total, chunkBytes);
    seq(|chunks|, k requires 0 <= k < |chunks| => Range(part, chunks[k].0, chunks[k].1))
  }

  /** The chunks of a batch, part by part. */
  ghost function BatchChunks(totals: seq<nat>, chunkBytes: nat): seq<Range> {
    if totals == [] then [] else
      var last := |totals| - 1;
      BatchChunks(totals[..last], chunkBytes) + PartChunks(last, totals[last], chunkBytes)
  }

  ghost function Batch(totals: seq<nat>, chunkBytes: nat, credit: nat, maxRetries: nat): Config {
    Config(credit, maxRetries, BatchChunks(totals, chunkBytes), totals)
  }

  lemma PartInside(part: nat, total: nat, chunkBytes: nat, k: nat)
    requires k < |PartChunks(part, total, chunkBytes)|
    ensures var r := PartChunks(part, total, chunkBytes)[k];
      r.part == part && r.len > 0 && r.offset + r.len <= total
  {
    ChunksConsecutive(total, Max(1, chunkBytes), 0);
    ConsecutiveBounds(Chunks(total, chunkBytes), 0, total, k);
  }

  lemma PartApart(part: nat, total: nat, chunkBytes: nat, j: nat, k: nat)
    requires j < k < |PartChunks(part, total, chunkBytes)|
    ensures var ranges := PartChunks(part, total, chunkBytes);
      ranges[j].offset + ranges[j].len <= ranges[k].offset
  {
    ChunksConsecutive(total, Max(1, chunkBytes), 0);
    ConsecutiveApart(Chunks(total, chunkBytes), 0, total, j, k);
  }

  /** Chunk `k` of a batch, and which chunk of which part it is. */
  lemma {:induction false} BatchChunkIs(totals: seq<nat>, chunkBytes: nat, k: nat) returns (part: nat, j: nat)
    requires k < |BatchChunks(totals, chunkBytes)|
    ensures part < |totals| && j < |PartChunks(part, totals[part], chunkBytes)| && j <= k
    ensures BatchChunks(totals, chunkBytes)[k] == PartChunks(part, totals[part], chunkBytes)[j]
    ensures k - j == |BatchChunks(totals[..part], chunkBytes)|
    decreases |totals|
  {
    hide PartChunks;
    var init := totals[..|totals| - 1];
    if k < |BatchChunks(init, chunkBytes)| {
      part, j := BatchChunkIs(init, chunkBytes, k);
      assert init[..part] == totals[..part];
    } else {
      part, j := |totals| - 1, k - |BatchChunks(init, chunkBytes)|;
    }
  }

  /** Two chunks of a batch never overlap, and each lies in its part's buffer. */
  lemma BatchIsWellCut(totals: seq<nat>, chunkBytes: nat, credit: nat, maxRetries: nat)
    ensures Batch(totals, chunkBytes, credit, maxRetries).WellCut()
  {
    hide BatchChunks, PartChunks;
    var c := Batch(totals, chunkBytes, credit, maxRetries);
    forall a | 0 <= a < |c.chunks| ensures c.chunks[a].len > 0 && c.InBuffer(a) {
      var part, j := BatchChunkIs(totals, chunkBytes, a);
      PartInside(part, totals[part], chunkBytes, j);
    }
    forall a, b | 0 <= a < |c.chunks| && 0 <= b < |c.chunks| && a != b ensures !c.Overlaps(a, b) {
      var part, j := BatchChunkIs(totals, chunkBytes, a);
      var part', k := BatchChunkIs(totals, chunkBytes, b);
      PartInside(part, totals[part], chunkBytes, j);
      PartInside(part', totals[part'], chunkBytes, k);
      if part == part' {
        if j < k {
          PartApart(part, totals[part], chunkBytes, j, k);
        } else {
          PartApart(part, totals[part], chunkBytes, k, j);
        }
      }
    }
  }

  lemma {:induction false} BatchHas(totals: seq<nat>, chunkBytes: nat, part: nat, j: nat) returns (k: nat)
    requires part < |totals| && j < |PartChunks(part, totals[part], chunkBytes)|
    ensures k < |BatchChunks(totals, chunkBytes)|
    ensures BatchChunks(totals, chunkBytes)[k] == PartChunks(part, totals[part], chunkBytes)[j]
    decreases |totals|
  {
    hide PartChunks;
    var init := totals[..|totals| - 1];
    if part < |totals| - 1 {
      k := BatchHas(init, chunkBytes, part, j);
    } else {
      k := |BatchChunks(init, chunkBytes)| + j;
    }
  }

  /** No byte of any part is left out. */
  lemma BatchCovers(totals: seq<nat>, chunkBytes: nat, credit: nat, maxRetries: nat)
    ensures Covers(Batch(totals, chunkBytes, credit, maxRetries))
  {
    hide BatchChunks, PartChunks, Covered;
    var c := Batch(totals, chunkBytes, credit, maxRetries);
    forall p, x | 0 <= p < |c.sizes| && 0 <= x < c.sizes[p] ensures Covered(c, p, x) {
      ByteCovered(totals, chunkBytes, credit, maxRetries, p, x);
    }
  }

  lemma ByteCovered(totals: seq<nat>, chunkBytes: nat, credit: nat, maxRetries: nat, p: nat, x: nat)
    requires p < |totals| && x < totals[p]
    ensures Covered(Batch(totals, chunkBytes, credit, maxRetries), p, x)
  {
    hide BatchChunks;
    var c := Batch(totals, chunkBytes, credit, maxRetries);
    ChunksConsecutive(totals[p], Max(1, chunkBytes), 0);
    var j := ConsecutiveCovers(Chunks(totals[p], chunkBytes), 0, totals[p], x);
    var k := BatchHas(totals, chunkBytes, p, j);
    assert c.chunks[k].part == p && c.chunks[k].offset <= x < c.chunks[k].offset + c.chunks[k].len;
  }

  ghost function Sum(totals: seq<nat>): nat {
    if totals == [] then 0 else Sum(totals[..|totals| - 1]) + totals[|totals| - 1]
  }

  lemma DivCeilAdds(a: nat, b: nat, d: nat)
    requires d > 0
    ensures DivCeil(a + b, d) <= DivCeil(a, d) + DivCeil(b, d)
  {
    var x, y, z := DivCeil(a, d), DivCeil(b, d), DivCeil(a + b, d);
    DivCeilHolds(a, d);
    DivCeilHolds(b, d);
    DivCeilHolds(a + b, d);
    OffsetAdd(x, y, d);
    if z > x + y {
      OffsetMonotone(x + y, z - 1, d);
    }
  }

  /** A batch has at least the chunks its bytes would have as one stream. */
  lemma {:induction false} BatchCount(totals: seq<nat>, chunkBytes: nat)
    requires chunkBytes > 0
    ensures |BatchChunks(totals, chunkBytes)| >= DivCeil(Sum(totals), chunkBytes)
    decreases |totals|
  {
    hide PartChunks, DivCeil;
    if totals == [] {
      OffsetNext(0, chunkBytes);
      DivCeilIs(0, chunkBytes, 0);
    } else {
      var init, last := totals[..|totals| - 1], totals[|totals| - 1];
      BatchCount(init, chunkBytes);
      ChunksConsecutive(last, chunkBytes, 0);
      DivCeilAdds(Sum(init), last, chunkBytes);
    }
  }

  /** A batch with fewer default-size chunks than connections, its even share not
      too small, is cut into at least one chunk for each. */
  lemma AtLeastOneEach(chunkBytes: nat, totals: seq<nat>, streams: nat)
    requires 0 < streams <= MIN_CHUNK_BYTES && chunkBytes > 0
    requires DivCeil(Sum(totals), chunkBytes) < streams && DivCeil(Sum(totals), streams) >= MIN_CHUNK_BYTES
    ensures |BatchChunks(totals, SplitForStreams(chunkBytes, Sum(totals), streams))| >= streams
  {
    var total := Sum(totals);
    OneChunkEach(chunkBytes, total, streams);
    ShareCounts(total, streams, DivCeil(total, streams));
    BatchCount(totals, DivCeil(total, streams));
  }

  /** The whole of it: a batch fetched over any connections, in any order, with
      any breaks and retries, that comes back as complete has every buffer equal
      to its plan's logical stream. */
  lemma FetchedBatchIsRight(totals: seq<nat>, chunkBytes: nat, credit: nat, maxRetries: nat,
      streams: seq<seq<byte>>, states: seq<State>)
    requires Streams(Batch(totals, chunkBytes, credit, maxRetries), streams)
    requires HonestRun(Batch(totals, chunkBytes, credit, maxRetries), streams, states)
    requires states[|states| - 1].remaining == 0
    ensures states[|states| - 1].buffers == streams
  {
    BatchCovers(totals, chunkBytes, credit, maxRetries);
    SuccessIsRight(Batch(totals, chunkBytes, credit, maxRetries), streams, states);
  }
}
