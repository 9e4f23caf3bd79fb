/** From a server's reads to a client's buffers: what the server sends for each
    fetch is what the pool's account of an honest server asks for. */
module Delivery {
  import opened Words
  import opened Pool
  import opened PoolSafety
  import opened PoolBytes
  import opened Plans
  import opened Serving
  import opened SpanReading
  import opened Layouts

  /** The pieces of one serving of `[offset, offset + len)`, as far as it got. */
  ghost predicate ServedAs(read: Storage, sent: seq<Sent>, offset: nat, len: nat, pieceBytes: nat) {
    && AsRead(read, sent, pieceBytes) && |AllBytes(sent)| <= len
    && Consecutive(Extents(sent), offset, offset + |AllBytes(sent)|)
  }

  /** The frame is piece `k` of a serving of the oldest fetch, the ones before it
      being what was received of it. */
  ghost predicate NextPiece(c: Config, stores: seq<Storage>, pieceBytes: nat, s: State, i: nat, a: Action,
                            sent: seq<Sent>, k: nat)
    requires a.GetData? && Takes(c, s, i, a.start, a.bytes)
  {
    var front := s.threads[i].flight[0];
    var range := c.chunks[front.chunk.id];
    && range.part < |stores| && ServedAs(stores[range.part], sent, range.offset, range.len, pieceBytes)
    && k < |sent| && front.received == |AllBytes(sent[..k])|
    && range.offset + a.start == sent[k].offset && a.bytes == sent[k].bytes
  }

  /** Data only ever comes from serving the oldest fetch of the connection. */
  ghost predicate ServedStep(c: Config, stores: seq<Storage>, pieceBytes: nat, s: State, i: nat, a: Action) {
    a.GetData? && Takes(c, s, i, a.start, a.bytes) ==>
      exists sent, k :: NextPiece(c, stores, pieceBytes, s, i, a, sent, k)
  }

  /** Every part's storage holds the part's stream. */
  ghost predicate Stocked(stores: seq<Storage>, streams: seq<seq<byte>>) {
    |stores| == |streams| && forall p :: 0 <= p < |stores| ==> FromStream(stores[p], streams[p])
  }

  /** A server that serves its fetches is honest. */
  lemma ServedIsHonest(c: Config, streams: seq<seq<byte>>, stores: seq<Storage>, pieceBytes: nat, s: State, i: nat,
      a: Action)
    requires c.WellCut() && Streams(c, streams) && Stocked(stores, streams)
    requires ServedStep(c, stores, pieceBytes, s, i, a)
    ensures Honest(c, streams, s, i, a)
  {
    hide AsRead, Consecutive, Extents, AllBytes, FromStream;
    if a.GetData? && Takes(c, s, i, a.start, a.bytes) {
      var sent, k :| NextPiece(c, stores, pieceBytes, s, i, a, sent, k);
      var range := c.chunks[s.threads[i].flight[0].chunk.id];
      PieceFollows(sent, range.offset, range.offset + |AllBytes(sent)|, k);
      PieceIsStream(stores[range.part], sent, pieceBytes, streams[range.part], k);
    }
  }

  lemma PieceIsStream(read: Storage, sent: seq<Sent>, pieceBytes: nat, stream: seq<byte>, k: nat)
    requires AsRead(read, sent, pieceBytes) && FromStream(read, stream) && k < |sent|
    requires sent[k].offset + |sent[k].bytes| <= |stream|
    ensures sent[k].bytes == stream[sent[k].offset..sent[k].offset + |sent[k].bytes|]
  {
    assert read(sent[k].offset, |sent[k].bytes|) == Ok(sent[k].bytes);
  }

  /** The client takes every piece of serving its oldest fetch, the next after those
      it has: none falls outside the fetch or its buffer. */
  lemma PieceIsTaken(c: Config, stores: seq<Storage>, pieceBytes: nat, s: State, i: nat, sent: seq<Sent>, k: nat)
    requires Inv(c, s) && i < |s.threads| && s.threads[i].pc == Reading
    requires s.threads[i].flight != [] && s.threads[i].flight[0].chunk.id < |c.chunks|
    requires var range := c.chunks[s.threads[i].flight[0].chunk.id];
      range.part < |stores| && ServedAs(stores[range.part], sent, range.offset, range.len, pieceBytes)
    requires k < |sent| && s.threads[i].flight[0].received == |AllBytes(sent[..k])|
    ensures var range := c.chunks[s.threads[i].flight[0].chunk.id];
      && sent[k].offset >= range.offset
      && var a := GetData(sent[k].offset - range.offset, sent[k].bytes);
        Enabled(c, s, i, a) && NextPiece(c, stores, pieceBytes, s, i, a, sent, k)
  {
    hide Inv, ServedAs, AllBytes;
    var flight := s.threads[i].flight;
    var range := c.chunks[flight[0].chunk.id];
    PieceInRange(stores[range.part], sent, range.offset, range.len, pieceBytes, k);
    ChunkInBuffer(c, s, flight[0].chunk.id);
  }

  lemma ChunkInBuffer(c: Config, s: State, id: nat)
    requires Inv(c, s) && id < |c.chunks|
    ensures c.chunks[id].part < |s.buffers|
    ensures c.chunks[id].offset + c.chunks[id].len <= |s.buffers[c.chunks[id].part]|
  {
    assert c.InBuffer(id);
  }

  lemma PieceInRange(read: Storage, sent: seq<Sent>, offset: nat, len: nat, pieceBytes: nat, k: nat)
    requires ServedAs(read, sent, offset, len, pieceBytes) && k < |sent|
    ensures sent[k].bytes != [] && sent[k].offset >= offset
    ensures sent[k].offset + |sent[k].bytes| <= offset + len
  {
    ConsecutiveBounds(Extents(sent), offset, offset + |AllBytes(sent)|, k);
  }

  /** After piece `k` the serving goes on with the piece after it, until the chunk is complete. */
  lemma ServingGoesOn(c: Config, stores: seq<Storage>, pieceBytes: nat, s: State, i: nat, a: Action, sent: seq<Sent>,
      k: nat)
    requires Enabled(c, s, i, a) && a.GetData? && NextPiece(c, stores, pieceBytes, s, i, a, sent, k)
    ensures var range := c.chunks[s.threads[i].flight[0].chunk.id];
      var got := |AllBytes(sent[..k + 1])|;
      var t := After(c, s, i, a).threads[i];
      if got < range.len then t.flight != [] && t.flight[0] == s.threads[i].flight[0].(received := got)
      else t.pc == Completing && t.hand == Some(s.threads[i].flight[0].chunk)
  {
    assert sent[..k + 1][..k] == sent[..k];
  }

  ghost predicate ServedNext(c: Config, stores: seq<Storage>, pieceBytes: nat, s: State, s': State) {
    exists i, a :: Enabled(c, s, i, a) && ServedStep(c, stores, pieceBytes, s, i, a) && s' == After(c, s, i, a)
  }

  /** A run in which whatever data arrives comes from serving fetches. */
  ghost predicate ServedRun(c: Config, stores: seq<Storage>, pieceBytes: nat, states: seq<State>) {
    && states != [] && Init(c, states[0])
    && forall k :: 0 < k < |states| ==> ServedNext(c, stores, pieceBytes, states[k - 1], states[k])
  }

  lemma ServedRunIsHonest(c: Config, streams: seq<seq<byte>>, stores: seq<Storage>, pieceBytes: nat, states: seq<State>)
    requires c.WellCut() && Streams(c, streams) && Stocked(stores, streams)
    requires ServedRun(c, stores, pieceBytes, states)
    ensures HonestRun(c, streams, states)
  {
    hide Enabled, After, Honest, ServedStep, Init, Config.WellCut, Streams, Stocked;
    forall k | 0 < k < |states| ensures HonestNext(c, streams, states[k - 1], states[k]) {
      var s, s' := states[k - 1], states[k];
      assert ServedNext(c, stores, pieceBytes, s, s');
      var i, a :| Enabled(c, s, i, a) && ServedStep(c, stores, pieceBytes, s, i, a) && s' == After(c, s, i, a);
      ServedIsHonest(c, streams, stores, pieceBytes, s, i, a);
    }
  }

  /** What is asked for: a layout of an array, the elements it serves, and the cast agreed. */
  datatype Ask = Ask(layout: SelectionLayout, es: seq<int>, src: seq<byte>, elems: nat,
      cast: Option<seq<byte> -> seq<byte>>) {
    ghost predicate Valid() {
      && Backs(layout, es, src, elems)
      && (if cast.Some? then Narrows(cast.value, layout.wide, layout.narrow) else layout.wide == layout.narrow)
    }

    ghost function Stream(): seq<byte> { LogicalStream(layout, es, src, cast) }
  }

  /** One read of a layout, into a buffer of its own: what a server asks of storage. */
  method ReadPiece(ask: Ask, read: Reader, at: nat, n: nat, scratch: array<byte>)
    returns (answer: Result<seq<byte>, ReadError>)
    requires ask.Valid() && Answers(read, ask.src)
    modifies scratch
    ensures answer == Err(OutOfRange) <==> at + n > ask.layout.totalBytes
    ensures answer.Err? && answer.error.Storage? ==> Gave(read, ask.src, answer.error.error)
    ensures answer.Ok? && CastFits(ask.layout, ask.cast.Some?, at) ==>
      at + n <= |ask.Stream()| && answer.value == ask.Stream()[at..at + n]
  {
    hide LogicalStream, Backs, Answers, Gave;
    var dst := new byte[n];
    var done := ReadWith(ask.layout, at, dst, read, ask.elems, ask.cast, scratch, ask.src, ask.es);
    answer := if done.Ok? then Ok(dst[..]) else Err(done.error);
  }

  lemma StreamLength(ask: Ask)
    requires ask.Valid()
    ensures |ask.Stream()| == ask.layout.totalBytes
  {
    StreamIsWhole(ask.layout, ask.es, ask.src, ask.elems, ask.cast);
  }

  ghost function TotalsOf(asks: seq<Ask>): (totals: seq<nat>)
    ensures |totals| == |asks|
  {
    seq(|asks|, p requires 0 <= p < |asks| => asks[p].layout.totalBytes)
  }

  ghost function StreamsOf(asks: seq<Ask>): (streams: seq<seq<byte>>)
    ensures |streams| == |asks|
  {
    seq(|asks|, p requires 0 <= p < |asks| => asks[p].Stream())
  }

  /** End to end: selections of any arrays, cut into chunks, fetched over any number of
      connections that may break and be answered in part, from a server that serves each
      fetch from the layout. If the transfer comes back complete, every buffer holds
      its selection's logical stream. */
  lemma DeliveredIsSelected(asks: seq<Ask>, chunkBytes: nat, credit: nat, maxRetries: nat,
                            stores: seq<Storage>, pieceBytes: nat, states: seq<State>)
    requires forall p :: 0 <= p < |asks| ==> asks[p].Valid()
    requires Stocked(stores, StreamsOf(asks))
    requires ServedRun(Batch(TotalsOf(asks), chunkBytes, credit, maxRetries), stores, pieceBytes, states)
    requires states[|states| - 1].remaining == 0
    ensures |states[|states| - 1].buffers| == |asks|
    ensures forall p :: 0 <= p < |asks| ==> states[|states| - 1].buffers[p] == asks[p].Stream()
  {
    hide Ask.Valid, Ask.Stream, ServedRun, Stocked;
    var totals, streams := TotalsOf(asks), StreamsOf(asks);
    var c := Batch(totals, chunkBytes, credit, maxRetries);
    forall p | 0 <= p < |asks| ensures |streams[p]| == totals[p] {
      StreamLength(asks[p]);
    }
    assert states != [] by { RunIsSome(c, stores, pieceBytes, states); }
    BatchIsWellCut(totals, chunkBytes, credit, maxRetries);
    ServedRunIsHonest(c, streams, stores, pieceBytes, states);
    FetchedBatchIsRight(totals, chunkBytes, credit, maxRetries, streams, states);
  }

  lemma RunIsSome(c: Config, stores: seq<Storage>, pieceBytes: nat, states: seq<State>)
    requires ServedRun(c, stores, pieceBytes, states)
    ensures states != []
  {
  }
}
