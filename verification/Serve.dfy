/** The server's side of a fetch: the range cut into pieces, each read and sent. */
module Serving {
  import opened Words
  import opened Plans
  import Radix

  const READ_AHEAD_BYTES: nat := 0x40_0000

  /** What of a layout the cut depends on. */
  datatype Cut = Cut(bounded: bool, rowBytes: Option<nat>, itemsize: nat, totalBytes: nat) {
    ghost predicate Valid() {
      && itemsize > 0 && totalBytes < U64
      && (rowBytes.Some? ==> rowBytes.value > 0)
    }
  }

  /** How much of a piece to send: under an error bound, up to a row end if it has one. */
  function RowAligned(cut: Cut, offset: nat, piece: nat): (aligned: nat)
    requires cut.Valid()
    ensures piece > 0 ==> 0 < aligned <= piece
  {
    if !cut.bounded then piece
    else
      var aligned :=
        if cut.rowBytes.Some? && (offset + piece) % cut.rowBytes.value < piece
        then piece - (offset + piece) % cut.rowBytes.value
        else piece - piece % cut.itemsize;
      if aligned == 0 then piece else aligned
  }

  /** An error-bounded piece reaches to the last row boundary it covers, if it
      covers one. */
  lemma EndsAtRow(cut: Cut, offset: nat, piece: nat, boundary: nat)
    requires cut.Valid() && cut.bounded && cut.rowBytes.Some? && piece > 0
    requires offset < boundary <= offset + piece && boundary % cut.rowBytes.value == 0
    ensures var at := offset + RowAligned(cut, offset, piece);
      at % cut.rowBytes.value == 0 && boundary <= at
  {
    var row := cut.rowBytes.value;
    var past := (offset + piece) % row;
    LastMultiple(boundary, offset + piece, row);
    MultipleBelow(offset + piece, row);
  }

  /** Without an error bound a piece goes out whole. With one, if no row ends in it, it
      is cut behind its last whole element, or goes out whole if it has none. */
  lemma CutsOnElements(cut: Cut, offset: nat, piece: nat)
    requires cut.Valid()
    requires cut.bounded && cut.rowBytes.Some? ==>
      forall boundary :: offset < boundary <= offset + piece ==> boundary % cut.rowBytes.value != 0
    ensures var aligned := RowAligned(cut, offset, piece);
      if !cut.bounded || piece < cut.itemsize then aligned == piece
      else aligned % cut.itemsize == 0 && piece - aligned < cut.itemsize
  {
    if cut.bounded {
      MultipleBelow(piece, cut.itemsize);
      if cut.rowBytes.Some? && piece > 0 {
        var row := cut.rowBytes.value;
        var past := (offset + piece) % row;
        MultipleBelow(offset + piece, row);
        assert past >= piece;
      }
    }
  }

  lemma LastMultiple(boundary: nat, end: nat, row: nat)
    requires row > 0 && boundary % row == 0 && boundary <= end
    ensures boundary <= end - end % row
  {
    var q, p := boundary / row, end / row;
    assert boundary == q * row && end == p * row + end % row;
    if q > p {
      MulMore(p + 1, q, row);
    } else {
      MulMore(q, p, row);
    }
  }

  lemma MulMore(a: nat, b: nat, d: nat)
    requires a <= b
    ensures a * d <= b * d && (a + 1) * d == a * d + d
  {
  }

  lemma MultipleBelow(n: nat, d: nat)
    requires d > 0
    ensures (n - n % d) % d == 0
  {
    assert n == n / d * d + n % d;
    MultipleRemainder(n / d, d);
  }

  lemma MultipleRemainder(q: nat, d: nat)
    requires d > 0
    ensures q * d % d == 0
  {
    Radix.DivModUnique(q, 0, d);
  }

  datatype Sent = Sent(offset: nat, bytes: seq<byte>)

  /** Where each piece lies. */
  function Extents(sent: seq<Sent>): (extents: seq<(nat, nat)>)
    ensures |extents| == |sent|
  {
    seq(|sent|, k requires 0 <= k < |sent| => (sent[k].offset, |sent[k].bytes|))
  }

  ghost function AllBytes(sent: seq<Sent>): seq<byte> {
    if sent == [] then [] else AllBytes(sent[..|sent| - 1]) + sent[|sent| - 1].bytes
  }

  /** How a fetch was answered: all of it sent, a read that failed after what was
      sent, or a connection that broke. */
  datatype Served = Complete | ReadFailed(error: string) | SendFailed

  type Storage = (nat, nat) -> Result<seq<byte>, string>

  ghost predicate Reads(read: Storage) {
    forall at, n :: read(at, n).Ok? ==> |read(at, n).value| == n
  }

  /** Every piece is what a read of it found, and fits the buffer. */
  ghost predicate AsRead(read: Storage, sent: seq<Sent>, pieceBytes: nat) {
    forall k :: 0 <= k < |sent| ==>
      0 < |sent[k].bytes| <= pieceBytes && read(sent[k].offset, |sent[k].bytes|) == Ok(sent[k].bytes)
  }

  /** The storage is asked ahead for ranges inside the stream, in order, and for
      none twice. */
  ghost predicate Ahead(hints: seq<(nat, nat)>, from: nat, to: nat) {
    && (forall k :: 0 <= k < |hints| ==> hints[k].1 > 0 && from <= hints[k].0 && hints[k].0 + hints[k].1 <= to)
    && (forall j, k :: 0 <= j < k < |hints| ==> hints[j].0 + hints[j].1 <= hints[k].0)
  }

  ghost predicate FailedAt(read: Storage, at: nat, n: nat, error: string) {
    n > 0 && read(at, n) == Err(error)
  }

  ghost predicate FailsAt(read: Storage, at: nat, error: string) {
    exists n :: FailedAt(read, at, n, error)
  }

  class FetchReader {
    const pieceBytes: nat
    /** Storage knows of everything in front of here. */
    var hinted: nat

    constructor (pieceBytes: nat)
      ensures this.pieceBytes == pieceBytes && hinted == 0
    {
      this.pieceBytes, hinted := pieceBytes, 0;
    }

    /** Read `[offset, offset + len)` in pieces and send each. `read` is the
        storage, `sends` how many sends the connection survives. */
    method Serve(cut: Cut, offset: nat, len: nat, read: Storage, sends: nat)
      returns (sent: seq<Sent>, served: Served, hints: seq<(nat, nat)>)
      requires cut.Valid() && pieceBytes > 0 && offset + len <= cut.totalBytes && Reads(read)
      modifies this`hinted
      ensures AsRead(read, sent, pieceBytes) && |AllBytes(sent)| <= len
      ensures Consecutive(Extents(sent), offset, offset + |AllBytes(sent)|)
      ensures served == Complete <==> |AllBytes(sent)| == len
      ensures served == SendFailed ==> |sent| == sends
      ensures served.ReadFailed? ==> FailsAt(read, offset + |AllBytes(sent)|, served.error)
      ensures Ahead(hints, offset, cut.totalBytes)
    {
      hide AsRead, Ahead, Consecutive, Extents, AllBytes, FailsAt, Reads;
      if !(offset <= hinted && hinted - offset <= READ_AHEAD_BYTES) {
        hinted := offset;
      }
      sent, hints := [], [];
      NothingSent(read, pieceBytes, offset);
      NothingAsked(offset, cut.totalBytes);
      var at: nat, left: nat := offset, len;
      while left > 0
        invariant at + left == offset + len && offset <= at == offset + |AllBytes(sent)|
        invariant AsRead(read, sent, pieceBytes) && Consecutive(Extents(sent), offset, at)
        invariant |sent| <= sends
        invariant Ahead(hints, offset, cut.totalBytes)
        invariant hints != [] ==> hints[|hints| - 1].0 + hints[|hints| - 1].1 <= hinted
        invariant offset <= hinted
      {
        var piece := RowAligned(cut, at, Min(left, pieceBytes));
        var window := Min(at + READ_AHEAD_BYTES, cut.totalBytes);
        if window > hinted {
          var from := Max(hinted, at);
          AskAhead(hints, offset, cut.totalBytes, from, window);
          hints := hints + [(from, window - from)];
          hinted := window;
        }
        var bytes := read(at, piece);
        if bytes.Err? {
          FailsThere(read, at, piece, bytes.error);
          return sent, ReadFailed(bytes.error), hints;
        }
        if |sent| == sends {
          return sent, SendFailed, hints;
        }
        ReadWhole(read, at, piece);
        SentMore(read, sent, Sent(at, bytes.value), offset, at, pieceBytes);
        sent := sent + [Sent(at, bytes.value)];
        at, left := at + piece, left - piece;
      }
      served := Complete;
    }
  }

  lemma NothingSent(read: Storage, pieceBytes: nat, offset: nat)
    ensures AsRead(read, [], pieceBytes) && Consecutive(Extents([]), offset, offset) && AllBytes([]) == []
  {
  }

  lemma NothingAsked(offset: nat, total: nat)
    ensures Ahead([], offset, total)
  {
  }

  lemma FailsThere(read: Storage, at: nat, n: nat, error: string)
    requires n > 0 && read(at, n) == Err(error)
    ensures FailsAt(read, at, error)
  {
    assert FailedAt(read, at, n, error);
  }

  lemma ReadWhole(read: Storage, at: nat, n: nat)
    requires Reads(read) && read(at, n).Ok?
    ensures |read(at, n).value| == n
  {
  }

  lemma AskAhead(hints: seq<(nat, nat)>, offset: nat, total: nat, from: nat, to: nat)
    requires Ahead(hints, offset, total) && offset <= from < to <= total
    requires hints != [] ==> hints[|hints| - 1].0 + hints[|hints| - 1].1 <= from
    ensures Ahead(hints + [(from, to - from)], offset, total)
  {
    var more := hints + [(from, to - from)];
    forall j, k | 0 <= j < k < |more| ensures more[j].0 + more[j].1 <= more[k].0 {
      if k == |hints| && j < |hints| - 1 {
        assert hints[j].0 + hints[j].1 <= hints[|hints| - 1].0;
      }
    }
  }

  lemma SentMore(read: Storage, sent: seq<Sent>, piece: Sent, offset: nat, at: nat, pieceBytes: nat)
    requires Consecutive(Extents(sent), offset, at) && piece.offset == at && 0 < |piece.bytes| <= pieceBytes
    requires AsRead(read, sent, pieceBytes) && read(at, |piece.bytes|) == Ok(piece.bytes)
    ensures AsRead(read, sent + [piece], pieceBytes)
    ensures Consecutive(Extents(sent + [piece]), offset, at + |piece.bytes|)
    ensures AllBytes(sent + [piece]) == AllBytes(sent) + piece.bytes
  {
    assert Extents(sent + [piece]) == Extents(sent) + [(at, |piece.bytes|)];
    ConsecutiveSnoc(Extents(sent), offset, at, |piece.bytes|);
    assert (sent + [piece])[..|sent|] == sent;
  }

  lemma {:induction false} ConsecutiveSnoc(pieces: seq<(nat, nat)>, from: nat, to: nat, len: nat)
    requires Consecutive(pieces, from, to) && len > 0
    ensures Consecutive(pieces + [(to, len)], from, to + len)
    decreases |pieces|
  {
    if pieces == [] {
      assert Consecutive([(to, len)][1..], to + len, to + len);
    } else {
      ConsecutiveSnoc(pieces[1..], from + pieces[0].1, to, len);
      assert (pieces + [(to, len)])[1..] == pieces[1..] + [(to, len)];
    }
  }

  /** A piece starts where the bytes sent before it end, so a client that counts
      what it has received knows where the next piece belongs. */
  lemma {:induction false} PieceFollows(sent: seq<Sent>, offset: nat, to: nat, k: nat)
    requires Consecutive(Extents(sent), offset, to) && k <= |sent|
    ensures Consecutive(Extents(sent[..k]), offset, offset + |AllBytes(sent[..k])|)
    ensures k < |sent| ==> sent[k].offset == offset + |AllBytes(sent[..k])|
    decreases k
  {
    if k > 0 {
      PieceFollows(sent, offset, to, k - 1);
      var piece := sent[k - 1];
      assert sent[..k] == sent[..k - 1] + [piece];
      assert Extents(sent)[k - 1].1 > 0 by {
        ConsecutiveBounds(Extents(sent), offset, to, k - 1);
      }
      assert Extents(sent[..k]) == Extents(sent[..k - 1]) + [(piece.offset, |piece.bytes|)];
      ConsecutiveSnoc(Extents(sent[..k - 1]), offset, piece.offset, |piece.bytes|);
      assert sent[..k][..k - 1] == sent[..k - 1];
      if k < |sent| {
        FollowsNext(Extents(sent), offset, to, k - 1);
      }
    }
  }

  lemma {:induction false} FollowsNext(pieces: seq<(nat, nat)>, from: nat, to: nat, k: nat)
    requires Consecutive(pieces, from, to) && k + 1 < |pieces|
    ensures pieces[k + 1].0 == pieces[k].0 + pieces[k].1
    decreases |pieces|
  {
    if k > 0 {
      FollowsNext(pieces[1..], from + pieces[0].1, to, k - 1);
    } else {
      assert pieces[1..][0] == pieces[1];
    }
  }

  lemma LastSent(read: Storage, sent: seq<Sent>, pieceBytes: nat)
    requires sent != [] && AsRead(read, sent, pieceBytes)
    ensures var n := |sent| - 1;
      && AsRead(read, sent[..n], pieceBytes) && AllBytes(sent) == AllBytes(sent[..n]) + sent[n].bytes
      && read(sent[n].offset, |sent[n].bytes|) == Ok(sent[n].bytes)
  {
  }

  lemma SliceGrows(s: seq<byte>, a: nat, b: nat, c: nat)
    requires a <= b <= c <= |s|
    ensures s[a..b] + s[b..c] == s[a..c]
  {
  }

  /** What storage answers inside a stream is the stream; it may still fail. */
  ghost predicate FromStream(read: Storage, stream: seq<byte>) {
    forall at: nat, n: nat :: at + n <= |stream| && read(at, n).Ok? ==> read(at, n).value == stream[at..at + n]
  }

  /** What was sent is the stream from the fetch's offset on. */
  lemma {:induction false} ServedIsStream(read: Storage, sent: seq<Sent>, pieceBytes: nat, offset: nat,
      stream: seq<byte>)
    requires AsRead(read, sent, pieceBytes) && Consecutive(Extents(sent), offset, offset + |AllBytes(sent)|)
    requires FromStream(read, stream)
    requires offset + |AllBytes(sent)| <= |stream|
    ensures AllBytes(sent) == stream[offset..offset + |AllBytes(sent)|]
    decreases |sent|
  {
    hide AsRead, Consecutive, Extents, AllBytes;
    if sent == [] {
      NothingSent(read, pieceBytes, offset);
    } else {
      var n := |sent| - 1;
      LastSent(read, sent, pieceBytes);
      PieceFollows(sent, offset, offset + |AllBytes(sent)|, n);
      ServedIsStream(read, sent[..n], pieceBytes, offset, stream);
      var at := sent[n].offset;
      assert read(at, |sent[n].bytes|).value == stream[at..at + |sent[n].bytes|];
      SliceGrows(stream, offset, at, at + |sent[n].bytes|);
    }
  }
}
