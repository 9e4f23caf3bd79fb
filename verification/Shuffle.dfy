/** HDF5's shuffle filter: byte `b` of every element moved to block `b`. */
module Shuffling {
  import opened Words
  import opened Radix

  /** Where entry `k` of `rows` columns goes when rows and columns change places. */
  function Transposed(k: nat, rows: nat, cols: nat): (t: nat)
    requires k < Offset(rows, cols)
    ensures t < Offset(rows, cols)
  {
    TransposeFits(k, rows, cols);
    Offset(k % rows, cols) + k / rows
  }

  lemma TransposeFits(k: nat, rows: nat, cols: nat)
    requires k < Offset(rows, cols)
    ensures rows > 0 && cols > 0 && k / rows < cols && k % rows < rows
    ensures Offset(k % rows, cols) + k / rows < Offset(rows, cols)
  {
    BothSides(rows, cols);
    assert k == k / rows * rows + k % rows && rows * cols == cols * rows;
    QuotientBound(k / rows, k % rows, cols, rows);
    DigitBound(k % rows, rows, k / rows, cols);
  }

  lemma BothSides(rows: nat, cols: nat)
    requires Offset(rows, cols) > 0
    ensures rows > 0 && cols > 0
  {
  }

  lemma SameSize(rows: nat, cols: nat)
    ensures Offset(rows, cols) == Offset(cols, rows)
  {
  }

  lemma TransposedTwice(k: nat, rows: nat, cols: nat)
    requires k < Offset(rows, cols)
    ensures Transposed(k, rows, cols) < Offset(cols, rows)
    ensures Transposed(Transposed(k, rows, cols), cols, rows) == k
  {
    SameSize(rows, cols);
    TransposeFits(k, rows, cols);
    DivModUnique(k % rows, k / rows, cols);
    assert k == k / rows * rows + k % rows;
  }

  /** Whole elements in some bytes. */
  function Elements(data: seq<byte>, itemsize: nat): (n: nat)
    requires itemsize > 0
    ensures Offset(n, itemsize) <= |data|
  {
    assert |data| == |data| / itemsize * itemsize + |data| % itemsize;
    |data| / itemsize
  }

  /** What the filter stores; a partial element at the end stays where it is. */
  ghost function Shuffled(data: seq<byte>, itemsize: nat): (out: seq<byte>)
    requires itemsize > 0
    ensures |out| == |data|
  {
    var n := Elements(data, itemsize);
    seq(|data|, k requires 0 <= k < |data| =>
      if k < Offset(n, itemsize) then data[Transposed(k, n, itemsize)] else data[k])
  }

  /** The filter undone. */
  ghost function Unshuffled(data: seq<byte>, itemsize: nat): (out: seq<byte>)
    requires itemsize > 0
    ensures |out| == |data|
  {
    var n := Elements(data, itemsize);
    SameSize(n, itemsize);
    seq(|data|, k requires 0 <= k < |data| =>
      if k < Offset(itemsize, n) then data[Transposed(k, itemsize, n)] else data[k])
  }

  /** Each undoes the other. */
  lemma UnshufflesShuffle(data: seq<byte>, itemsize: nat)
    requires itemsize > 0
    ensures Unshuffled(Shuffled(data, itemsize), itemsize) == data
    ensures Shuffled(Unshuffled(data, itemsize), itemsize) == data
  {
    var n := Elements(data, itemsize);
    SameSize(n, itemsize);
    var s, u := Shuffled(data, itemsize), Unshuffled(data, itemsize);
    assert Elements(s, itemsize) == n && Elements(u, itemsize) == n;
    forall k | 0 <= k < |data|
      ensures Unshuffled(s, itemsize)[k] == data[k] && Shuffled(u, itemsize)[k] == data[k]
    {
      if k < Offset(n, itemsize) {
        TransposedTwice(k, itemsize, n);
        TransposedTwice(k, n, itemsize);
      }
    }
  }

  /** Byte `b` of element `e` goes to place `e` of block `b`. */
  lemma ByteOfElement(e: nat, b: nat, n: nat, itemsize: nat)
    requires e < n && b < itemsize
    ensures Offset(e, itemsize) + b < Offset(itemsize, n)
    ensures Transposed(Offset(e, itemsize) + b, itemsize, n) == Offset(b, n) + e
  {
    SameSize(n, itemsize);
    DigitBound(e, n, b, itemsize);
    DivModUnique(e, b, itemsize);
  }

  /** Undo the filter into `out`, block by block. */
  method Unshuffle(data: seq<byte>, itemsize: nat, out: array<byte>)
    requires itemsize > 0 && out.Length == |data|
    modifies out
    ensures out[..] == Unshuffled(data, itemsize)
  {
    for k := 0 to out.Length
      invariant forall j :: 0 <= j < k ==> out[j] == data[j]
    {
      out[k] := data[k];
    }
    if itemsize > 1 {
      var n := Elements(data, itemsize);
      for b := 0 to itemsize
        invariant Placed(data, itemsize, n, out[..], b, 0)
      {
        for e := 0 to n
          invariant Placed(data, itemsize, n, out[..], b, e)
        {
          ByteOfElement(e, b, n, itemsize);
          PlaceOne(data, itemsize, n, out[..], b, e);
          out[Offset(e, itemsize) + b] := data[Offset(b, n) + e];
        }
        NextBlock(data, itemsize, n, out[..], b);
      }
      AllPlaced(data, itemsize, n, out[..]);
    } else {
      OneByteItems(data, itemsize);
    }
  }

  /** The blocks before `b`, and the first `e` bytes of block `b`, are in place;
      the rest is the data as it came. */
  ghost predicate Placed(data: seq<byte>, itemsize: nat, n: nat, out: seq<byte>, b: nat, e: nat)
    requires itemsize > 0 && n == Elements(data, itemsize)
  {
    |out| == |data| && forall k :: 0 <= k < |data| ==> PlacedAt(data, itemsize, n, out, b, e, k)
  }

  ghost predicate PlacedAt(data: seq<byte>, itemsize: nat, n: nat, out: seq<byte>, b: nat, e: nat, k: nat)
    requires itemsize > 0 && |out| == |data| && k < |data|
  {
    out[k] == if Reached(k, itemsize, n, b, e) then Unshuffled(data, itemsize)[k] else data[k]
  }

  /** Byte `k` is of a block before `b`, or among the first `e` elements of it. */
  ghost predicate Reached(k: nat, itemsize: nat, n: nat, b: nat, e: nat)
    requires itemsize > 0
  {
    k < Offset(n, itemsize) && (k % itemsize < b || (k % itemsize == b && k / itemsize < e))
  }

  lemma PlaceOne(data: seq<byte>, itemsize: nat, n: nat, out: seq<byte>, b: nat, e: nat)
    requires itemsize > 0 && n == Elements(data, itemsize) && b < itemsize && e < n
    requires Placed(data, itemsize, n, out, b, e)
    ensures Offset(e, itemsize) + b < |out| && Offset(b, n) + e < |data|
    ensures Placed(data, itemsize, n, out[Offset(e, itemsize) + b := data[Offset(b, n) + e]], b, e + 1)
  {
    ByteOfElement(e, b, n, itemsize);
    SameSize(n, itemsize);
    var at := Offset(e, itemsize) + b;
    var now := out[at := data[Offset(b, n) + e]];
    var next := e + 1;
    forall k | 0 <= k < |data| ensures PlacedAt(data, itemsize, n, now, b, next, k) {
      assert PlacedAt(data, itemsize, n, out, b, e, k);
      OneReached(k, itemsize, n, b, e);
    }
  }

  lemma OneReached(k: nat, itemsize: nat, n: nat, b: nat, e: nat)
    requires e < n && b < itemsize
    ensures Reached(k, itemsize, n, b, e + 1) <==> Reached(k, itemsize, n, b, e) || k == Offset(e, itemsize) + b
  {
    DivModUnique(e, b, itemsize);
    DigitBound(e, n, b, itemsize);
    assert k == k / itemsize * itemsize + k % itemsize;
  }

  lemma NextBlock(data: seq<byte>, itemsize: nat, n: nat, out: seq<byte>, b: nat)
    requires itemsize > 0 && n == Elements(data, itemsize) && Placed(data, itemsize, n, out, b, n)
    ensures Placed(data, itemsize, n, out, b + 1, 0)
  {
    hide Reached, Unshuffled, Elements;
    var next := b + 1;
    forall k | 0 <= k < |data| ensures PlacedAt(data, itemsize, n, out, next, 0, k) {
      assert PlacedAt(data, itemsize, n, out, b, n, k);
      WholeBlock(k, itemsize, n, b);
    }
  }

  lemma WholeBlock(k: nat, itemsize: nat, n: nat, b: nat)
    requires itemsize > 0
    ensures Reached(k, itemsize, n, b, n) <==> Reached(k, itemsize, n, b + 1, 0)
  {
    if k < Offset(n, itemsize) {
      SameSize(n, itemsize);
      TransposeFits(k, itemsize, n);
    }
  }

  lemma AllPlaced(data: seq<byte>, itemsize: nat, n: nat, out: seq<byte>)
    requires itemsize > 0 && n == Elements(data, itemsize) && Placed(data, itemsize, n, out, itemsize, 0)
    ensures out == Unshuffled(data, itemsize)
  {
    SameSize(n, itemsize);
    forall k | 0 <= k < |data| ensures out[k] == Unshuffled(data, itemsize)[k] {
      assert PlacedAt(data, itemsize, n, out, itemsize, 0, k);
    }
  }

  lemma OneByteItems(data: seq<byte>, itemsize: nat)
    requires itemsize == 1
    ensures Unshuffled(data, itemsize) == data
  {
    forall k | 0 <= k < |data| ensures Unshuffled(data, itemsize)[k] == data[k] {
      var n := Elements(data, itemsize);
      if k < Offset(itemsize, n) {
        assert k % 1 == 0 && k / 1 == k;
      }
    }
  }
}
