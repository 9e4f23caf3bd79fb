/** Feeding every element of a selection to its output cell. */
module Folding {
  import opened Words
  import opened Radix
  import opened Reducing

  const BLOCK_BYTES: nat := 0x40_0000

  /** An element on its way to a cell: which one, its position, its value. */
  datatype Push<T> = Push(cell: nat, pos: nat, x: T)

  /** What each cell's state becomes as elements are pushed. */
  type Step<!S, !T> = (S, nat, T) -> S

  /** The state of one cell once `pushed` have all been fed. */
  ghost function StateOf<S, T>(init: S, step: Step<S, T>, pushed: seq<Push<T>>, cell: nat): S {
    if pushed == [] then init
    else
      var last := pushed[|pushed| - 1];
      var before := StateOf(init, step, pushed[..|pushed| - 1], cell);
      if last.cell == cell then step(before, last.pos, last.x) else before
  }

  /** One accumulator per output cell. */
  class Accumulator<S, T> {
    const init: S
    const step: Step<S, T>
    var cells: seq<S>
    ghost var pushed: seq<Push<T>>

    ghost predicate Valid()
      reads this
    {
      forall k :: 0 <= k < |cells| ==> cells[k] == StateOf(init, step, pushed, k)
    }

    constructor (count: nat, init: S, step: Step<S, T>)
      ensures Valid() && |cells| == count && pushed == []
      ensures this.init == init && this.step == step
    {
      this.init, this.step := init, step;
      cells := seq(count, _ => init);
      pushed := [];
    }

    method Feed(cell: nat, pos: nat, x: T)
      requires Valid() && cell < |cells|
      modifies this
      ensures Valid() && |cells| == old(|cells|) && pushed == old(pushed) + [Push(cell, pos, x)]
    {
      assert (pushed + [Push(cell, pos, x)])[..|pushed|] == pushed;
      cells := cells[cell := step(cells[cell], pos, x)];
      pushed := pushed + [Push(cell, pos, x)];
    }
  }

  /** A reduction's geometry: the shape, the axes that go, and the axis positions count on. */
  datatype Walk = Walk(shape: seq<nat>, reduced: seq<bool>, posAxis: Option<nat>) {
    ghost predicate Valid() {
      |shape| == |reduced| && (posAxis.Some? ==> posAxis.value < |shape|)
    }

    ghost function CellOf(idx: seq<nat>): nat
      requires Valid() && |idx| == |shape|
    {
      Ravel(Kept(idx, reduced), Kept(shape, reduced))
    }

    ghost function PosOf(idx: seq<nat>, n: nat): nat
      requires Valid() && |idx| == |shape|
    {
      if posAxis.Some? then idx[posAxis.value] else n
    }

    /** How element `n` of the stream is fed. */
    ghost function PushOf<T>(n: nat, x: T): Push<T>
      requires Valid() && Positive(shape)
    {
      Push(CellOf(Unravel(n, shape)), PosOf(Unravel(n, shape), n), x)
    }
  }

  lemma {:induction false} DotStep(idx: seq<nat>, stride: seq<nat>, d: nat, x: nat)
    requires |idx| == |stride| && d < |idx|
    ensures Dot(idx[d := x], stride) + idx[d] * stride[d] == Dot(idx, stride) + x * stride[d]
    decreases |idx|
  {
    if d > 0 {
      DotStep(idx[1..], stride[1..], d - 1, x);
      assert idx[d := x][1..] == idx[1..][d - 1 := x];
    } else {
      assert idx[0 := x][1..] == idx[1..];
    }
  }

  lemma MulNext(x: nat, s: nat)
    ensures (x + 1) * s == x * s + s
  {
  }

  lemma {:induction false} DotZero(idx: seq<nat>, stride: seq<nat>)
    requires |idx| == |stride| && forall d :: 0 <= d < |idx| ==> idx[d] == 0
    ensures Dot(idx, stride) == 0
    decreases |idx|
  {
    if idx != [] {
      DotZero(idx[1..], stride[1..]);
    }
  }

  /** The next index in C order and its cell, without computing either anew. */
  method Advance(idx: seq<nat>, cell: nat, shape: seq<nat>, stride: seq<nat>) returns (idx': seq<nat>, cell': nat)
    requires Inside(idx, shape) && |stride| == |shape| && cell == Dot(idx, stride)
    ensures Inside(idx', shape) && cell' == Dot(idx', stride)
    ensures var n := Ravel(idx, shape) + 1;
      Ravel(idx', shape) == if n < Product(shape) then n else 0
  {
    hide Ravel, Product, Dot;
    idx', cell' := idx, cell;
    var d: nat := |shape|;
    while d > 0
      invariant d <= |shape| == |idx'|
      invariant idx'[..d] == idx[..d]
      invariant forall k :: d <= k < |shape| ==> idx'[k] == 0 && idx[k] == shape[k] - 1
      invariant cell' == Dot(idx', stride)
    {
      d := d - 1;
      assert idx'[d] == idx'[..d + 1][d] == idx[d];
      DotStep(idx', stride, d, idx[d] + 1);
      MulNext(idx[d], stride[d]);
      cell' := cell' + stride[d];
      if idx[d] + 1 < shape[d] {
        idx' := idx'[d := idx[d] + 1];
        OdometerStep(idx, idx', shape, d);
        RavelBound(idx', shape);
        return;
      }
      DotStep(idx', stride, d, 0);
      ZeroTimes(stride[d], shape[d]);
      cell' := cell' - stride[d] * shape[d];
      idx' := idx'[d := 0];
    }
    RavelLast(idx, shape);
    RavelZeros(idx', shape);
  }

  lemma ZeroTimes(s: nat, n: nat)
    ensures 0 * s == 0 && s * n == n * s
  {
  }

  type RangeReader = (nat, nat) -> Result<seq<byte>, string>

  /** Reads find the selection's stream. */
  ghost predicate Finds(readRange: RangeReader, stream: seq<byte>) {
    forall at: nat, n: nat :: readRange(at, n).Ok? ==>
      at + n <= |stream| && readRange(at, n).value == stream[at..at + n]
  }

  ghost predicate SomeReadFails(readRange: RangeReader, error: string) {
    exists at, n :: readRange(at, n) == Err(error)
  }

  /** The bytes of element `n`. */
  ghost function ElementBytes(stream: seq<byte>, n: nat, size: nat): seq<byte>
    requires Offset(n, size) + size <= |stream|
  {
    stream[Offset(n, size)..Offset(n, size) + size]
  }

  /** The first elements of the stream, each fed to its cell, in order. */
  ghost predicate Fed<T(!new)>(walk: Walk, stream: seq<byte>, size: nat, read: seq<byte> -> T, pushed: seq<Push<T>>)
    requires walk.Valid()
  {
    Positive(walk.shape) &&
    forall n :: 0 <= n < |pushed| ==> FedAt(walk, stream, size, read, pushed, n)
  }

  ghost predicate FedAt<T(!new)>(walk: Walk, stream: seq<byte>, size: nat, read: seq<byte> -> T, pushed: seq<Push<T>>,
      n: nat)
    requires walk.Valid() && Positive(walk.shape) && n < |pushed|
  {
    Offset(n, size) + size <= |stream| && pushed[n] == walk.PushOf(n, read(ElementBytes(stream, n, size)))
  }

  lemma FedMore<T(!new)>(walk: Walk, stream: seq<byte>, size: nat, read: seq<byte> -> T, pushed: seq<Push<T>>,
      push: Push<T>)
    requires walk.Valid() && Fed(walk, stream, size, read, pushed)
    requires Offset(|pushed|, size) + size <= |stream|
    requires push == walk.PushOf(|pushed|, read(ElementBytes(stream, |pushed|, size)))
    ensures Fed(walk, stream, size, read, pushed + [push])
  {
    hide Walk.PushOf;
    var more := pushed + [push];
    forall n | 0 <= n < |more| ensures FedAt(walk, stream, size, read, more, n) {
      if n < |pushed| {
        assert FedAt(walk, stream, size, read, pushed, n);
      }
    }
  }

  /** Where a walk is: at element `n`, whose index and cell these are. */
  ghost predicate At(walk: Walk, n: nat, idx: seq<nat>, cell: nat)
    requires walk.Valid()
  {
    && Inside(idx, walk.shape) && cell == Dot(idx, Strides(walk.shape, walk.reduced))
    && (n < Product(walk.shape) ==> Ravel(idx, walk.shape) == n)
  }

  lemma AtStart(walk: Walk, idx: seq<nat>)
    requires walk.Valid() && Positive(walk.shape) && |idx| == |walk.shape|
    requires forall d :: 0 <= d < |idx| ==> idx[d] == 0
    ensures At(walk, 0, idx, 0)
  {
    RavelZeros(idx, walk.shape);
    DotZero(idx, Strides(walk.shape, walk.reduced));
  }

  /** The cell and position the walk feeds an element to. */
  lemma AtFeeds<T>(walk: Walk, n: nat, idx: seq<nat>, cell: nat, x: T)
    requires walk.Valid() && n < Product(walk.shape) && At(walk, n, idx, cell)
    ensures Positive(walk.shape) && cell < Product(Kept(walk.shape, walk.reduced))
    ensures walk.PushOf(n, x) == Push(cell, if walk.posAxis.Some? then idx[walk.posAxis.value] else n, x)
  {
    hide Ravel, Unravel, Dot, Kept, Strides;
    UnravelRavel(idx, walk.shape);
    CellIsProjection(idx, walk.shape, walk.reduced);
    KeptInside(idx, walk.shape, walk.reduced);
    RavelBound(Kept(idx, walk.reduced), Kept(walk.shape, walk.reduced));
  }

  lemma BlockElement(stream: seq<byte>, block: seq<byte>, at: nat, first: nat, j: nat, size: nat)
    requires size > 0 && at + |block| <= |stream| && block == stream[at..at + |block|] && at == Offset(first, size)
    requires Offset(j, size) + size <= |block|
    ensures Offset(first + j, size) + size <= |stream|
    ensures block[Offset(j, size)..Offset(j, size) + size] == ElementBytes(stream, first + j, size)
  {
    hide Offset;
    OffsetAdd(first, j, size);
    SliceOfSlice(stream, at, at + |block|, Offset(j, size), size);
  }

  /** Feed one block, element by element. */
  method FeedBlock<S, T(!new)>(walk: Walk, stride: seq<nat>, size: nat, block: seq<byte>, at: nat, read: seq<byte> -> T,
      acc: Accumulator<S, T>, flat: nat, idx: seq<nat>, cell: nat, ghost stream: seq<byte>, ghost count: nat)
    returns (flat': nat, idx': seq<nat>, cell': nat)
    requires walk.Valid() && stride == Strides(walk.shape, walk.reduced) && size > 0
    requires acc.Valid() && |acc.cells| == Product(Kept(walk.shape, walk.reduced)) && flat == |acc.pushed|
    requires Fed(walk, stream, size, read, acc.pushed) && At(walk, flat, idx, cell)
    requires at == Offset(flat, size) && at + |block| <= |stream| && block == stream[at..at + |block|]
    requires |block| == Offset(count, size) && flat + count <= Product(walk.shape)
    modifies acc
    ensures acc.Valid() && |acc.cells| == old(|acc.cells|)
    ensures flat' == flat + count == |acc.pushed| && At(walk, flat', idx', cell')
    ensures Fed(walk, stream, size, read, acc.pushed)
  {
    hide Fed, At, Product, Strides, Kept, Walk.PushOf;
    flat', idx', cell' := flat, idx, cell;
    var j: nat := 0;
    WholeElements(count, size);
    while j < |block| / size
      invariant j <= count == |block| / size
      invariant acc.Valid() && |acc.cells| == old(|acc.cells|)
      invariant flat' == flat + j == |acc.pushed| && At(walk, flat', idx', cell')
      invariant Fed(walk, stream, size, read, acc.pushed)
    {
      OffsetNext(j, size);
      OffsetMonotone(j + 1, count, size);
      var bytes := block[Offset(j, size)..Offset(j, size) + size];
      BlockElement(stream, block, at, flat, j, size);
      AtShape(walk, flat', idx', cell');
      AtFeeds(walk, flat', idx', cell', read(bytes));
      FedMore(walk, stream, size, read, acc.pushed, walk.PushOf(flat', read(bytes)));
      acc.Feed(cell', if walk.posAxis.Some? then idx'[walk.posAxis.value] else flat', read(bytes));
      ghost var was, wasCell := idx', cell';
      idx', cell' := Advance(idx', cell', walk.shape, stride);
      AtNext(walk, flat', was, wasCell, idx', cell');
      flat' := flat' + 1;
      j := j + 1;
    }
  }

  lemma WholeElements(count: nat, size: nat)
    requires size > 0
    ensures Offset(count, size) / size == count
  {
    DivModUnique(count, 0, size);
  }

  lemma AtShape(walk: Walk, n: nat, idx: seq<nat>, cell: nat)
    requires walk.Valid() && At(walk, n, idx, cell)
    ensures Inside(idx, walk.shape) && cell == Dot(idx, Strides(walk.shape, walk.reduced))
  {
  }

  lemma AtNext(walk: Walk, n: nat, idx: seq<nat>, cell: nat, idx': seq<nat>, cell': nat)
    requires walk.Valid() && n < Product(walk.shape) && At(walk, n, idx, cell)
    requires Inside(idx', walk.shape) && cell' == Dot(idx', Strides(walk.shape, walk.reduced))
    requires Ravel(idx, walk.shape) + 1 < Product(walk.shape) ==> Ravel(idx', walk.shape) == Ravel(idx, walk.shape) + 1
    ensures At(walk, n + 1, idx', cell')
  {
  }

  lemma BlockFits(size: nat)
    requires 0 < size <= BLOCK_BYTES
    ensures BLOCK_BYTES / size * size > 0
  {
    assert BLOCK_BYTES == BLOCK_BYTES / size * size + BLOCK_BYTES % size;
  }

  lemma Elements(shape: seq<nat>, size: nat)
    requires Offset(Product(shape), size) > 0
    ensures Positive(shape) && Product(shape) > 0
  {
    ProductPositive(shape);
  }

  lemma NoElements(shape: seq<nat>, size: nat)
    requires size > 0 && Offset(Product(shape), size) == 0
    ensures Product(shape) == 0
  {
    OffsetAtLeast(Product(shape), size);
  }

  lemma NothingFed<T(!new)>(walk: Walk, stream: seq<byte>, size: nat, read: seq<byte> -> T)
    requires walk.Valid() && Positive(walk.shape)
    ensures Fed(walk, stream, size, read, [])
  {
  }

  /** A block holds whole elements. */
  lemma BlockCount(flat: nat, n: nat, size: nat, len: nat) returns (count: nat)
    requires size > 0 && flat <= n
    requires len == Min(Offset(n, size) - Offset(flat, size), BLOCK_BYTES / size * size)
    ensures len == Offset(count, size) && flat + count <= n
  {
    OffsetAdd(flat, n - flat, size);
    if Offset(n, size) - Offset(flat, size) <= BLOCK_BYTES / size * size {
      count := n - flat;
    } else {
      count := BLOCK_BYTES / size;
      if count > n - flat {
        OffsetMonotone(n - flat, count, size);
      }
    }
  }

  lemma FoundBytes(readRange: RangeReader, stream: seq<byte>, at: nat, n: nat)
    requires Finds(readRange, stream) && readRange(at, n).Ok?
    ensures at + n <= |stream| && readRange(at, n).value == stream[at..at + n]
  {
  }

  lemma OffsetSame(a: nat, b: nat, size: nat)
    requires size > 0 && a <= b && Offset(a, size) == Offset(b, size)
    ensures a == b
  {
    OffsetAdd(a, b - a, size);
    OffsetAtLeast(b - a, size);
  }

  /** Read the stream in blocks and push all of it, each element once and in order. */
  method Fold<S, T(!new)>(walk: Walk, stride: seq<nat>, size: nat, total: nat, readRange: RangeReader,
      read: seq<byte> -> T, acc: Accumulator<S, T>, ghost stream: seq<byte>)
    returns (done: Result<(), string>)
    requires walk.Valid() && |stride| == |walk.shape| && 0 < size <= BLOCK_BYTES
    requires total > 0 ==> stride == Strides(walk.shape, walk.reduced)
    requires total > 0 ==> |acc.cells| == Product(Kept(walk.shape, walk.reduced))
    requires total == |stream| == Offset(Product(walk.shape), size) && Finds(readRange, stream)
    requires acc.Valid() && acc.pushed == []
    modifies acc
    ensures acc.Valid() && |acc.cells| == old(|acc.cells|)
    ensures done.Ok? ==> |acc.pushed| == Product(walk.shape)
    ensures done.Ok? && total > 0 ==> Fed(walk, stream, size, read, acc.pushed)
    ensures done.Err? ==> SomeReadFails(readRange, done.error)
  {
    hide Fed, At, Product, Strides, Kept, Finds;
    var block := BLOCK_BYTES / size * size;
    BlockFits(size);
    var idx: seq<nat> := seq(|walk.shape|, _ => 0);
    var cell, flat, offset: nat := 0, 0, 0;
    ghost var n := Product(walk.shape);
    if total > 0 {
      Elements(walk.shape, size);
      AtStart(walk, idx);
      NothingFed(walk, stream, size, read);
      OffsetNext(0, size);
    } else {
      NoElements(walk.shape, size);
    }
    while offset < total
      invariant acc.Valid() && |acc.cells| == old(|acc.cells|)
      invariant flat == |acc.pushed| <= n && offset == Offset(flat, size) <= total
      invariant total > 0 ==> At(walk, flat, idx, cell) && Fed(walk, stream, size, read, acc.pushed)
    {
      var len := Min(total - offset, block);
      ghost var count := BlockCount(flat, n, size, len);
      var bytes := readRange(offset, len);
      if bytes.Err? {
        return Err(bytes.error);
      }
      FoundBytes(readRange, stream, offset, len);
      flat, idx, cell := FeedBlock(walk, stride, size, bytes.value, offset, read, acc, flat, idx, cell, stream, count);
      OffsetAdd(flat - count, count, size);
      offset := offset + len;
    }
    OffsetSame(flat, n, size);
    done := Ok(());
  }
}
