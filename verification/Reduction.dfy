/** One reduction, from its arguments to one state per output cell. */
module Reductions {
  import opened Words
  import opened Radix
  import opened Reducing
  import opened Folding
  import opened Accumulators

  ghost function Others(reduced: seq<bool>): (others: seq<bool>)
    ensures |others| == |reduced|
  {
    seq(|reduced|, d requires 0 <= d < |reduced| => !reduced[d])
  }

  /** numpy's result shape: the axes that stay, and with `keepdims` a 1 for each
      that goes. */
  ghost predicate IsResultShape(shape: seq<nat>, reduced: seq<bool>, keepdims: bool, out: seq<nat>)
    requires |shape| == |reduced|
  {
    if keepdims then
      |out| == |shape| && forall d :: 0 <= d < |shape| ==> out[d] == if reduced[d] then 1 else shape[d]
    else out == Kept(shape, reduced)
  }

  method OutShape(shape: seq<nat>, reduced: seq<bool>, keepdims: bool) returns (out: seq<nat>)
    requires |shape| == |reduced|
    ensures IsResultShape(shape, reduced, keepdims, out)
  {
    hide Kept;
    out := [];
    NothingKept();
    assert shape[..0] == [] && reduced[..0] == [];
    for d := 0 to |shape|
      invariant IsResultShape(shape[..d], reduced[..d], keepdims, out)
    {
      assert shape[..d + 1] == shape[..d] + [shape[d]] && reduced[..d + 1] == reduced[..d] + [reduced[d]];
      KeptBack(shape[..d], reduced[..d], shape[d], reduced[d]);
      if !reduced[d] {
        out := out + [shape[d]];
      } else if keepdims {
        out := out + [1];
      }
    }
    assert shape[..|shape|] == shape && reduced[..|reduced|] == reduced;
  }

  lemma NothingKept()
    ensures Kept([], []) == []
  {
  }

  lemma {:induction false} KeptBack(s: seq<nat>, reduced: seq<bool>, x: nat, goes: bool)
    requires |s| == |reduced|
    ensures Kept(s + [x], reduced + [goes]) == Kept(s, reduced) + if goes then [] else [x]
    decreases |s|
  {
    if s == [] {
      assert [x][1..] == [] && [goes][1..] == [];
    } else {
      KeptBack(s[1..], reduced[1..], x, goes);
      assert (s + [x])[1..] == s[1..] + [x] && (reduced + [goes])[1..] == reduced[1..] + [goes];
    }
  }

  /** Elements behind each cell. */
  method PerCell(shape: seq<nat>, reduced: seq<bool>) returns (n: nat)
    requires |shape| == |reduced|
    ensures n == Wrap(Product(Kept(shape, Others(reduced))))
  {
    hide Product, Kept, Wrap;
    n := 1;
    var d: nat := |shape|;
    NoneLeft(shape, reduced);
    WrapOne();
    while d > 0
      invariant d <= |shape|
      invariant n == Wrap(Product(Kept(shape[d..], Others(reduced)[d..])))
    {
      d := d - 1;
      OneMoreAxis(shape, Others(reduced), d);
      if reduced[d] {
        WrapTwice(Product(Kept(shape[d + 1..], Others(reduced)[d + 1..])));
        WrapTimes(n, shape[d]);
        WrapTimes(Product(Kept(shape[d + 1..], Others(reduced)[d + 1..])), shape[d]);
        n := Wrap(n * shape[d]);
      }
    }
    assert shape[0..] == shape && Others(reduced)[0..] == Others(reduced);
  }

  lemma NoneLeft(shape: seq<nat>, reduced: seq<bool>)
    requires |shape| == |reduced|
    ensures Product(Kept(shape[|shape|..], Others(reduced)[|shape|..])) == 1
  {
  }

  /** The axis positions are counted along, for a reduction over one axis. */
  method PosAxis(axis: Axes, reduced: seq<bool>) returns (at: Option<nat>)
    ensures axis.One? ==> (at.Some? <==> true in reduced)
    ensures at.Some? ==> axis.One? && at.value < |reduced| && reduced[at.value]
    ensures at.Some? ==> forall d :: 0 <= d < at.value ==> !reduced[d]
  {
    if !axis.One? {
      return None;
    }
    var d: nat := 0;
    while d < |reduced|
      invariant d <= |reduced| && forall k :: 0 <= k < d ==> !reduced[k]
    {
      if reduced[d] {
        return Some(d);
      }
      d := d + 1;
    }
    return None;
  }

  /** Axes that stay and axes that go are all the axes. */
  lemma {:induction false} BothPositive(shape: seq<nat>, reduced: seq<bool>)
    requires |shape| == |reduced|
    ensures Positive(shape) <==> Positive(Kept(shape, reduced)) && Positive(Kept(shape, Others(reduced)))
    decreases |shape|
  {
    if shape != [] {
      BothPositive(shape[1..], reduced[1..]);
      assert Others(reduced)[1..] == Others(reduced[1..]);
      PositiveFront(shape[0], shape[1..]);
      assert [shape[0]] + shape[1..] == shape;
      var k, o := Kept(shape[1..], reduced[1..]), Kept(shape[1..], Others(reduced[1..]));
      PositiveFront(shape[0], k);
      PositiveFront(shape[0], o);
      assert [] + k == k && [] + o == o;
    }
  }

  lemma PositiveFront(x: nat, rest: seq<nat>)
    ensures Positive([x] + rest) <==> x > 0 && Positive(rest)
  {
    if Positive([x] + rest) {
      assert ([x] + rest)[0] == x;
      forall i | 0 <= i < |rest| ensures rest[i] > 0 {
        assert ([x] + rest)[i + 1] == rest[i];
      }
    }
  }

  lemma {:induction false} ColumnHas<T>(pushed: seq<Push<T>>, n: nat)
    requires n < |pushed|
    ensures Column(pushed, pushed[n].cell) != []
    decreases |pushed|
  {
    if n < |pushed| - 1 {
      ColumnHas(pushed[..|pushed| - 1], n);
    }
  }

  /** With every element fed and no axis empty, every cell has an element. */
  lemma EveryCellFed<T(!new)>(walk: Walk, stream: seq<byte>, size: nat, read: seq<byte> -> T, pushed: seq<Push<T>>,
      cell: nat)
    requires walk.Valid() && Fed(walk, stream, size, read, pushed) && |pushed| == Product(walk.shape)
    requires cell < Product(Kept(walk.shape, walk.reduced))
    ensures Column(pushed, cell) != []
  {
    hide Unravel, Ravel, Product, Kept, Lifted, Column;
    var kept := Kept(walk.shape, walk.reduced);
    BothPositive(walk.shape, walk.reduced);
    RavelUnravel(cell, kept);
    LiftedKept(Unravel(cell, kept), walk.shape, walk.reduced);
    var idx := Lifted(Unravel(cell, kept), walk.reduced);
    var n := Ravel(idx, walk.shape);
    RavelBound(idx, walk.shape);
    UnravelRavel(idx, walk.shape);
    assert FedAt(walk, stream, size, read, pushed, n);
    assert pushed[n].cell == cell;
    ColumnHas(pushed, n);
  }

  datatype Refused = BadAxis | TooLarge | NoElements | ReadFailed(error: string)

  /** Output cells, as an unchecked product of u64 counts them. */
  ghost function Cells(shape: seq<nat>, reduced: seq<bool>): nat
    requires |shape| == |reduced|
  {
    Wrap(Product(Kept(shape, reduced)))
  }

  /** Elements behind each cell, counted the same way. */
  ghost function ElementsPerCell(shape: seq<nat>, reduced: seq<bool>): nat
    requires |shape| == |reduced|
  {
    Wrap(Product(Kept(shape, Others(reduced))))
  }

  /** Bytes of so many cells, as far as a word can count them. */
  function ResultBytes(cells: nat, resultSize: nat): nat {
    Min(Offset(cells, resultSize), U64 - 1)
  }

  /** Cells to fill, and no element to fill them from. */
  ghost predicate NothingToReduce(shape: seq<nat>, reduced: seq<bool>)
    requires |shape| == |reduced|
  {
    !Positive(shape) && Positive(Kept(shape, reduced))
  }

  /** With cells a word can count, both refusals are the true ones. */
  lemma RefusalsAreTrue(shape: seq<nat>, reduced: seq<bool>)
    requires |shape| == |reduced| && Product(shape) < U64 && Product(Kept(shape, reduced)) < U64
    ensures Cells(shape, reduced) == Product(Kept(shape, reduced))
    ensures ElementsPerCell(shape, reduced) == 0 && Cells(shape, reduced) > 0 <==> NothingToReduce(shape, reduced)
  {
    hide Product, Kept;
    var kept, gone := Product(Kept(shape, reduced)), Product(Kept(shape, Others(reduced)));
    KeptTimesReduced(shape, reduced, Others(reduced));
    ProductPositive(shape);
    ProductPositive(Kept(shape, reduced));
    ProductPositive(Kept(shape, Others(reduced)));
    BothPositive(shape, reduced);
    if kept > 0 {
      MulLe(1, kept, gone);
    }
  }

  /** The size check goes wrong exactly when there are more cells than a word can
      count, and as many as it does count fit the limit. */
  lemma TooLargeMissed(cells: nat, resultSize: nat, maxBytes: nat)
    requires resultSize > 0
    ensures (ResultBytes(Wrap(cells), resultSize) > maxBytes) != (ResultBytes(cells, resultSize) > maxBytes)
       <==> cells >= U64 && maxBytes < U64 - 1 && ResultBytes(Wrap(cells), resultSize) <= maxBytes
  {
    OffsetAtLeast(cells, resultSize);
  }

  /** 2^66 sums of nothing are counted as none: they pass for an empty result. */
  lemma ManySumsVanish()
    ensures var shape, reduced := [0, 0x2_0000_0000, 0x2_0000_0000], [true, false, false];
      && Product(shape) == 0 && Product(Kept(shape, reduced)) > U64 && Cells(shape, reduced) == 0
      && NothingToReduce(shape, reduced)
  {
    var side: nat := 0x2_0000_0000;
    var shape, reduced := [0, side, side], [true, false, false];
    assert shape[..2][..1] == [0] && [0][..0] == [] && shape[..2] == [0, side];
    assert Product([0]) == 0 && Product([0, side]) == 0;
    assert reduced[1..] == [false, false] && [false, false][1..] == [false] && [false][1..] == [];
    assert shape[1..] == [side, side] && [side, side][1..] == [side] && [side][1..] == [];
    assert Kept([side], [false]) == [side] && Kept([side, side], [false, false]) == [side, side];
    assert Kept(shape, reduced) == [side, side];
    assert [side, side][..1] == [side] && [side][..0] == [] && Product([side]) == side;
    assert shape[0] == 0;
  }

  /** Reduce a selection to one state per cell, refusing a result over `maxBytes`,
      and an empty reduction that has no answer. */
  method Reduce<S, T(!new)>(shape: seq<nat>, axis: Axes, keepdims: bool, positional: bool, needsElement: bool,
      resultSize: nat, maxBytes: nat, size: nat, total: nat, readRange: RangeReader, read: seq<byte> -> T,
      init: S, step: Step<S, T>, ghost stream: seq<byte>)
    returns (out: Result<(seq<nat>, seq<S>), Refused>, ghost reduced: seq<bool>, ghost pushed: seq<Push<T>>)
    requires 0 < size <= BLOCK_BYTES && total < U64
    requires total == |stream| == Offset(Product(shape), size) && Finds(readRange, stream)
    ensures out == Err(BadAxis) <==> !Accepted(axis, |shape|, positional)
    ensures Accepted(axis, |shape|, positional) ==>
      |reduced| == |shape| && forall d :: 0 <= d < |shape| ==> (reduced[d] <==> Reduces(axis, |shape|, d))
    ensures Accepted(axis, |shape|, positional) ==>
      var bytes := ResultBytes(Cells(shape, reduced), resultSize);
      && (out == Err(TooLarge) <==> bytes > maxBytes)
      && (out == Err(NoElements) <==>
            bytes <= maxBytes && needsElement && ElementsPerCell(shape, reduced) == 0 && Cells(shape, reduced) > 0)
    ensures out.Err? && out.error.ReadFailed? ==> SomeReadFails(readRange, out.error.error)
    ensures out.Ok? ==>
      && IsResultShape(shape, reduced, keepdims, out.value.0)
      && |out.value.1| == Cells(shape, reduced) && |pushed| == Product(shape)
    ensures out.Ok? && total > 0 ==>
      exists posAxis :: Counts(axis, posAxis, reduced) && Fed(Walk(shape, reduced, posAxis), stream, size, read, pushed)
    ensures out.Ok? ==> forall c :: 0 <= c < |out.value.1| ==> out.value.1[c] == Run(init, step, Column(pushed, c))
    ensures out.Ok? && needsElement ==> forall c :: 0 <= c < |out.value.1| ==> Column(pushed, c) != []
  {
    hide Product, Kept, Strides, Fed, Finds, IsResultShape, Column, Run, Accepted, Reduces, Others, SomeReadFails, Wrap;
    reduced, pushed := [], [];
    var axes := ReducedAxes(|shape|, axis, positional);
    if axes.Err? {
      return Err(BadAxis), reduced, pushed;
    }
    reduced := axes.value;
    var outShape := OutShape(shape, axes.value, keepdims);
    var stride, cells := StridesAndCells(shape, axes.value);
    var perCell := PerCell(shape, axes.value);
    CountsFit(shape, reduced, size);
    if Min(cells * resultSize, U64 - 1) > maxBytes {
      return Err(TooLarge), reduced, pushed;
    }
    if perCell == 0 && cells > 0 && needsElement {
      return Err(NoElements), reduced, pushed;
    }
    var posAxis := PosAxis(axis, axes.value);
    var walk := Walk(shape, axes.value, posAxis);
    var acc := new Accumulator(cells, init, step);
    var done := Fold(walk, stride, size, total, readRange, read, acc, stream);
    if done.Err? {
      return Err(ReadFailed(done.error)), reduced, pushed;
    }
    pushed := acc.pushed;
    CellsAreRuns(acc);
    if needsElement {
      AllCellsFed(walk, stream, size, read, pushed, cells, total);
    }
    out := Ok((outShape, acc.cells));
    assert total > 0 ==>
      Counts(axis, posAxis, reduced) && Fed(Walk(shape, reduced, posAxis), stream, size, read, pushed);
  }

  /** A selection with elements never wraps a count: its own count bounds them. */
  lemma CountsFit(shape: seq<nat>, reduced: seq<bool>, size: nat)
    requires |shape| == |reduced| && size > 0 && Offset(Product(shape), size) < U64
    ensures Offset(Product(shape), size) > 0 ==>
      && Cells(shape, reduced) == Product(Kept(shape, reduced))
      && WrappedAll(Strides(shape, reduced)) == Strides(shape, reduced)
    ensures Offset(Product(shape), size) == 0 && Cells(shape, reduced) > 0 ==> ElementsPerCell(shape, reduced) == 0
  {
    hide Product, Kept, Strides, Wrap;
    OffsetAtLeast(Product(shape), size);
    OffsetNext(0, size);
    KeptTimesReduced(shape, reduced, Others(reduced));
    FactorFits(Product(Kept(shape, reduced)), Product(Kept(shape, Others(reduced))));
    if Product(shape) > 0 {
      ProductPositive(shape);
      StridesFit(shape, reduced);
    }
  }

  lemma FactorFits(kept: nat, gone: nat)
    requires kept * gone < U64
    ensures kept * gone > 0 ==> kept < U64 && Wrap(kept) == kept
    ensures kept * gone == 0 && Wrap(kept) > 0 ==> Wrap(gone) == 0
  {
    if kept * gone > 0 {
      MulLe(1, gone, kept);
    }
  }

  /** Positions are counted along the one axis reduced, or along the stream. */
  ghost predicate Counts(axis: Axes, posAxis: Option<nat>, reduced: seq<bool>) {
    && (posAxis.Some? ==> axis.One? && posAxis.value < |reduced| && reduced[posAxis.value])
    && (posAxis.None? ==> !axis.One? || true !in reduced)
  }

  lemma CellsAreRuns<S, T>(acc: Accumulator<S, T>)
    requires acc.Valid()
    ensures forall c :: 0 <= c < |acc.cells| ==> acc.cells[c] == Run(acc.init, acc.step, Column(acc.pushed, c))
  {
    hide Column, Run, StateOf;
    forall c | 0 <= c < |acc.cells| ensures acc.cells[c] == Run(acc.init, acc.step, Column(acc.pushed, c)) {
      StateIsRun(acc.init, acc.step, acc.pushed, c);
    }
  }

  lemma AllCellsFed<T(!new)>(walk: Walk, stream: seq<byte>, size: nat, read: seq<byte> -> T, pushed: seq<Push<T>>,
      cells: nat, total: nat)
    requires walk.Valid() && size > 0 && total == Offset(Product(walk.shape), size)
    requires total < U64 && cells == Cells(walk.shape, walk.reduced)
    requires cells == 0 || ElementsPerCell(walk.shape, walk.reduced) > 0
    requires |pushed| == Product(walk.shape) && (total > 0 ==> Fed(walk, stream, size, read, pushed))
    ensures forall c :: 0 <= c < cells ==> Column(pushed, c) != []
  {
    hide Product, Kept, Fed, Column, Cells, ElementsPerCell;
    CountsFit(walk.shape, walk.reduced, size);
    if cells > 0 {
      forall c | 0 <= c < cells ensures Column(pushed, c) != [] {
        EveryCellFed(walk, stream, size, read, pushed, c);
      }
    }
  }
}
