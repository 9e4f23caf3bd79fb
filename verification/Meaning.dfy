/** What a selection means: the source element behind every output element.

    The multi-index rule is the specification. It is then brought to the form a
    walk can compute: a base, plus one row of offsets per output dimension. */
module Meaning {
  import opened Words
  import opened Radix
  import opened Selecting
  import opened Expanding
  import opened Resolving

  /** The index a group member has at position `k`: always the same for a scalar or
      a list of one, entry `k` for a longer list. */
  ghost function Pick(sel: AxisSel, k: nat): int {
    match sel
    case Point(index) => index
    case Range(start, _, _) => start
    case Indices(list) => if |list| == 1 then list[0] else if k < |list| then list[k] else 0
  }

  /** The source index one entry names: `own` indexes the output dimension it
      has to itself, if it has one, and `k` the group's dimension. */
  ghost function EntrySource(e: Entry, own: seq<nat>, k: nat): seq<int>
    requires |own| == |OwnDims(e)|
  {
    match e
    case New => []
    case Axis(sel, true) => [Pick(sel, k)]
    case Axis(Point(index), false) => [index]
    case Axis(Range(start, _, step), false) => [start + own[0] * step]
    case Axis(Indices(list), false) => [Pick(e.sel, own[0])]
  }

  /** The source multi-index behind an output position: `rest` indexes the
      dimensions outside the group, `k` the group's own dimension. */
  ghost function Source(entries: seq<Entry>, rest: seq<nat>, k: nat): seq<int>
    requires |rest| == |Rest(entries)|
  {
    if entries == [] then []
    else
      var init, last := entries[..|entries| - 1], entries[|entries| - 1];
      Source(init, rest[..|Rest(init)|], k) + EntrySource(last, rest[|Rest(init)|..], k)
  }

  /** The source multi-index behind output multi-index `out`. */
  ghost function SourceIndex(entries: seq<Entry>, out: seq<nat>): seq<int>
    requires |out| == |OutShape(entries, 1)|
  {
    if GroupPositions(entries) == [] then Source(entries, out, 0)
    else
      var g := GroupAt(entries);
      Source(entries, out[..g] + out[g + 1..], out[g])
  }

  /** The C-order number of a source index. */
  ghost function Flat(idx: seq<int>, shape: seq<nat>): int
    requires |idx| == |shape|
  {
    if shape == [] then 0
    else Flat(idx[..|idx| - 1], shape[..|shape| - 1]) * shape[|shape| - 1] + idx[|idx| - 1]
  }

  /** Every entry names positions that exist on the axis it is about. */
  ghost predicate Fitting(entries: seq<Entry>, shape: seq<nat>) {
    && |Axes(entries)| <= |shape|
    && (entries != [] ==>
          var init, last := entries[..|entries| - 1], entries[|entries| - 1];
          && Fitting(init, shape)
          && (last.Axis? ==>
                && last.sel.OnAxis(shape[|Axes(init)|])
                && (last.sel.Indices? ==> last.advanced)
                && (last.sel.Range? ==> !last.advanced)))
  }

  lemma {:induction false} SourceLength(entries: seq<Entry>, rest: seq<nat>, k: nat)
    requires |rest| == |Rest(entries)|
    ensures |Source(entries, rest, k)| == |Axes(entries)|
    decreases |entries|
  {
    if entries != [] {
      var init := entries[..|entries| - 1];
      SourceLength(init, rest[..|Rest(init)|], k);
    }
  }

  lemma {:induction false} EntriesFit(shape: seq<nat>, keys: seq<Key>, hasArray: bool)
    requires AxesConsumed(keys) <= |shape|
    requires forall p :: 0 <= p < |keys| && keys[p].Named? && keys[p].index.Fancy? ==> hasArray
    ensures var r := Entries(shape, keys, hasArray);
      r.Ok? ==> Fitting(r.value, shape) && |Axes(r.value)| == AxesConsumed(keys)
    decreases |keys|
  {
    if keys != [] {
      var init, last := keys[..|keys| - 1], keys[|keys| - 1];
      EntriesFit(shape, init, hasArray);
      var r := Entries(shape, keys, hasArray);
      if r.Ok? {
        assert r.value[..|keys| - 1] == Entries(shape, init, hasArray).value;
        var entry := r.value[|keys| - 1];
        if entry.Axis? {
          EntryFits(shape, last, AxesConsumed(init), hasArray);
        }
      }
    }
  }

  lemma EntryFits(shape: seq<nat>, key: Key, axis: nat, hasArray: bool)
    requires axis < |shape| && EntryOf(shape, key, axis, hasArray).Ok?
    requires key.Named? && key.index.Fancy? ==> hasArray
    ensures var e := EntryOf(shape, key, axis, hasArray).value;
      e.Axis? ==> e.sel.OnAxis(shape[axis]) && (e.sel.Indices? ==> e.advanced) && (e.sel.Range? ==> !e.advanced)
  {
    if key.Named? && key.index.Slice? {
      SliceSelects(key.index.start, key.index.stop, key.index.step, shape[axis]);
    } else if key.Whole? && shape[axis] > 0 {
      assert (shape[axis] - 1) * 1 == shape[axis] - 1;
    }
  }

  lemma {:induction false} SpelledArrays(indices: seq<Index>, implied: nat)
    ensures forall key :: key in SpelledOut(indices, implied) && key.Named? ==> key.index in indices
    decreases |indices|
  {
    if indices != [] {
      SpelledArrays(indices[..|indices| - 1], implied);
    }
  }

  /** Everything a resolved key names is in the array, one entry per axis. */
  lemma ExpansionFits(shape: seq<nat>, indices: seq<Index>)
    ensures var r := Expansion(shape, indices);
      r.Ok? ==> Fitting(r.value, shape) && |Axes(r.value)| == |shape|
  {
    var r := Expansion(shape, indices);
    if r.Ok? {
      var implied := |shape| - Consuming(indices);
      SpelledConsumes(indices, implied);
      SpelledArrays(indices, implied);
      EntriesFit(shape, Spelled(indices, implied), HasArray(indices));
    }
  }

  /** Source elements per step along `axis`, in C order. */
  ghost function StrideOf(shape: seq<nat>, axis: nat): nat {
    if axis < |shape| then Product(shape[axis + 1..]) else 1
  }

  ghost function Dot(idx: seq<int>, shape: seq<nat>): int
    requires |idx| <= |shape|
  {
    if idx == [] then 0
    else Dot(idx[..|idx| - 1], shape) + idx[|idx| - 1] * StrideOf(shape, |idx| - 1)
  }

  lemma {:induction false} FlatDotPrefix(idx: seq<int>, shape: seq<nat>, i: nat)
    requires i <= |idx| == |shape|
    ensures Dot(idx[..i], shape) == Flat(idx[..i], shape[..i]) * Product(shape[i..])
    decreases i
  {
    if i > 0 {
      FlatDotPrefix(idx, shape, i - 1);
      assert idx[..i][..i - 1] == idx[..i - 1] && shape[..i][..i - 1] == shape[..i - 1];
      ProductHead(shape, i - 1);
      HornerStep(Flat(idx[..i - 1], shape[..i - 1]), shape[i - 1], idx[i - 1], Product(shape[i..]));
    }
  }

  lemma HornerStep(f: int, d: nat, x: int, p: nat)
    ensures f * (d * p) + x * p == (f * d + x) * p
  {
    assert f * (d * p) == (f * d) * p;
  }

  lemma ProductHead(shape: seq<nat>, i: nat)
    requires i < |shape|
    ensures Product(shape[i..]) == shape[i] * Product(shape[i + 1..])
  {
    assert shape[i..] == [shape[i]] + shape[i + 1..];
    ProductSplit([shape[i]], shape[i + 1..]);
    assert [shape[i]][..0] == [];
  }

  lemma FlatDot(idx: seq<int>, shape: seq<nat>)
    requires |idx| == |shape|
    ensures Flat(idx, shape) == Dot(idx, shape)
  {
    FlatDotPrefix(idx, shape, |shape|);
    assert idx[..|shape|] == idx && shape[..|shape|] == shape && shape[|shape|..] == [];
  }

  /** A row of offsets per output dimension. */
  type Rows = seq<seq<int>>

  ghost function RowAt(row: seq<int>, k: nat): int {
    if k < |row| then row[k] else 0
  }

  ghost function SumRows(rows: Rows, idx: seq<nat>): int
    requires |rows| == |idx|
  {
    if rows == [] then 0
    else SumRows(rows[..|rows| - 1], idx[..|idx| - 1]) + RowAt(rows[|rows| - 1], idx[|idx| - 1])
  }

  ghost function Widths(rows: Rows): seq<nat> {
    if rows == [] then [] else Widths(rows[..|rows| - 1]) + [|rows[|rows| - 1]|]
  }

  ghost function RangeRow(len: nat, step: int): seq<int> {
    seq(len, i => i * step)
  }

  ghost function EntryRows(e: Entry, stride: nat): Rows {
    match e
    case New => [[0]]
    case Axis(sel, advanced) =>
      if advanced || sel.Point? then []
      else if sel.Range? then [RangeRow(sel.len, sel.step * stride)]
      else [seq(|sel.list|, k requires k >= 0 => Pick(sel, k) * stride)]
  }

  ghost function EntryBase(e: Entry, stride: nat): int {
    match e
    case New => 0
    case Axis(sel, advanced) => if advanced || sel.Indices? then 0 else Pick(sel, 0) * stride
  }

  ghost function EntryTerm(e: Entry, stride: nat, k: nat): int {
    if Joins(e) then Pick(e.sel, k) * stride else 0
  }

  /** The dimensions outside the group, as rows of offsets. */
  ghost function RestRows(entries: seq<Entry>, shape: seq<nat>): Rows {
    if entries == [] then []
    else
      var init := entries[..|entries| - 1];
      RestRows(init, shape) + EntryRows(entries[|entries| - 1], StrideOf(shape, |Axes(init)|))
  }

  /** What the axes outside the group add at their first position. */
  ghost function RestBase(entries: seq<Entry>, shape: seq<nat>): int {
    if entries == [] then 0
    else
      var init := entries[..|entries| - 1];
      RestBase(init, shape) + EntryBase(entries[|entries| - 1], StrideOf(shape, |Axes(init)|))
  }

  /** What the group adds at its position `k`. */
  ghost function GroupTerm(entries: seq<Entry>, shape: seq<nat>, k: nat): int {
    if entries == [] then 0
    else
      var init := entries[..|entries| - 1];
      GroupTerm(init, shape, k) + EntryTerm(entries[|entries| - 1], StrideOf(shape, |Axes(init)|), k)
  }

  lemma {:induction false} WidthsConcat(a: Rows, b: Rows)
    ensures Widths(a + b) == Widths(a) + Widths(b)
    decreases |b|
  {
    if b == [] {
      assert a + b == a;
    } else {
      WidthsConcat(a, b[..|b| - 1]);
      assert (a + b)[..|a + b| - 1] == a + b[..|b| - 1];
    }
  }

  lemma {:induction false} SumRowsConcat(a: Rows, b: Rows, i: seq<nat>, j: seq<nat>)
    requires |a| == |i| && |b| == |j|
    ensures SumRows(a + b, i + j) == SumRows(a, i) + SumRows(b, j)
    decreases |b|
  {
    if b == [] {
      assert a + b == a && i + j == i;
    } else {
      SumRowsConcat(a, b[..|b| - 1], i, j[..|j| - 1]);
      assert (a + b)[..|a + b| - 1] == a + b[..|b| - 1];
      assert (i + j)[..|i + j| - 1] == i + j[..|j| - 1];
    }
  }

  lemma {:induction false} RestWidths(entries: seq<Entry>, shape: seq<nat>)
    ensures Widths(RestRows(entries, shape)) == Rest(entries)
    ensures |RestRows(entries, shape)| == |Rest(entries)|
    decreases |entries|
  {
    if entries != [] {
      hide EntryRows, StrideOf, OwnDims, Axes, Widths;
      var init, last := entries[..|entries| - 1], entries[|entries| - 1];
      RestWidths(init, shape);
      WidthsConcat(RestRows(init, shape), EntryRows(last, StrideOf(shape, |Axes(init)|)));
      EntryWidths(last, StrideOf(shape, |Axes(init)|));
    } else {
      assert Widths([]) == [];
    }
  }

  lemma EntryWidths(e: Entry, stride: nat)
    ensures Widths(EntryRows(e, stride)) == OwnDims(e) && |EntryRows(e, stride)| == |OwnDims(e)|
  {
    if EntryRows(e, stride) != [] {
      assert EntryRows(e, stride)[..0] == [];
    }
  }

  ghost function Scaled(source: seq<int>, stride: nat): int {
    if source == [] then 0 else source[0] * stride
  }

  /** One entry's index, times its stride, is what its parts add. */
  lemma EntryDot(e: Entry, stride: nat, own: seq<nat>, k: nat)
    requires Inside(own, OwnDims(e))
    requires e.Axis? && e.sel.Indices? ==> e.advanced
    ensures |EntryRows(e, stride)| == |own| && |EntrySource(e, own, k)| <= 1
    ensures Scaled(EntrySource(e, own, k), stride)
         == EntryBase(e, stride) + SumRows(EntryRows(e, stride), own) + EntryTerm(e, stride, k)
  {
    if own != [] {
      SumOneRow(EntryRows(e, stride)[0], own[0]);
      assert own == [own[0]] && EntryRows(e, stride) == [EntryRows(e, stride)[0]];
      if e.Axis? {
        RangeTerm(e.sel.start, own[0], e.sel.step, stride);
      }
    }
  }

  lemma SumOneRow(row: seq<int>, i: nat)
    ensures SumRows([row], [i]) == RowAt(row, i)
  {
    assert [row][..0] == [] && [i][..0] == [];
  }

  lemma RangeTerm(start: int, i: nat, step: int, stride: nat)
    ensures (start + i * step) * stride == start * stride + i * (step * stride)
  {
    assert (i * step) * stride == i * (step * stride);
  }

  ghost function Summed(entries: seq<Entry>, shape: seq<nat>, rest: seq<nat>, k: nat): int
    requires |RestRows(entries, shape)| == |rest|
  {
    RestBase(entries, shape) + SumRows(RestRows(entries, shape), rest) + GroupTerm(entries, shape, k)
  }

  /** The multi-index rule as a sum: a base, a row per dimension, the group. */
  lemma {:induction false} SourceDot(entries: seq<Entry>, shape: seq<nat>, rest: seq<nat>, k: nat)
    requires Fitting(entries, shape) && Inside(rest, Rest(entries))
    ensures |RestRows(entries, shape)| == |rest| && |Source(entries, rest, k)| == |Axes(entries)|
    ensures Dot(Source(entries, rest, k), shape) == Summed(entries, shape, rest, k)
    decreases |entries|
  {
    RestWidths(entries, shape);
    SourceLength(entries, rest, k);
    if entries != [] {
      var init, last := entries[..|entries| - 1], entries[|entries| - 1];
      OwnInside(init, last, entries, rest);
      var before, own := rest[..|Rest(init)|], rest[|Rest(init)|..];
      assert Fitting(init, shape);
      assert last.Axis? ==> |Axes(init)| < |shape| && (last.sel.Indices? ==> last.advanced);
      hide Source, RestRows, Dot, Summed, Fitting, Rest, OwnDims, Inside;
      SourceDot(init, shape, before, k);
      SourceDotStep(init, last, shape, before, own, k);
    }
  }

  lemma SourceDotStep(init: seq<Entry>, last: Entry, shape: seq<nat>, before: seq<nat>, own: seq<nat>, k: nat)
    requires |before| == |Rest(init)| == |RestRows(init, shape)| && Inside(own, OwnDims(last))
    requires last.Axis? ==> |Axes(init)| < |shape| && (last.sel.Indices? ==> last.advanced)
    requires |Axes(init)| == |Source(init, before, k)| <= |shape|
    requires Dot(Source(init, before, k), shape) == Summed(init, shape, before, k)
    ensures |before + own| == |Rest(init + [last])| == |RestRows(init + [last], shape)|
    ensures |Source(init + [last], before + own, k)| <= |shape|
    ensures Dot(Source(init + [last], before + own, k), shape) == Summed(init + [last], shape, before + own, k)
  {
    var stride := StrideOf(shape, |Axes(init)|);
    EntryDot(last, stride, own, k);
    Unfold(init, last, shape, before, own, k);
    SumRowsConcat(RestRows(init, shape), EntryRows(last, stride), before, own);
    DotSnoc(Source(init, before, k), EntrySource(last, own, k), shape);
  }

  lemma Unfold(init: seq<Entry>, last: Entry, shape: seq<nat>, before: seq<nat>, own: seq<nat>, k: nat)
    requires |before| == |Rest(init)| && |own| == |OwnDims(last)|
    ensures Rest(init + [last]) == Rest(init) + OwnDims(last)
    ensures Source(init + [last], before + own, k) == Source(init, before, k) + EntrySource(last, own, k)
    ensures var stride := StrideOf(shape, |Axes(init)|);
      && RestRows(init + [last], shape) == RestRows(init, shape) + EntryRows(last, stride)
      && RestBase(init + [last], shape) == RestBase(init, shape) + EntryBase(last, stride)
      && GroupTerm(init + [last], shape, k) == GroupTerm(init, shape, k) + EntryTerm(last, stride, k)
  {
    assert (init + [last])[..|init|] == init;
    assert (before + own)[..|before|] == before && (before + own)[|before|..] == own;
  }

  lemma OwnInside(init: seq<Entry>, last: Entry, entries: seq<Entry>, rest: seq<nat>)
    requires entries != [] && init == entries[..|entries| - 1] && last == entries[|entries| - 1]
    requires Inside(rest, Rest(entries))
    ensures entries == init + [last] && |Rest(init)| <= |rest|
    ensures Inside(rest[..|Rest(init)|], Rest(init)) && Inside(rest[|Rest(init)|..], OwnDims(last))
    ensures rest == rest[..|Rest(init)|] + rest[|Rest(init)|..]
  {
    hide Rest, OwnDims, Inside;
    RestSnoc(entries);
    InsideSplit(rest, Rest(init), OwnDims(last));
  }

  lemma RestSnoc(entries: seq<Entry>)
    requires entries != []
    ensures Rest(entries) == Rest(entries[..|entries| - 1]) + OwnDims(entries[|entries| - 1])
  {
  }

  lemma DotSnoc(a: seq<int>, b: seq<int>, shape: seq<nat>)
    requires |a| + |b| <= |shape| && |b| <= 1
    ensures Dot(a + b, shape) == Dot(a, shape) + Scaled(b, StrideOf(shape, |a|))
  {
    if b == [] {
      assert a + b == a;
    } else {
      assert (a + b)[..|a|] == a;
    }
  }
}
