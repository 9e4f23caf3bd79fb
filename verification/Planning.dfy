/** Building the walk of a gathered selection, as `Gathered::new` does. */
module Planning {
  import opened Words
  import opened Radix
  import opened Selecting
  import opened Resolving
  import opened Meaning
  import opened Walks
  import opened Gathering

  ghost function DimRow(d: Dim): seq<int> {
    seq(d.Len(), k requires k >= 0 => d.Shift(k))
  }

  ghost function DimRows(dims: seq<Dim>): Rows {
    if dims == [] then [] else DimRows(dims[..|dims| - 1]) + [DimRow(dims[|dims| - 1])]
  }

  lemma {:induction false} DimWidths(dims: seq<Dim>)
    ensures Widths(DimRows(dims)) == Lens(dims) && |DimRows(dims)| == |dims|
  {
    if dims != [] {
      var init, last := dims[..|dims| - 1], dims[|dims| - 1];
      DimWidths(init);
      WidthsSnoc(DimRows(init), DimRow(last));
      assert Lens(dims) == Lens(init) + [last.Len()];
    }
  }

  lemma {:induction false} DimSums(dims: seq<Dim>, idx: seq<nat>)
    requires Inside(idx, Lens(dims)) && |DimRows(dims)| == |dims|
    ensures Sum(dims, idx) == SumRows(DimRows(dims), idx)
  {
    if dims != [] {
      hide Inside, SumRows, DimRow, Lens;
      var init, last := dims[..|dims| - 1], dims[|dims| - 1];
      var i, k := idx[..|idx| - 1], idx[|idx| - 1];
      DimWidths(init);
      DimsInside(dims, idx);
      DimSums(init, i);
      SumRowsSnoc(DimRows(init), DimRow(last), i, k);
      assert idx == i + [k];
    }
  }

  lemma DimsInside(dims: seq<Dim>, idx: seq<nat>)
    requires dims != [] && Inside(idx, Lens(dims))
    ensures |idx| == |dims| && Inside(idx[..|idx| - 1], Lens(dims[..|dims| - 1]))
    ensures RowAt(DimRow(dims[|dims| - 1]), idx[|idx| - 1]) == dims[|dims| - 1].Shift(idx[|idx| - 1])
  {
    assert Lens(dims)[|dims| - 1] == dims[|dims| - 1].Len();
  }

  /** The walk of a gathered selection, seen as rows of offsets. */
  lemma AtIsWalk(g: Gathered, n: nat)
    requires Positive(Lens(g.dims)) && n < Product(Lens(g.dims))
    ensures Widths(DimRows(g.dims)) == Lens(g.dims)
    ensures At(g, n) == g.base + Walk(DimRows(g.dims), n)
  {
    DimWidths(g.dims);
    RavelUnravel(n, Lens(g.dims));
    DimSums(g.dims, Unravel(n, Lens(g.dims)));
  }

  /** What a group member that never moves adds to the base. */
  ghost function PartConst(sel: AxisSel, stride: nat): int {
    if sel.Indices? && |sel.list| != 1 then 0 else Pick(sel, 0) * stride
  }

  ghost function PartVar(sel: AxisSel, stride: nat, k: nat): int {
    if sel.Indices? && |sel.list| != 1 then Pick(sel, k) * stride else 0
  }

  /** An index array of the group has one index per position of the group, or one. */
  ghost predicate InStep(sel: AxisSel, len: nat) {
    sel.Indices? ==> |sel.list| == 1 || |sel.list| == len
  }

  ghost predicate Members(axes: seq<AxisSel>, gs: seq<nat>) {
    forall i :: 0 <= i < |gs| ==> gs[i] < |axes| && !axes[gs[i]].Range?
  }

  ghost function GroupConst(axes: seq<AxisSel>, gs: seq<nat>, shape: seq<nat>): int
    requires Members(axes, gs)
  {
    if gs == [] then 0
    else
      var a := gs[|gs| - 1];
      GroupConst(axes, gs[..|gs| - 1], shape) + PartConst(axes[a], StrideOf(shape, a))
  }

  ghost function GroupVar(axes: seq<AxisSel>, gs: seq<nat>, shape: seq<nat>, k: nat): int
    requires Members(axes, gs)
  {
    if gs == [] then 0
    else
      var a := gs[|gs| - 1];
      GroupVar(axes, gs[..|gs| - 1], shape, k) + PartVar(axes[a], StrideOf(shape, a), k)
  }

  lemma GroupSnoc(axes: seq<AxisSel>, gs: seq<nat>, a: nat, shape: seq<nat>, k: nat)
    requires Members(axes, gs) && a < |axes| && !axes[a].Range?
    ensures Members(axes, gs + [a])
    ensures GroupConst(axes, gs + [a], shape) == GroupConst(axes, gs, shape) + PartConst(axes[a], StrideOf(shape, a))
    ensures GroupVar(axes, gs + [a], shape, k) == GroupVar(axes, gs, shape, k) + PartVar(axes[a], StrideOf(shape, a), k)
  {
    assert (gs + [a])[..|gs|] == gs;
  }

  lemma GroupNone(axes: seq<AxisSel>, shape: seq<nat>)
    ensures GroupConst(axes, [], shape) == 0
    ensures forall k :: GroupVar(axes, [], shape, k) == 0
  {
  }

  lemma GroupSnocAll(axes: seq<AxisSel>, gs: seq<nat>, a: nat, shape: seq<nat>)
    requires Members(axes, gs) && a < |axes| && !axes[a].Range?
    ensures Members(axes, gs + [a])
    ensures GroupConst(axes, gs + [a], shape) == GroupConst(axes, gs, shape) + PartConst(axes[a], StrideOf(shape, a))
    ensures forall k: nat {:trigger GroupVar(axes, gs + [a], shape, k)} ::
      GroupVar(axes, gs + [a], shape, k) == GroupVar(axes, gs, shape, k) + PartVar(axes[a], StrideOf(shape, a), k)
  {
    forall k: nat
      ensures GroupVar(axes, gs + [a], shape, k)
        == GroupVar(axes, gs, shape, k) + PartVar(axes[a], StrideOf(shape, a), k)
    {
      GroupSnoc(axes, gs, a, shape, k);
    }
    GroupSnoc(axes, gs, a, shape, 0);
  }

  lemma PartSplit(sel: AxisSel, stride: nat, k: nat)
    requires !sel.Range?
    ensures PartConst(sel, stride) + PartVar(sel, stride, k) == Pick(sel, k) * stride
  {
  }

  lemma {:induction false} GroupSplit(entries: seq<Entry>, axes: seq<AxisSel>, shape: seq<nat>, k: nat)
    requires Fitting(entries, shape) && Axes(entries) <= axes
    ensures Members(axes, GroupAxes(entries))
    ensures GroupTerm(entries, shape, k)
         == GroupConst(axes, GroupAxes(entries), shape) + GroupVar(axes, GroupAxes(entries), shape, k)
    decreases |entries|
  {
    if entries != [] {
      var init, last := entries[..|entries| - 1], entries[|entries| - 1];
      assert Axes(init) <= Axes(entries);
      assert Joins(last) ==> Axes(entries)[|Axes(init)|] == last.sel && !last.sel.Range?;
      assert GroupAxes(entries) == if Joins(last) then GroupAxes(init) + [|Axes(init)|] else GroupAxes(init);
      assert GroupTerm(entries, shape, k)
          == GroupTerm(init, shape, k) + if Joins(last) then Pick(last.sel, k) * StrideOf(shape, |Axes(init)|) else 0;
      GroupSplit(init, axes, shape, k);
      hide GroupAxes, GroupTerm, GroupConst, GroupVar, PartConst, PartVar, StrideOf, Fitting;
      if Joins(last) {
        GroupSnoc(axes, GroupAxes(init), |Axes(init)|, shape, k);
        PartSplit(last.sel, StrideOf(shape, |Axes(init)|), k);
      }
    }
  }

  /** A member of the group is in its list of axes. */
  lemma {:induction false} GroupContains(entries: seq<Entry>, p: nat)
    requires p < |entries| && entries[p].Axis?
    ensures |Axes(entries[..p])| < |Axes(entries)| && Axes(entries)[|Axes(entries[..p])|] == entries[p].sel
    ensures |Axes(entries[..p])| in GroupAxes(entries) <==> Joins(entries[p])
    decreases |entries|
  {
    var n := |entries| - 1;
    GroupBounded(entries[..n]);
    if p < n {
      GroupContains(entries[..n], p);
      assert entries[..n][..p] == entries[..p];
    }
  }

  lemma {:induction false} GroupBounded(entries: seq<Entry>)
    ensures forall a :: a in GroupAxes(entries) ==> a < |Axes(entries)|
  {
    if entries != [] {
      GroupBounded(entries[..|entries| - 1]);
    }
  }

  /** Past the new axes, the entry the next source axis comes from. */
  lemma {:induction false} NextAxis(entries: seq<Entry>, shape: seq<nat>, p0: nat) returns (p: nat)
    requires p0 <= |entries| && |Axes(entries[..p0])| < |Axes(entries)|
    ensures p0 <= p < |entries| && entries[p].Axis?
    ensures Axes(entries[..p]) == Axes(entries[..p0])
    ensures RestBase(entries[..p], shape) == RestBase(entries[..p0], shape)
    ensures Squeeze(RestRows(entries[..p], shape)) == Squeeze(RestRows(entries[..p0], shape))
    ensures GroupPositions(entries[..p]) == GroupPositions(entries[..p0])
    decreases |entries| - p0
  {
    assert entries[..|entries|] == entries;
    if entries[p0].Axis? {
      p := p0;
    } else {
      SkipNew(entries, shape, p0);
      p := NextAxis(entries, shape, p0 + 1);
    }
  }

  lemma SkipNew(entries: seq<Entry>, shape: seq<nat>, p: nat)
    requires p < |entries| && entries[p].New?
    ensures Axes(entries[..p + 1]) == Axes(entries[..p])
    ensures RestBase(entries[..p + 1], shape) == RestBase(entries[..p], shape)
    ensures Squeeze(RestRows(entries[..p + 1], shape)) == Squeeze(RestRows(entries[..p], shape))
    ensures GroupPositions(entries[..p + 1]) == GroupPositions(entries[..p])
  {
    assert entries[..p + 1][..p] == entries[..p];
    SqueezeSnoc(RestRows(entries[..p], shape), [0]);
  }

  lemma {:induction false} SkipRest(entries: seq<Entry>, shape: seq<nat>, p: nat)
    requires p <= |entries| && |Axes(entries[..p])| == |Axes(entries)|
    ensures RestBase(entries[..p], shape) == RestBase(entries, shape)
    ensures Squeeze(RestRows(entries[..p], shape)) == Squeeze(RestRows(entries, shape))
    ensures GroupPositions(entries[..p]) == GroupPositions(entries)
    decreases |entries| - p
  {
    if p == |entries| {
      assert entries[..p] == entries;
    } else {
      AxesGrow(entries, p + 1);
      assert entries[..p + 1][..p] == entries[..p];
      SkipNew(entries, shape, p);
      SkipRest(entries, shape, p + 1);
    }
  }

  lemma {:induction false} AxesGrow(entries: seq<Entry>, p: nat)
    requires p <= |entries|
    ensures |Axes(entries[..p])| <= |Axes(entries)|
    ensures GroupPositions(entries[..p]) <= GroupPositions(entries)
    decreases |entries| - p
  {
    if p == |entries| {
      assert entries[..p] == entries;
    } else {
      assert entries[..p + 1][..p] == entries[..p];
      AxesGrow(entries, p + 1);
    }
  }

  /** What the checked arithmetic of the plan accepts. */
  ghost predicate Addressable(shape: seq<nat>, axes: seq<AxisSel>, group: seq<nat>) {
    && (forall a :: 0 <= a < |shape| ==> StrideOf(shape, a) < U64)
    && forall a :: 0 <= a < |axes| && a !in group ==> AxisAddressable(shape, axes, a)
  }

  ghost predicate AxisAddressable(shape: seq<nat>, axes: seq<AxisSel>, a: nat)
    requires a < |axes|
  {
    StepAddressable(axes[a], StrideOf(shape, a))
  }

  /** A step in source elements is kept as an i64. */
  predicate StepAddressable(sel: AxisSel, stride: nat) {
    sel.Range? && sel.len > 1 ==> stride <= I64_MAX && I64_MIN <= stride * sel.step <= I64_MAX
  }

  lemma StrideAbove(shape: seq<nat>, a: nat)
    requires a + 1 < |shape|
    ensures StrideOf(shape, a) == StrideOf(shape, a + 1) * shape[a + 1]
  {
    ProductHead(shape, a + 1);
  }

  /** Every axis's stride, or the refusal of one that a word cannot hold. */
  method Strides(shape: seq<nat>) returns (r: Result<seq<nat>, Error>)
    ensures r.Ok? <==> forall a :: 0 <= a < |shape| ==> StrideOf(shape, a) < U64
    ensures r.Ok? ==> |r.value| == |shape| && forall a :: 0 <= a < |shape| ==> r.value[a] == StrideOf(shape, a)
    ensures r.Err? ==> r.error == TooLarge
  {
    var strides := seq(|shape|, _ => 1);
    if |shape| > 0 {
      assert StrideOf(shape, |shape| - 1) == 1 by { assert shape[|shape|..] == []; }
      var axis := |shape| - 1;
      while axis > 0
        invariant 0 <= axis < |shape| == |strides|
        invariant forall a :: axis <= a < |shape| ==> strides[a] == StrideOf(shape, a) < U64
      {
        axis := axis - 1;
        StrideAbove(shape, axis);
        var stride := strides[axis + 1] * shape[axis + 1];
        if stride >= U64 {
          return Err(TooLarge);
        }
        strides := strides[axis := stride];
      }
    }
    r := Ok(strides);
  }

  /** The walk planned from the entries before `p`. */
  ghost predicate Planned(entries: seq<Entry>, shape: seq<nat>, p: nat, base: int, dims: seq<Dim>, groupAt: Option<nat>)
    requires p <= |entries|
  {
    && base == RestBase(entries[..p], shape)
    && DimRows(dims) == Squeeze(RestRows(entries[..p], shape))
    && (if GroupPositions(entries[..p]) == [] then groupAt == None
        else groupAt == Some(GroupDim(entries, shape)))
  }

  /** Where among the walked dimensions the group's first member came. */
  ghost function GroupDim(entries: seq<Entry>, shape: seq<nat>): nat {
    var ps := GroupPositions(entries);
    GroupMembers(entries);
    if ps == [] then 0 else |Squeeze(RestRows(entries[..ps[0]], shape))|
  }

  lemma PlanGroup(entries: seq<Entry>, shape: seq<nat>, p: nat, base: int, dims: seq<Dim>, groupAt: Option<nat>)
    requires p < |entries| && Joins(entries[p]) && Planned(entries, shape, p, base, dims, groupAt)
    requires |DimRows(dims)| == |dims|
    ensures Planned(entries, shape, p + 1, base, dims, if groupAt.None? then Some(|dims|) else groupAt)
  {
    assert entries[..p + 1][..p] == entries[..p];
    AxesGrow(entries, p + 1);
    assert GroupPositions(entries[..p + 1]) == GroupPositions(entries[..p]) + [p];
    assert GroupPositions(entries[..p + 1])[0] == GroupPositions(entries)[0];
    assert RestRows(entries[..p + 1], shape) == RestRows(entries[..p], shape);
  }

  lemma PlanPoint(entries: seq<Entry>, shape: seq<nat>, p: nat, base: int, dims: seq<Dim>, groupAt: Option<nat>)
    requires p < |entries| && entries[p].Axis? && !entries[p].advanced && entries[p].sel.Point?
    requires Planned(entries, shape, p, base, dims, groupAt)
    ensures Planned(entries, shape, p + 1,
      base + entries[p].sel.index * StrideOf(shape, |Axes(entries[..p])|), dims, groupAt)
  {
    assert entries[..p + 1][..p] == entries[..p];
    assert RestRows(entries[..p + 1], shape) == RestRows(entries[..p], shape);
    assert GroupPositions(entries[..p + 1]) == GroupPositions(entries[..p]);
  }

  lemma PlanRange(entries: seq<Entry>, shape: seq<nat>, p: nat, base: int, dims: seq<Dim>, groupAt: Option<nat>, d: Dim)
    requires p < |entries| && entries[p].Axis? && !entries[p].advanced && entries[p].sel.Range?
    requires Planned(entries, shape, p, base, dims, groupAt)
    requires d.Stride? && d.len == entries[p].sel.len
    requires d.len > 1 ==> d.step == StrideOf(shape, |Axes(entries[..p])|) * entries[p].sel.step
    ensures Planned(entries, shape, p + 1, base + EntryBase(entries[p], StrideOf(shape, |Axes(entries[..p])|)),
                    if d.len > 1 then dims + [d] else dims, groupAt)
  {
    hide RestRows, RestBase, GroupPositions, StrideOf, GroupDim, EntryBase, EntryRows, Axes, Squeeze;
    var e, stride := entries[p], StrideOf(shape, |Axes(entries[..p])|);
    PlanStep(entries, shape, p);
    var rows := RestRows(entries[..p], shape);
    var row := EntryRows(e, stride)[0];
    SqueezeSnoc(rows, row);
    if e.sel.len > 1 {
      RangeIsStride(d, e, stride);
      assert (dims + [d])[..|dims|] == dims;
    }
  }

  lemma PlanStep(entries: seq<Entry>, shape: seq<nat>, p: nat)
    requires p < |entries| && entries[p].Axis? && !entries[p].advanced && entries[p].sel.Range?
    ensures var stride := StrideOf(shape, |Axes(entries[..p])|);
      && |EntryRows(entries[p], stride)| == 1 && |EntryRows(entries[p], stride)[0]| == entries[p].sel.len
      && RestRows(entries[..p + 1], shape) == RestRows(entries[..p], shape) + [EntryRows(entries[p], stride)[0]]
      && RestBase(entries[..p + 1], shape) == RestBase(entries[..p], shape) + EntryBase(entries[p], stride)
      && GroupPositions(entries[..p + 1]) == GroupPositions(entries[..p])
  {
    assert entries[..p + 1][..p] == entries[..p];
  }

  lemma RangeIsStride(d: Dim, e: Entry, stride: nat)
    requires e.Axis? && !e.advanced && e.sel.Range?
    requires d.Stride? && d.len == e.sel.len && d.step == stride * e.sel.step
    ensures EntryRows(e, stride) == [DimRow(d)]
  {
    assert e.sel.step * stride == stride * e.sel.step;
    SameSteps(d, e.sel.step * stride);
  }

  lemma SameSteps(d: Dim, step: int)
    requires d.Stride? && d.step == step
    ensures DimRow(d) == RangeRow(d.len, step)
  {
  }

  /** Add one index array's terms to the group's offsets. */
  method AddOffsets(offsets: seq<nat>, list: seq<nat>, stride: nat, ghost exact: seq<int>) returns (offsets': seq<nat>)
    requires |list| == |offsets| == |exact|
    requires forall k :: 0 <= k < |offsets| ==> offsets[k] == Wrap(exact[k])
    ensures |offsets'| == |offsets|
    ensures forall k :: 0 <= k < |offsets| ==> offsets'[k] == Wrap(exact[k] + list[k] * stride)
  {
    hide Wrap;
    offsets' := offsets;
    for k := 0 to |list|
      invariant |offsets'| == |offsets|
      invariant forall j :: 0 <= j < k ==> offsets'[j] == Wrap(exact[j] + list[j] * stride)
      invariant forall j :: k <= j < |offsets| ==> offsets'[j] == offsets[j]
    {
      Accumulated(exact[k], list[k] * stride);
      offsets' := offsets'[k := Wrap(offsets'[k] + Wrap(list[k] * stride))];
    }
  }

  /** The group's constant, and the offsets of its dimension. */
  method Group(shape: seq<nat>, strides: seq<nat>, axes: seq<AxisSel>, group: Advanced, base: nat)
    returns (base': nat, offsets: seq<nat>)
    requires |axes| == |shape| == |strides| && Members(axes, group.axes)
    requires forall a :: 0 <= a < |shape| ==> strides[a] == StrideOf(shape, a)
    requires forall a :: a in group.axes ==> InStep(axes[a], group.len)
    ensures base' == Wrap(base + GroupConst(axes, group.axes, shape))
    ensures |offsets| == group.len
    ensures forall k :: 0 <= k < group.len ==> offsets[k] == Wrap(GroupVar(axes, group.axes, shape, k))
  {
    hide GroupConst, GroupVar, StrideOf, Wrap;
    GroupNone(axes, shape);
    base', offsets := Wrap(base), seq(group.len, _ => 0);
    WrapZero();
    for j := 0 to |group.axes|
      invariant base' == Wrap(base + GroupConst(axes, group.axes[..j], shape))
      invariant |offsets| == group.len
      invariant forall k :: 0 <= k < group.len ==> offsets[k] == Wrap(GroupVar(axes, group.axes[..j], shape, k))
    {
      var axis := group.axes[j];
      assert group.axes[..j + 1] == group.axes[..j] + [axis];
      GroupSnocAll(axes, group.axes[..j], axis, shape);
      match axes[axis] {
        case Point(index) =>
          Accumulated(base + GroupConst(axes, group.axes[..j], shape), index * strides[axis]);
          base' := Wrap(base' + Wrap(index * strides[axis]));
        case Indices(list) =>
          if |list| == 1 {
            Accumulated(base + GroupConst(axes, group.axes[..j], shape), list[0] * strides[axis]);
            base' := Wrap(base' + Wrap(list[0] * strides[axis]));
          } else {
            ghost var exact := seq(group.len, k requires 0 <= k < group.len =>
              GroupVar(axes, group.axes[..j], shape, k));
            offsets := AddOffsets(offsets, list, strides[axis], exact);
          }
      }
    }
    assert group.axes[..|group.axes|] == group.axes;
  }

  lemma {:induction false} GroupInStep(entries: seq<Entry>, axes: seq<AxisSel>, len: nat)
    requires Axes(entries) <= axes
    requires forall i :: 0 <= i < |GroupLengths(entries)| ==>
      GroupLengths(entries)[i] == 1 || GroupLengths(entries)[i] == len
    ensures forall a :: a in GroupAxes(entries) ==> a < |axes| && InStep(axes[a], len)
    decreases |entries|
  {
    if entries != [] {
      var init, last := entries[..|entries| - 1], entries[|entries| - 1];
      var n := |Axes(init)|;
      assert Axes(init) <= Axes(entries);
      assert forall i :: 0 <= i < |GroupLengths(init)| ==> GroupLengths(entries)[i] == GroupLengths(init)[i];
      GroupInStep(init, axes, len);
      if Joins(last) {
        assert Axes(entries)[n] == last.sel;
        if last.sel.Indices? {
          assert GroupLengths(entries)[|GroupLengths(init)|] == |last.sel.list|;
        }
      }
    }
  }

  lemma {:induction false} RestRowsPrefix(entries: seq<Entry>, shape: seq<nat>, p: nat)
    requires p <= |entries|
    ensures RestRows(entries[..p], shape) <= RestRows(entries, shape)
    decreases |entries| - p
  {
    if p == |entries| {
      assert entries[..p] == entries;
    } else {
      assert entries[..p + 1][..p] == entries[..p];
      RestRowsPrefix(entries, shape, p + 1);
    }
  }

  /** Squeezing after the group's row went in is inserting it after squeezing. */
  lemma SqueezeInsert(rows: Rows, g: nat, row: seq<int>)
    requires g <= |rows|
    ensures |Squeeze(rows[..g])| <= |Squeeze(rows)|
    ensures Squeeze(Insert(rows, g, row))
         == if |row| > 1 then Insert(Squeeze(rows), |Squeeze(rows[..g])|, row) else Squeeze(rows)
  {
    assert rows == rows[..g] + rows[g..];
    SqueezeConcat(rows[..g], rows[g..]);
    SqueezeConcat(rows[..g] + [row], rows[g..]);
    SqueezeSnoc(rows[..g], row);
  }

  lemma GroupInserted(entries: seq<Entry>, shape: seq<nat>, len: nat, c: int)
    requires GroupPositions(entries) != []
    ensures var at := if Adjacent(GroupPositions(entries)) then GroupDim(entries, shape) else 0;
      var rows := Squeeze(RestRows(entries, shape));
      && at <= |rows|
      && Squeeze(OutRows(entries, shape, len, c))
         == if len > 1 then Insert(rows, at, GroupRow(entries, shape, len, c)) else rows
  {
    var ps := GroupPositions(entries);
    var rows := RestRows(entries, shape);
    GroupMembers(entries);
    RestWidths(entries, shape);
    RestWidths(entries[..ps[0]], shape);
    RestRowsPrefix(entries, shape, ps[0]);
    var g := GroupAt(entries);
    assert rows[..g] == if Adjacent(ps) then RestRows(entries[..ps[0]], shape) else [];
    SqueezeInsert(rows, g, GroupRow(entries, shape, len, c));
  }

  lemma {:induction false} DimRowsConcat(a: seq<Dim>, b: seq<Dim>)
    ensures DimRows(a + b) == DimRows(a) + DimRows(b)
    decreases |b|
  {
    if b == [] {
      assert a + b == a;
    } else {
      DimRowsConcat(a, b[..|b| - 1]);
      assert (a + b)[..|a + b| - 1] == a + b[..|b| - 1];
    }
  }

  lemma DimRowsInsert(dims: seq<Dim>, at: nat, d: Dim)
    requires at <= |dims|
    ensures |DimRows(dims)| == |dims|
    ensures DimRows(Insert(dims, at, d)) == Insert(DimRows(dims), at, DimRow(d))
  {
    DimWidths(dims);
    DimWidths(dims[..at]);
    assert dims == dims[..at] + dims[at..];
    DimRowsConcat(dims[..at], dims[at..]);
    DimRowsConcat(dims[..at] + [d], dims[at..]);
    DimRowsConcat(dims[..at], [d]);
    assert DimRows([d]) == [DimRow(d)] by { assert [d][..0] == []; }
  }

  function GroupOf(sel: ResolvedSelection): seq<nat> {
    if sel.advanced.Some? then sel.advanced.value.axes else []
  }

  function GroupLen(sel: ResolvedSelection): nat {
    if sel.advanced.Some? then sel.advanced.value.len else 1
  }

  /** A walk as a u64 holds it: the base and a list's offsets wrap. */
  function Wrapped(g: Gathered): Gathered {
    Gathered(Wrap(g.base), WrappedDims(g.dims))
  }

  function WrappedDims(dims: seq<Dim>): (wrapped: seq<Dim>)
    ensures |wrapped| == |dims|
  {
    seq(|dims|, i requires 0 <= i < |dims| => if dims[i].List? then List(WrappedAll(dims[i].offsets)) else dims[i])
  }

  /** The walk is that of the selection, up to what wrapped on the way. */
  ghost predicate PlansWrapped(g: Gathered, entries: seq<Entry>, shape: seq<nat>, len: nat, c: int) {
    exists exact :: Plans(exact, entries, shape, len, c) && g == Wrapped(exact)
  }

  /** The walk a selection's elements are found by. */
  ghost predicate Plans(g: Gathered, entries: seq<Entry>, shape: seq<nat>, len: nat, c: int) {
    && g.base == RestBase(entries, shape) + c
    && DimRows(g.dims) == Squeeze(OutRows(entries, shape, len, c))
    && NeverStill(g.dims, shape)
  }

  /** A walk under construction: where the group came, once it has. */
  datatype Partial = Partial(base: nat, dims: seq<Dim>, groupAt: Option<nat>)

  ghost predicate PartialFor(w: Partial, entries: seq<Entry>, shape: seq<nat>, p: nat)
    requires p <= |entries|
  {
    var base := RestBase(entries[..p], shape);
    && w.base == Wrap(base) && Planned(entries, shape, p, base, w.dims, w.groupAt)
    && NeverStill(w.dims, shape) && Strided(w.dims)
  }

  ghost predicate Strided(dims: seq<Dim>) {
    forall i :: 0 <= i < |dims| ==> dims[i].Stride?
  }

  /** Every walked dimension is longer than 1, and in an array with elements
      every strided one moves. */
  ghost predicate NeverStill(dims: seq<Dim>, shape: seq<nat>) {
    forall i :: 0 <= i < |dims| ==>
      dims[i].Len() > 1 && (Positive(shape) && dims[i].Stride? ==> dims[i].step != 0)
  }

  lemma {:induction false} StridePositive(shape: seq<nat>, a: nat)
    requires Positive(shape)
    ensures StrideOf(shape, a) > 0
  {
    if a < |shape| {
      ProductPositive(shape[a + 1..]);
    }
  }

  lemma AxesStep(entries: seq<Entry>, p: nat)
    requires p < |entries| && entries[p].Axis?
    ensures Axes(entries[..p + 1]) == Axes(entries[..p]) + [entries[p].sel]
  {
    assert entries[..p + 1][..p] == entries[..p];
  }

  lemma NextPartial(w: Partial, entries: seq<Entry>, shape: seq<nat>, p0: nat) returns (p: nat)
    requires p0 <= |entries| && |Axes(entries[..p0])| < |Axes(entries)| && PartialFor(w, entries, shape, p0)
    ensures p < |entries| && entries[p].Axis? && |Axes(entries[..p])| == |Axes(entries[..p0])|
    ensures |Axes(entries[..p + 1])| == |Axes(entries[..p])| + 1
    ensures PartialFor(w, entries, shape, p)
  {
    hide Axes, RestBase, RestRows, Squeeze, GroupPositions;
    p := NextAxis(entries, shape, p0);
    AxesStep(entries, p);
  }

  lemma StartPartial(entries: seq<Entry>, shape: seq<nat>)
    ensures Reached(Partial(0, [], None), entries, shape, 0, 0)
  {
    assert entries[..0] == [];
  }

  lemma LastPartial(w: Partial, entries: seq<Entry>, shape: seq<nat>, p: nat)
    requires p <= |entries| && |Axes(entries[..p])| == |Axes(entries)| && PartialFor(w, entries, shape, p)
    ensures PartialFor(w, entries, shape, |entries|)
  {
    SkipRest(entries, shape, p);
    assert entries[..|entries|] == entries;
  }

  /** Adding a product in a u64. */
  lemma Accumulated(a: int, product: nat)
    ensures Wrap(Wrap(a) + Wrap(product)) == Wrap(a + product)
  {
    WrapAdd(product, Wrap(a));
    WrapAdd(a, product);
  }

  lemma Nonzero(a: int, b: int)
    requires a != 0 && b != 0
    ensures a * b != 0
  {
  }

  lemma IsPartial(w: Partial, entries: seq<Entry>, shape: seq<nat>, p: nat, base: int)
    requires p <= |entries| && Planned(entries, shape, p, base, w.dims, w.groupAt)
    requires w.base == Wrap(base) && NeverStill(w.dims, shape) && Strided(w.dims)
    ensures PartialFor(w, entries, shape, p)
  {
  }

  lemma OneMoreDim(dims: seq<Dim>, d: Dim, shape: seq<nat>, axis: nat, step: int)
    requires NeverStill(dims, shape) && Strided(dims) && d.Stride? && d.len > 1
    requires d.step == StrideOf(shape, axis) * step && step != 0
    ensures NeverStill(dims + [d], shape) && Strided(dims + [d])
  {
    hide StrideOf;
    if Positive(shape) {
      StridePositive(shape, axis);
      Nonzero(StrideOf(shape, axis), step);
    }
  }

  /** One axis's part of the walk. */
  method AddAxis(w: Partial, sel: AxisSel, stride: nat, joins: bool, ghost entries: seq<Entry>, ghost shape: seq<nat>,
      ghost p: nat)
    returns (r: Result<Partial, Error>)
    requires p < |entries| && entries[p].Axis? && PartialFor(w, entries, shape, p)
    requires entries[p].sel == sel && (joins <==> Joins(entries[p])) && (sel.Indices? ==> joins)
    requires stride == StrideOf(shape, |Axes(entries[..p])|) && (sel.Range? ==> sel.step != 0)
    ensures r.Ok? <==> joins || StepAddressable(sel, stride)
    ensures r.Err? ==> r.error == TooLarge
    ensures r.Ok? ==> PartialFor(r.value, entries, shape, p + 1)
  {
    hide RestBase, RestRows, Squeeze, GroupPositions, GroupDim, DimRows, StrideOf, Planned, Axes, Wrap, NeverStill,
        Strided;
    DimWidths(w.dims);
    ghost var base := RestBase(entries[..p], shape);
    if joins {
      PlanGroup(entries, shape, p, base, w.dims, w.groupAt);
      r := Ok(w.(groupAt := if w.groupAt.None? then Some(|w.dims|) else w.groupAt));
      IsPartial(r.value, entries, shape, p + 1, base);
    } else {
      match sel {
        case Point(index) =>
          PlanPoint(entries, shape, p, base, w.dims, w.groupAt);
          Accumulated(base, index * stride);
          r := Ok(w.(base := Wrap(w.base + Wrap(index * stride))));
          IsPartial(r.value, entries, shape, p + 1, base + index * stride);
        case Range(start, len, step) =>
          r := AddRange(w, start, len, step, stride, entries, shape, p);
      }
    }
  }

  method AddRange(w: Partial, start: nat, len: nat, step: i64, stride: nat, ghost entries: seq<Entry>,
                  ghost shape: seq<nat>, ghost p: nat)
    returns (r: Result<Partial, Error>)
    requires p < |entries| && entries[p] == Axis(Range(start, len, step), false) && step != 0
    requires PartialFor(w, entries, shape, p) && stride == StrideOf(shape, |Axes(entries[..p])|)
    ensures r.Ok? <==> StepAddressable(Range(start, len, step), stride)
    ensures r.Err? ==> r.error == TooLarge
    ensures r.Ok? ==> PartialFor(r.value, entries, shape, p + 1)
  {
    hide RestBase, RestRows, Squeeze, GroupPositions, GroupDim, DimRows, StrideOf, Planned, Axes, Wrap, NeverStill,
         Strided;
    ghost var base := RestBase(entries[..p], shape);
    var move := stride * step;
    if len > 1 && (stride > I64_MAX || !(I64_MIN <= move <= I64_MAX)) {
      return Err(TooLarge);
    }
    var d := Dim.Stride(len, if len > 1 then move else 1);
    PlanRange(entries, shape, p, base, w.dims, w.groupAt, d);
    if len > 1 {
      OneMoreDim(w.dims, d, shape, |Axes(entries[..p])|, step);
    }
    Accumulated(base, start * stride);
    r := Ok(Partial(Wrap(w.base + Wrap(start * stride)), if len > 1 then w.dims + [d] else w.dims, w.groupAt));
    IsPartial(r.value, entries, shape, p + 1, base + start * stride);
  }

  /** Where the walk stands once it has taken in the axes before `axis`. */
  ghost predicate Reached(w: Partial, entries: seq<Entry>, shape: seq<nat>, p: nat, axis: nat) {
    p <= |entries| && |Axes(entries[..p])| == axis && PartialFor(w, entries, shape, p)
  }

  /** The entry an axis comes from, and what it says. */
  lemma AxisEntry(w: Partial, entries: seq<Entry>, shape: seq<nat>, p0: nat, axis: nat) returns (p: nat)
    requires Fitting(entries, shape) && axis < |Axes(entries)|
    requires Reached(w, entries, shape, p0, axis)
    ensures p < |entries| && entries[p].Axis? && entries[p].sel == Axes(entries)[axis]
    ensures Joins(entries[p]) <==> axis in GroupAxes(entries)
    ensures entries[p].sel.Indices? ==> Joins(entries[p])
    ensures entries[p].sel.Range? ==> entries[p].sel.step != 0
    ensures |Axes(entries[..p])| == axis && |Axes(entries[..p + 1])| == axis + 1
    ensures PartialFor(w, entries, shape, p)
  {
    hide Axes, GroupAxes, Fitting, PartialFor, StrideOf;
    p := NextPartial(w, entries, shape, p0);
    GroupContains(entries, p);
    FitsAt(entries, shape, p);
  }

  method RestStep(w: Partial, shape: seq<nat>, stride: nat, sel: AxisSel, joins: bool, axis: nat,
                  ghost entries: seq<Entry>, ghost p0: nat)
    returns (r: Result<Partial, Error>, ghost p: nat)
    requires Fitting(entries, shape) && axis < |Axes(entries)| && sel == Axes(entries)[axis]
    requires stride == StrideOf(shape, axis) && (joins <==> axis in GroupAxes(entries))
    requires Reached(w, entries, shape, p0, axis)
    ensures r.Ok? <==> joins || StepAddressable(sel, stride)
    ensures r.Err? ==> r.error == TooLarge
    ensures r.Ok? ==> Reached(r.value, entries, shape, p, axis + 1)
  {
    hide PartialFor, StrideOf, Fitting, StepAddressable, Axes, GroupAxes, Joins;
    p := AxisEntry(w, entries, shape, p0, axis);
    r := AddAxis(w, sel, stride, joins, entries, shape, p);
    p := p + 1;
  }

  /** The dimensions outside the group, walked axis by axis. */
  method RestDims(shape: seq<nat>, strides: seq<nat>, axes: seq<AxisSel>, group: seq<nat>, ghost entries: seq<Entry>)
    returns (r: Result<Partial, Error>)
    requires Fitting(entries, shape) && axes == Axes(entries) && group == GroupAxes(entries)
    requires |axes| == |shape| == |strides|
    requires forall a :: 0 <= a < |shape| ==> strides[a] == StrideOf(shape, a)
    ensures r.Ok? <==> forall a :: 0 <= a < |shape| && a !in group ==> AxisAddressable(shape, axes, a)
    ensures r.Ok? ==> PartialFor(r.value, entries, shape, |entries|)
    ensures r.Err? ==> r.error == TooLarge
  {
    hide Axes, GroupAxes, StrideOf, Fitting, StepAddressable, Reached, PartialFor;
    var w := Partial(0, [], None);
    ghost var p: nat := 0;
    StartPartial(entries, shape);
    for axis := 0 to |shape|
      invariant Reached(w, entries, shape, p, axis)
      invariant forall a :: 0 <= a < axis && a !in group ==> AxisAddressable(shape, axes, a)
    {
      var next;
      next, p := RestStep(w, shape, strides[axis], axes[axis], axis in group, axis, entries, p);
      if next.Err? {
        return Err(next.error);
      }
      w := next.value;
    }
    ReachedAll(w, entries, shape, p);
    r := Ok(w);
  }

  lemma ReachedAll(w: Partial, entries: seq<Entry>, shape: seq<nat>, p: nat)
    requires Reached(w, entries, shape, p, |Axes(entries)|)
    ensures PartialFor(w, entries, shape, |entries|)
  {
    LastPartial(w, entries, shape, p);
  }

  lemma {:induction false} FitsAt(entries: seq<Entry>, shape: seq<nat>, p: nat)
    requires Fitting(entries, shape) && p < |entries| && entries[p].Axis?
    ensures |Axes(entries[..p])| < |shape| && entries[p].sel.OnAxis(shape[|Axes(entries[..p])|])
    ensures entries[p].sel.Indices? ==> entries[p].advanced
    ensures entries[p].sel.Range? ==> !entries[p].advanced
    decreases |entries|
  {
    var n := |entries| - 1;
    if p < n {
      FitsAt(entries[..n], shape, p);
      assert entries[..n][..p] == entries[..p];
    }
  }

  /** Build the walk of a selection, dimension by dimension. */
  method NewGathered(shape: seq<nat>, sel: ResolvedSelection, ghost entries: seq<Entry>)
    returns (r: Result<Gathered, Error>)
    requires Fitting(entries, shape) && Describes(sel, entries) && |sel.axes| == |shape|
    ensures r.Ok? <==> Addressable(shape, sel.axes, GroupOf(sel))
    ensures r.Err? ==> r.error == TooLarge
    ensures Members(sel.axes, GroupOf(sel))
    ensures r.Ok? ==> PlansWrapped(r.value, entries, shape, GroupLen(sel), GroupConst(sel.axes, GroupOf(sel), shape))
  {
    hide StrideOf, RestRows, RestBase, Squeeze, GroupTerm, GroupConst, GroupVar, Fitting, Axes, GroupAxes,
        GroupPositions, GroupLengths, OutShape;
    GroupSplit(entries, sel.axes, shape, 0);
    GroupMembers(entries);
    var strides := Strides(shape);
    if strides.Err? {
      return Err(strides.error);
    }
    var rest := RestDims(shape, strides.value, sel.axes, GroupOf(sel), entries);
    if rest.Err? {
      return Err(rest.error);
    }
    var w := rest.value;
    if sel.advanced.Some? {
      r := AddGroup(shape, strides.value, sel, w, entries);
    } else {
      PlainPlan(w, entries, shape, sel.axes);
      r := Ok(Gathered(w.base, w.dims));
    }
  }

  lemma PlainPlan(w: Partial, entries: seq<Entry>, shape: seq<nat>, axes: seq<AxisSel>)
    requires PartialFor(w, entries, shape, |entries|) && GroupPositions(entries) == []
    ensures PlansWrapped(Gathered(w.base, w.dims), entries, shape, 1, GroupConst(axes, [], shape))
  {
    hide RestRows, RestBase, Squeeze, DimRows, NeverStill, Wrap;
    assert entries[..|entries|] == entries;
    RestBasePositive(entries, shape);
    var exact := Gathered(RestBase(entries, shape), w.dims);
    assert Plans(exact, entries, shape, 1, GroupConst(axes, [], shape));
    StridedWrapped(w.dims);
  }

  /** Strides are i64 already; only a list has offsets to wrap. */
  lemma StridedWrapped(dims: seq<Dim>)
    requires Strided(dims)
    ensures WrappedDims(dims) == dims
  {
  }

  method AddGroup(shape: seq<nat>, strides: seq<nat>, sel: ResolvedSelection, w: Partial, ghost entries: seq<Entry>)
    returns (r: Result<Gathered, Error>)
    requires Fitting(entries, shape) && Describes(sel, entries) && |sel.axes| == |shape| == |strides|
    requires forall a :: 0 <= a < |shape| ==> strides[a] == StrideOf(shape, a)
    requires sel.advanced.Some? && Members(sel.axes, GroupOf(sel)) && GroupPositions(entries) != []
    requires PartialFor(w, entries, shape, |entries|)
    ensures r.Ok? && PlansWrapped(r.value, entries, shape, GroupLen(sel), GroupConst(sel.axes, GroupOf(sel), shape))
  {
    hide StrideOf, RestRows, RestBase, Squeeze, GroupTerm, GroupConst, GroupVar, Fitting, GroupAxes, GroupPositions,
        GroupLengths, OutShape,
         GroupDim, DimRows, OutRows, NeverStill, PartialFor, Plans, PlansWrapped;
    var group := sel.advanced.value;
    GroupInStep(entries, sel.axes, group.len);
    var base', offsets := Group(shape, strides, sel.axes, group, w.base);
    GroupWrapped(w, entries, shape, group.len, offsets, base');
    if group.len > 1 {
      r := Ok(Gathered(base', Insert(w.dims, if group.adjacent then w.groupAt.value else 0, List(offsets))));
    } else {
      r := Ok(Gathered(base', w.dims));
    }
  }

  lemma GroupWrapped(w: Partial, entries: seq<Entry>, shape: seq<nat>, len: nat, offsets: seq<nat>, base: nat)
    requires Fitting(entries, shape) && PartialFor(w, entries, shape, |entries|) && GroupPositions(entries) != []
    requires Members(Axes(entries), GroupAxes(entries)) && |offsets| == len
    requires base == Wrap(w.base + GroupConst(Axes(entries), GroupAxes(entries), shape))
    requires forall k :: 0 <= k < len ==> offsets[k] == Wrap(GroupVar(Axes(entries), GroupAxes(entries), shape, k))
    ensures w.groupAt.Some?
    ensures var at := if Adjacent(GroupPositions(entries)) then w.groupAt.value else 0;
      && at <= |w.dims|
      && PlansWrapped(Gathered(base, if len > 1 then Insert(w.dims, at, List(offsets)) else w.dims),
                      entries, shape, len, GroupConst(Axes(entries), GroupAxes(entries), shape))
  {
    hide StrideOf, RestRows, Squeeze, GroupConst, GroupVar, Fitting, Axes, GroupAxes, GroupPositions, GroupDim, DimRows,
         OutRows, NeverStill, Adjacent, Plans, Wrap, Insert;
    var axes, gs := Axes(entries), GroupAxes(entries);
    var rest, c := RestBase(entries, shape), GroupConst(axes, gs, shape);
    assert entries[..|entries|] == entries;
    RestBasePositive(entries, shape);
    GroupPositive(axes, gs, shape);
    var exact: seq<nat> := seq(len, k requires 0 <= k < len => GroupVar(axes, gs, shape, k));
    GroupPlanned(w, entries, shape, len, exact, rest + c);
    var at := if Adjacent(GroupPositions(entries)) then w.groupAt.value else 0;
    var dims := if len > 1 then Insert(w.dims, at, List(exact)) else w.dims;
    WrapAdd(rest, c);
    assert WrappedAll(exact) == offsets;
    InsertWrapped(w.dims, at, exact);
    StridedWrapped(w.dims);
    assert Plans(Gathered(rest + c, dims), entries, shape, len, c);
  }

  lemma InsertWrapped(dims: seq<Dim>, at: nat, offsets: seq<nat>)
    requires Strided(dims) && at <= |dims|
    ensures WrappedDims(Insert(dims, at, List(offsets))) == Insert(dims, at, List(WrappedAll(offsets)))
  {
  }

  lemma {:induction false} RestBasePositive(entries: seq<Entry>, shape: seq<nat>)
    ensures RestBase(entries, shape) >= 0
    decreases |entries|
  {
    if entries != [] {
      RestBasePositive(entries[..|entries| - 1], shape);
    }
  }

  lemma {:induction false} GroupPositive(axes: seq<AxisSel>, gs: seq<nat>, shape: seq<nat>)
    requires Members(axes, gs)
    ensures GroupConst(axes, gs, shape) >= 0
    ensures forall k: nat :: GroupVar(axes, gs, shape, k) >= 0
    decreases |gs|
  {
    if gs != [] {
      GroupPositive(axes, gs[..|gs| - 1], shape);
    }
  }

  lemma GroupPlanned(w: Partial, entries: seq<Entry>, shape: seq<nat>, len: nat, offsets: seq<nat>, base: nat)
    requires Fitting(entries, shape) && PartialFor(w, entries, shape, |entries|) && GroupPositions(entries) != []
    requires Members(Axes(entries), GroupAxes(entries)) && |offsets| == len
    requires base == RestBase(entries, shape) + GroupConst(Axes(entries), GroupAxes(entries), shape)
    requires forall k :: 0 <= k < len ==> offsets[k] == GroupVar(Axes(entries), GroupAxes(entries), shape, k)
    ensures w.groupAt.Some?
    ensures var at := if Adjacent(GroupPositions(entries)) then w.groupAt.value else 0;
      && at <= |w.dims|
      && Plans(Gathered(base, if len > 1 then Insert(w.dims, at, List(offsets)) else w.dims),
               entries, shape, len, GroupConst(Axes(entries), GroupAxes(entries), shape))
  {
    hide StrideOf, RestRows, RestBase, Squeeze, GroupTerm, GroupConst, GroupVar, Fitting, Axes, GroupAxes,
        GroupPositions, GroupDim, DimRows, OutRows,
         NeverStill, Adjacent;
    var c := GroupConst(Axes(entries), GroupAxes(entries), shape);
    assert entries[..|entries|] == entries;
    GroupInserted(entries, shape, len, c);
    DimWidths(w.dims);
    var at := if Adjacent(GroupPositions(entries)) then w.groupAt.value else 0;
    DimRowsInsert(w.dims, at, List(offsets));
    OffsetsAreRow(entries, shape, Axes(entries), len, offsets);
    if len > 1 {
      InsertNeverStill(w.dims, at, offsets, shape);
    }
  }

  lemma InsertNeverStill(dims: seq<Dim>, at: nat, offsets: seq<nat>, shape: seq<nat>)
    requires NeverStill(dims, shape) && at <= |dims| && |offsets| > 1
    ensures NeverStill(Insert(dims, at, List(offsets)), shape)
  {
    var dims' := Insert(dims, at, List(offsets));
    forall i | 0 <= i < |dims'|
      ensures dims'[i].Len() > 1 && (Positive(shape) && dims'[i].Stride? ==> dims'[i].step != 0)
    {
      if i < at {
        assert dims'[i] == dims[i];
      } else if i > at {
        assert dims'[i] == dims[i - 1];
      }
    }
  }

  lemma OffsetsAreRow(entries: seq<Entry>, shape: seq<nat>, axes: seq<AxisSel>, len: nat, offsets: seq<nat>)
    requires Fitting(entries, shape) && axes == Axes(entries) && Members(axes, GroupAxes(entries))
    requires |offsets| == len
    requires forall k :: 0 <= k < len ==> offsets[k] == GroupVar(axes, GroupAxes(entries), shape, k)
    ensures DimRow(List(offsets)) == GroupRow(entries, shape, len, GroupConst(axes, GroupAxes(entries), shape))
  {
    forall k | 0 <= k < len
      ensures GroupTerm(entries, shape, k) - GroupConst(axes, GroupAxes(entries), shape) == offsets[k]
    {
      GroupSplit(entries, axes, shape, k);
    }
  }
}
