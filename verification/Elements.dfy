/** The two ways a selection is served name numpy's elements, and only those. */
module Elements {
  import opened Words
  import opened Radix
  import opened Selecting
  import opened Resolving
  import opened Meaning
  import opened Walks
  import opened Gathering
  import opened Planning
  import opened Contiguity
  import opened Runs

  lemma RangeInside(start: int, i: nat, len: nat, step: int, dim: nat)
    requires i < len && 0 <= start < dim && 0 <= start + (len - 1) * step < dim
    ensures 0 <= start + i * step < dim
  {
    if step >= 0 {
      assert 0 <= i * step <= (len - 1) * step;
    } else {
      assert (len - 1) * step <= i * step <= 0;
    }
  }

  ghost predicate OnAxes(idx: seq<int>, shape: seq<nat>) {
    |idx| <= |shape| && forall a :: 0 <= a < |idx| ==> 0 <= idx[a] < shape[a]
  }

  /** Every entry's index is a position on its axis. */
  lemma {:induction false} SourceOnAxes(entries: seq<Entry>, shape: seq<nat>, rest: seq<nat>, k: nat, len: nat)
    requires Fitting(entries, shape) && Inside(rest, Rest(entries)) && AllInStep(entries, len) && k < len
    ensures |Source(entries, rest, k)| == |Axes(entries)| && OnAxes(Source(entries, rest, k), shape)
    decreases |entries|
  {
    hide OnAxes, OwnDims, Rest, EntrySource, Axes, AllInStep;
    SourceLength(entries, rest, k);
    if entries == [] {
      NothingOnAxes(shape);
    } else {
      var init, last := entries[..|entries| - 1], entries[|entries| - 1];
      OwnInside(init, last, entries, rest);
      FittingParts(entries, shape, len);
      SourceOnAxes(init, shape, rest[..|Rest(init)|], k, len);
      if last.Axis? {
        EntryOnAxis(last, rest[|Rest(init)|..], k, len, shape[|Axes(init)|]);
      } else {
        NewHasNone(last, rest[|Rest(init)|..], k);
      }
      OnAxesMore(Source(init, rest[..|Rest(init)|], k), EntrySource(last, rest[|Rest(init)|..], k), shape);
    }
  }

  lemma NothingOnAxes(shape: seq<nat>)
    ensures OnAxes([], shape)
  {
  }

  lemma NewHasNone(e: Entry, own: seq<nat>, k: nat)
    requires e.New? && |own| == |OwnDims(e)|
    ensures EntrySource(e, own, k) == []
  {
  }

  lemma OnAxesMore(idx: seq<int>, more: seq<int>, shape: seq<nat>)
    requires OnAxes(idx, shape) && |more| <= 1
    requires more != [] ==> |idx| < |shape| && 0 <= more[0] < shape[|idx|]
    ensures OnAxes(idx + more, shape)
  {
  }

  /** What fits as a whole fits without its last entry, which fits its own axis. */
  lemma FittingParts(entries: seq<Entry>, shape: seq<nat>, len: nat)
    requires entries != [] && Fitting(entries, shape) && AllInStep(entries, len)
    ensures var init, last := entries[..|entries| - 1], entries[|entries| - 1];
      && Fitting(init, shape) && AllInStep(init, len)
      && (last.Axis? ==>
            && |Axes(init)| < |shape| && last.sel.OnAxis(shape[|Axes(init)|])
            && (last.sel.Indices? ==> last.advanced) && (last.sel.Range? ==> !last.advanced)
            && (Joins(last) ==> InStep(last.sel, len)))
  {
  }

  lemma EntryOnAxis(e: Entry, own: seq<nat>, k: nat, len: nat, dim: nat)
    requires e.Axis? && e.sel.OnAxis(dim) && Inside(own, OwnDims(e)) && k < len
    requires (e.sel.Indices? ==> e.advanced) && (e.sel.Range? ==> !e.advanced)
    requires Joins(e) ==> InStep(e.sel, len)
    ensures |EntrySource(e, own, k)| == 1 && 0 <= EntrySource(e, own, k)[0] < dim
  {
    if e.sel.Range? {
      RangeInside(e.sel.start, own[0], e.sel.len, e.sel.step, dim);
    }
  }

  lemma {:induction false} FlatBound(idx: seq<int>, shape: seq<nat>)
    requires |idx| == |shape| && OnAxes(idx, shape)
    ensures Positive(shape) && 0 <= Flat(idx, shape) < Product(shape)
  {
    if shape != [] {
      var n := |shape| - 1;
      FlatBound(idx[..n], shape[..n]);
      DigitBound(Flat(idx[..n], shape[..n]), Product(shape[..n]), idx[n], shape[n]);
    }
  }

  /** The members of a broadcast group are walked in step. */
  lemma BroadcastInStep(entries: seq<Entry>, len: nat)
    requires Broadcasts(GroupLengths(entries), len)
    ensures AllInStep(entries, len)
  {
    forall p | 0 <= p < |entries| && Joins(entries[p]) ensures InStep(entries[p].sel, len) {
      if entries[p].sel.Indices? {
        LengthsIn(entries, p);
      }
    }
  }

  /** What a resolved selection and its entries have in common. */
  ghost predicate Resolved(sel: ResolvedSelection, entries: seq<Entry>, shape: seq<nat>) {
    Describes(sel, entries) && Fitting(entries, shape) && |sel.axes| == |shape|
  }

  lemma ResolvedFacts(sel: ResolvedSelection, entries: seq<Entry>, shape: seq<nat>)
    requires Resolved(sel, entries, shape)
    ensures |Axes(entries)| == |shape| && sel.outShape == OutShape(entries, GroupLen(sel))
    ensures Broadcasts(GroupLengths(entries), GroupLen(sel)) && AllInStep(entries, GroupLen(sel))
    ensures GroupOf(sel) == GroupAxes(entries) && (GroupOf(sel) == [] <==> GroupPositions(entries) == [])
    ensures GroupPositions(entries) != [] && Positive(sel.outShape) ==> GroupLen(sel) > 0
  {
    NoGroup(entries);
    GroupMembers(entries);
    if sel.advanced.None? {
      assert OutShape(entries, 1) == sel.outShape;
    } else {
      var len := sel.advanced.value.len;
      assert OutShape(entries, len)[GroupAt(entries)] == len;
    }
    BroadcastInStep(entries, GroupLen(sel));
  }

  /** No selected element lies outside the array. */
  lemma ElementInside(sel: ResolvedSelection, entries: seq<Entry>, shape: seq<nat>, n: nat)
    requires Resolved(sel, entries, shape) && Positive(sel.outShape) && n < Product(sel.outShape)
    ensures |Axes(entries)| == |shape| && sel.outShape == OutShape(entries, GroupLen(sel))
    ensures 0 <= Element(entries, shape, GroupLen(sel), n) < Product(shape)
    ensures Positive(shape)
  {
    hide Unravel, OnAxes, Axes, Flat, Product, OutShape, Source, AllInStep, Broadcasts, GroupLengths, GroupOf,
        GroupAxes;
    ResolvedFacts(sel, entries, shape);
    var len := GroupLen(sel);
    var out := Unravel(n, OutShape(entries, len));
    RavelUnravel(n, OutShape(entries, len));
    ShapeLengths(entries, len);
    SourceIndexLength(entries, out);
    IndexOnAxes(entries, shape, out, len);
    FlatBound(SourceIndex(entries, out), shape);
  }

  lemma IndexOnAxes(entries: seq<Entry>, shape: seq<nat>, out: seq<nat>, len: nat)
    requires Fitting(entries, shape) && AllInStep(entries, len) && Inside(out, OutShape(entries, len))
    requires |OutShape(entries, len)| == |OutShape(entries, 1)|
    ensures OnAxes(SourceIndex(entries, out), shape)
  {
    hide OnAxes, Source, Rest, AllInStep, Fitting;
    if GroupPositions(entries) == [] {
      NoGroupInStep(entries);
      SourceOnAxes(entries, shape, out, 0, 1);
    } else {
      var g := GroupAt(entries);
      InsideRemove(out, Rest(entries), g, len);
      SourceOnAxes(entries, shape, out[..g] + out[g + 1..], out[g], len);
    }
  }

  lemma NoGroupInStep(entries: seq<Entry>)
    requires GroupPositions(entries) == []
    ensures AllInStep(entries, 1)
  {
    GroupMembers(entries);
  }

  lemma GroundedInsert(rows: Rows, g: nat, row: seq<int>)
    requires Grounded(rows) && g <= |rows| && (|row| == 1 ==> row == [0])
    ensures Grounded(Insert(rows, g, row))
  {
    var all := Insert(rows, g, row);
    forall i | 0 <= i < |all| && |all[i]| == 1 ensures all[i] == [0] {
      if i < g {
        assert all[i] == rows[i];
      } else if i > g {
        assert all[i] == rows[i - 1];
      }
    }
  }

  /** numpy's rule as a squeezed walk, for either way of placing the group's constant. */
  lemma ElementWalk(sel: ResolvedSelection, entries: seq<Entry>, shape: seq<nat>, c: int, n: nat)
    requires Resolved(sel, entries, shape) && Positive(sel.outShape) && n < Product(sel.outShape)
    requires if GroupPositions(entries) == [] then c == 0 else GroupTerm(entries, shape, 0) == c || GroupLen(sel) > 1
    ensures |Axes(entries)| == |shape| && sel.outShape == OutShape(entries, GroupLen(sel))
    ensures var rows := Squeeze(OutRows(entries, shape, GroupLen(sel), c));
      && Positive(Widths(rows)) && Product(Widths(rows)) == Product(sel.outShape)
      && Element(entries, shape, GroupLen(sel), n) == RestBase(entries, shape) + c + Walk(rows, n)
  {
    hide Product, Walk, RestBase, GroupTerm, Fitting, Axes, Grounded;
    ResolvedFacts(sel, entries, shape);
    var len := GroupLen(sel);
    ElementSum(entries, shape, len, c, n);
    OutGrounded(sel, entries, shape, c);
    SqueezeWalk(OutRows(entries, shape, len, c), n);
    SqueezeSize(OutRows(entries, shape, len, c));
  }

  lemma OutGrounded(sel: ResolvedSelection, entries: seq<Entry>, shape: seq<nat>, c: int)
    requires Resolved(sel, entries, shape)
    requires if GroupPositions(entries) == [] then c == 0 else GroupTerm(entries, shape, 0) == c || GroupLen(sel) > 1
    ensures Grounded(OutRows(entries, shape, GroupLen(sel), c))
  {
    hide Fitting, Describes, Grounded, RestRows, GroupPositions, GroupTerm, GroupLen;
    RunGrounded(entries, shape);
    if GroupPositions(entries) != [] {
      RestWidths(entries, shape);
      OneStep(entries, shape, GroupLen(sel), c);
      GroundedInsert(RestRows(entries, shape), GroupAt(entries), GroupRow(entries, shape, GroupLen(sel), c));
    }
  }

  lemma OneStep(entries: seq<Entry>, shape: seq<nat>, len: nat, c: int)
    requires GroupTerm(entries, shape, 0) == c || len > 1
    ensures var row := GroupRow(entries, shape, len, c); |row| == 1 ==> row == [0]
  {
    hide GroupTerm;
  }

  /** The walk `Gathered` keeps visits numpy's elements, in numpy's order. */
  lemma PlanIsSelection(g: Gathered, sel: ResolvedSelection, entries: seq<Entry>, shape: seq<nat>, n: nat)
    requires Resolved(sel, entries, shape) && Positive(sel.outShape) && n < Product(sel.outShape)
    requires Members(sel.axes, GroupOf(sel))
    requires Plans(g, entries, shape, GroupLen(sel), GroupConst(sel.axes, GroupOf(sel), shape))
    ensures |Axes(entries)| == |shape| && sel.outShape == OutShape(entries, GroupLen(sel))
    ensures Positive(Lens(g.dims)) && Size(g) == Product(sel.outShape)
    ensures At(g, n) == Element(entries, shape, GroupLen(sel), n)
  {
    hide Product, Walk, RestBase, GroupTerm, GroupConst, Fitting, Axes, OutRows, Squeeze, DimRows, Lens, Positive, At,
        Element, NeverStill;
    ResolvedFacts(sel, entries, shape);
    var c := GroupConst(sel.axes, GroupOf(sel), shape);
    ConstIsTerm(sel, entries, shape);
    ElementWalk(sel, entries, shape, c, n);
    DimWidths(g.dims);
    AtIsWalk(g, n);
  }

  lemma ConstIsTerm(sel: ResolvedSelection, entries: seq<Entry>, shape: seq<nat>)
    requires Resolved(sel, entries, shape) && Members(sel.axes, GroupOf(sel))
    ensures var c := GroupConst(sel.axes, GroupOf(sel), shape);
      if GroupPositions(entries) == [] then c == 0
      else (Positive(sel.outShape) ==> GroupTerm(entries, shape, 0) == c || GroupLen(sel) > 1)
  {
    ResolvedFacts(sel, entries, shape);
    GroupSplit(entries, sel.axes, shape, 0);
    if GroupPositions(entries) != [] && GroupLen(sel) == 1 {
      GroupInStep(entries, sel.axes, 1);
      StillVar(sel.axes, GroupOf(sel), shape);
    }
  }

  lemma {:induction false} StillVar(axes: seq<AxisSel>, gs: seq<nat>, shape: seq<nat>)
    requires Members(axes, gs) && forall a :: a in gs ==> InStep(axes[a], 1)
    ensures GroupVar(axes, gs, shape, 0) == 0
    decreases |gs|
  {
    if gs != [] {
      StillVar(axes, gs[..|gs| - 1], shape);
      assert gs[|gs| - 1] in gs;
    }
  }

  /** A walk planned for a selection with elements can be read. */
  lemma PlanReadable(g: Gathered, sel: ResolvedSelection, entries: seq<Entry>, shape: seq<nat>)
    requires Resolved(sel, entries, shape) && Positive(sel.outShape)
    requires Members(sel.axes, GroupOf(sel))
    requires Plans(g, entries, shape, GroupLen(sel), GroupConst(sel.axes, GroupOf(sel), shape))
    ensures Readable(g, Product(shape)) && Size(g) == Product(sel.outShape)
  {
    ProductPositive(sel.outShape);
    ElementInside(sel, entries, shape, 0);
    PlanIsSelection(g, sel, entries, shape, 0);
    forall n | 0 <= n < Size(g)
      ensures 0 <= At(g, n) < Product(shape)
    {
      PlanIsSelection(g, sel, entries, shape, n);
      ElementInside(sel, entries, shape, n);
    }
  }

  /** A selection served as one run: element `n` is the `n`-th of the run. */
  lemma RunIsSelection(sel: ResolvedSelection, entries: seq<Entry>, shape: seq<nat>, n: nat)
    requires Resolved(sel, entries, shape) && Positive(sel.outShape) && n < Product(sel.outShape)
    requires forall i :: 0 <= i < |GroupOf(sel)| ==> GroupOf(sel)[i] < |sel.axes|
    requires WalksIndependently(sel) && OneRun(shape, sel.axes)
    ensures |Axes(entries)| == |shape| && sel.outShape == OutShape(entries, GroupLen(sel))
    ensures Product(Lengths(sel.axes)) == Product(sel.outShape)
    ensures Element(entries, shape, GroupLen(sel), n) == Ravel(Starts(sel.axes), shape) + n
  {
    hide Product, Walk, RestBase, GroupTerm, GroupBase, Fitting, OutRows, Squeeze, RunRows, Element, GroupPositions,
        Ravel, Dot;
    ResolvedFacts(sel, entries, shape);
    InPlace(sel, entries, shape);
    ElementWalk(sel, entries, shape, GroupBase(entries, shape), n);
    SameWalk(entries, shape, GroupLen(sel));
    RunWidths(entries, shape);
    RunGrounded(entries, shape);
    SqueezeWalk(RunRows(entries, shape), n);
    SqueezeSize(RunRows(entries, shape));
    RunCounts(entries, shape, n);
    RunBase(entries, shape);
    StartNumber(sel.axes, shape);
  }

  lemma StartNumber(axes: seq<AxisSel>, shape: seq<nat>)
    requires AllRuns(axes) && |axes| == |shape|
    ensures Dot(Starts(axes), shape) == Ravel(Starts(axes), shape)
  {
    FlatDot(Starts(axes), shape);
    FlatIsRavel(Starts(axes), shape);
  }

  lemma InPlace(sel: ResolvedSelection, entries: seq<Entry>, shape: seq<nat>)
    requires Resolved(sel, entries, shape) && Positive(sel.outShape)
    requires forall i :: 0 <= i < |GroupOf(sel)| ==> GroupOf(sel)[i] < |sel.axes|
    requires WalksIndependently(sel) && OneRun(shape, sel.axes)
    ensures StaysInPlace(entries, GroupLen(sel))
    ensures if GroupPositions(entries) == [] then GroupBase(entries, shape) == 0
            else GroupTerm(entries, shape, 0) == GroupBase(entries, shape) && GroupLen(sel) > 0
  {
    ResolvedFacts(sel, entries, shape);
    EntriesRun(entries, shape);
    CountsMoving(entries, sel.axes);
    if GroupPositions(entries) == [] {
      NoGroupBase(entries, shape);
    } else {
      GroupMoves(entries, shape, GroupLen(sel), 0);
    }
  }

  /** Past whole rows, walking the axes counts. */
  lemma RunCounts(entries: seq<Entry>, shape: seq<nat>, n: nat)
    requires |Axes(entries)| == |shape| && OneRun(shape, Axes(entries)) && n < Product(Lengths(Axes(entries)))
    requires Widths(RunRows(entries, shape)) == Lengths(Axes(entries))
    ensures Walk(RunRows(entries, shape), n) == n
  {
    var lens := Lengths(Axes(entries));
    var idx := Unravel(n, lens);
    RavelUnravel(n, lens);
    RunWidths(entries, shape);
    RunSums(entries, shape, idx);
    FlatDot(idx, shape);
    FlatIsRavel(idx, shape);
    SameNumber(idx, shape, Starts(Axes(entries)), lens, |idx|);
    assert idx[..|idx|] == idx && lens[..|idx|] == lens && shape[..|idx|] == shape;
  }

  lemma {:induction false} RestHas(entries: seq<Entry>, p: nat)
    requires p < |entries| && !Joins(entries[p])
    ensures forall d :: d in OwnDims(entries[p]) ==> d in Rest(entries)
    decreases |entries|
  {
    if p < |entries| - 1 {
      RestHas(entries[..|entries| - 1], p);
    }
  }

  lemma {:induction false} AxisEntry(entries: seq<Entry>, a: nat) returns (p: nat)
    requires a < |Axes(entries)|
    ensures p < |entries| && entries[p].Axis? && entries[p].sel == Axes(entries)[a]
    decreases |entries|
  {
    var init := entries[..|entries| - 1];
    if a < |Axes(init)| {
      p := AxisEntry(init, a);
    } else {
      p := |entries| - 1;
    }
  }

  /** A run of nothing is a selection of nothing. */
  lemma EmptyIsNothing(sel: ResolvedSelection, entries: seq<Entry>, shape: seq<nat>)
    requires Resolved(sel, entries, shape) && Empty(sel.axes)
    ensures Product(sel.outShape) == 0
  {
    hide Product, Fitting, Axes, GroupPositions, Rest, AxisSel.OnAxis, Adjacent;
    ResolvedFacts(sel, entries, shape);
    var a :| 0 <= a < |sel.axes| && Lengths(sel.axes)[a] == 0;
    var p := AxisEntry(entries, a);
    RunLength(sel.axes[a]);
    FitsAt(entries, shape, p);
    EmptyDim(entries, GroupLen(sel), p);
    ProductPositive(sel.outShape);
  }

  lemma RunLength(sel: AxisSel)
    requires AsRun(sel).Some?
    ensures AsRun(sel).value.1 == sel.Len()
  {
  }

  lemma EmptyDim(entries: seq<Entry>, len: nat, p: nat)
    requires p < |entries| && entries[p].Axis? && entries[p].sel.Len() == 0 && AllInStep(entries, len)
    requires (entries[p].sel.Indices? ==> entries[p].advanced) && (entries[p].sel.Range? ==> !entries[p].advanced)
    ensures 0 in OutShape(entries, len)
  {
    hide Rest, GroupPositions, Adjacent;
    GroupMembers(entries);
    if Joins(entries[p]) {
      assert InStep(entries[p].sel, len);
      assert OutShape(entries, len)[GroupAt(entries)] == len;
    } else {
      assert OwnDims(entries[p])[0] == 0 && 0 in OwnDims(entries[p]);
      RestHas(entries, p);
      InsertKeeps(Rest(entries), if GroupPositions(entries) == [] then 0 else GroupAt(entries), len, 0);
    }
  }

  lemma InsertKeeps(s: seq<nat>, g: nat, x: nat, y: nat)
    requires g <= |s| && y in s
    ensures y in s[..g] + [x] + s[g..]
  {
    var i :| 0 <= i < |s| && s[i] == y;
    assert (s[..g] + [x] + s[g..])[if i < g then i else i + 1] == y;
  }
}
