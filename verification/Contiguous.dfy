/** When a selection is one run of the source.

    The axes' own runs decide it, walked independently. That is only numpy's
    rule when at most one member of the group moves and the group stays in
    place, which is the guard in front of it. */
module Contiguity {
  import opened Words
  import opened Radix
  import opened Selecting
  import opened Resolving
  import opened Meaning
  import opened Walks
  import opened Planning

  /** An axis whose indices go up one at a time, as its first index and their number. */
  function AsRun(sel: AxisSel): Option<(nat, nat)> {
    match sel
    case Point(index) => Some((index, 1))
    case Range(start, len, step) =>
      if len == 0 then Some((0, 0))
      else if len == 1 then Some((start, 1))
      else if step == 1 then Some((start, len))
      else None
    case Indices(list) =>
      if list == [] then Some((0, 0))
      else if forall i :: 0 <= i < |list| ==> list[i] == list[0] + i then Some((list[0], |list|))
      else None
  }

  /** The position an axis selection names in step `k`. */
  ghost function Position(sel: AxisSel, k: nat): int
    requires k < sel.Len()
  {
    match sel
    case Point(index) => index
    case Range(start, _, step) => start + k * step
    case Indices(list) => list[k]
  }

  /** An axis is a run exactly when its positions follow on from one another, and the
      run is its first position and how many there are. */
  lemma RunIsAscending(sel: AxisSel)
    ensures AsRun(sel).Some?
       <==> forall k :: 0 <= k && k + 1 < sel.Len() ==> Position(sel, k + 1) == Position(sel, k) + 1
    ensures AsRun(sel).Some? ==> AsRun(sel).value.1 == sel.Len()
    ensures AsRun(sel).Some? && sel.Len() > 0 ==> AsRun(sel).value.0 == Position(sel, 0)
  {
    if sel.Range? && sel.len > 1 {
      assert Position(sel, 1) == Position(sel, 0) + sel.step;
    } else if sel.Indices? {
      if forall k :: 0 <= k && k + 1 < sel.Len() ==> Position(sel, k + 1) == Position(sel, k) + 1 {
        if sel.list != [] {
          StepsUp(sel);
        }
      }
    }
  }

  lemma StepsUp(sel: AxisSel)
    requires sel.Indices? && sel.list != []
    requires forall k :: 0 <= k && k + 1 < sel.Len() ==> Position(sel, k + 1) == Position(sel, k) + 1
    ensures forall i :: 0 <= i < |sel.list| ==> sel.list[i] == sel.list[0] + i
  {
    for i := 1 to |sel.list|
      invariant forall k :: 0 <= k < i && k < |sel.list| ==> sel.list[k] == sel.list[0] + k
    {
      assert Position(sel, i - 1 + 1) == Position(sel, i - 1) + 1;
    }
  }

  ghost predicate AllRuns(axes: seq<AxisSel>) {
    forall a :: 0 <= a < |axes| ==> AsRun(axes[a]).Some?
  }

  ghost function Starts(axes: seq<AxisSel>): seq<nat>
    requires AllRuns(axes)
  {
    seq(|axes|, a requires 0 <= a < |axes| => AsRun(axes[a]).value.0)
  }

  ghost function Lengths(axes: seq<AxisSel>): seq<nat>
    requires AllRuns(axes)
  {
    seq(|axes|, a requires 0 <= a < |axes| => AsRun(axes[a]).value.1)
  }

  /** No axis behind one that moves leaves anything out. */
  ghost predicate WholeRows(shape: seq<nat>, starts: seq<nat>, lens: seq<nat>)
    requires |starts| == |lens| == |shape|
  {
    forall a, b :: 0 <= b < a < |shape| && lens[b] > 1 ==> starts[a] == 0 && lens[a] == shape[a]
  }

  /** Every axis in one run, none empty, and no gap between the rows. */
  ghost predicate OneRun(shape: seq<nat>, axes: seq<AxisSel>)
    requires |axes| == |shape|
  {
    AllRuns(axes) && Positive(Lengths(axes)) && WholeRows(shape, Starts(axes), Lengths(axes))
  }

  ghost predicate Empty(axes: seq<AxisSel>) {
    AllRuns(axes) && !Positive(Lengths(axes))
  }

  /** Where a selection starts and how many elements follow on from there, when
      nothing is skipped on the way. */
  method ContiguousRun(shape: seq<nat>, axes: seq<AxisSel>) returns (r: Option<(nat, nat)>)
    requires |shape| == |axes|
    ensures Empty(axes) ==> r == Some((0, 0))
    ensures OneRun(shape, axes) ==>
      var run := (Ravel(Starts(axes), shape), Product(Lengths(axes)));
      r == if run.0 < U64 && run.1 < U64 then Some(run) else None
    ensures !Empty(axes) && !OneRun(shape, axes) ==> r == None
  {
    var starts, lens := [], [];
    for a := 0 to |axes|
      invariant |starts| == |lens| == a
      invariant forall i :: 0 <= i < a ==> AsRun(axes[i]) == Some((starts[i], lens[i]))
    {
      var run := AsRun(axes[a]);
      if run.None? {
        return None;
      }
      starts, lens := starts + [run.value.0], lens + [run.value.1];
    }
    assert starts == Starts(axes) && lens == Lengths(axes);
    // With nothing selected there is nothing to skip, and the start does not matter.
    if exists i :: 0 <= i < |lens| && lens[i] == 0 {
      return Some((0, 0));
    }
    var whole := NoGaps(shape, starts, lens);
    if !whole {
      return None;
    }
    var offset, len := RunExtent(shape, starts, lens);
    r := if offset < U64 && len < U64 then Some((offset, len)) else None;
  }

  method NoGaps(shape: seq<nat>, starts: seq<nat>, lens: seq<nat>) returns (whole: bool)
    requires |starts| == |lens| == |shape|
    ensures whole <==> WholeRows(shape, starts, lens)
  {
    var firstMulti: Option<nat> := None;
    for a := 0 to |lens|
      invariant match firstMulti
        case None => forall b :: 0 <= b < a ==> lens[b] <= 1
        case Some(f) =>
          && f < a && lens[f] > 1 && (forall b :: 0 <= b < f ==> lens[b] <= 1)
          && (forall b :: f < b < a ==> starts[b] == 0 && lens[b] == shape[b])
    {
      if firstMulti.Some? {
        if starts[a] != 0 || lens[a] != shape[a] {
          return false;
        }
      } else if lens[a] > 1 {
        firstMulti := Some(a);
      }
    }
    return true;
  }

  /** The starts ravelled, and the product of the lengths. */
  method RunExtent(shape: seq<nat>, starts: seq<nat>, lens: seq<nat>) returns (offset: nat, len: nat)
    requires |starts| == |lens| == |shape|
    ensures offset == Ravel(starts, shape) && len == Product(lens)
  {
    offset, len := 0, 1;
    for a := 0 to |shape|
      invariant offset == Ravel(starts[..a], shape[..a]) && len == Product(lens[..a])
    {
      assert starts[..a + 1][..a] == starts[..a] && shape[..a + 1][..a] == shape[..a];
      assert lens[..a + 1][..a] == lens[..a];
      offset := offset * shape[a] + starts[a];
      len := len * lens[a];
    }
    assert starts[..|shape|] == starts && shape[..|shape|] == shape && lens[..|shape|] == lens;
  }

  /** With whole rows, an index counts the same in the selection and in the source. */
  lemma {:induction false} SameNumber(idx: seq<nat>, shape: seq<nat>, starts: seq<nat>, lens: seq<nat>, i: nat)
    requires |shape| == |starts| == |lens| && Inside(idx, lens) && WholeRows(shape, starts, lens) && i <= |idx|
    ensures Ravel(idx[..i], lens[..i]) == Ravel(idx[..i], shape[..i])
    decreases i
  {
    if i > 0 {
      SameNumber(idx, shape, starts, lens, i - 1);
      assert idx[..i][..i - 1] == idx[..i - 1];
      assert lens[..i][..i - 1] == lens[..i - 1] && shape[..i][..i - 1] == shape[..i - 1];
      if lens[i - 1] != shape[i - 1] {
        assert forall b :: 0 <= b < i - 1 ==> idx[b] == 0;
        RavelZeros(idx[..i - 1], lens[..i - 1]);
        RavelZeros(idx[..i - 1], shape[..i - 1]);
      }
    }
  }

  lemma {:induction false} FlatIsRavel(idx: seq<nat>, shape: seq<nat>)
    requires |idx| == |shape|
    ensures Flat(idx, shape) == Ravel(idx, shape)
  {
    if idx != [] {
      FlatIsRavel(idx[..|idx| - 1], shape[..|shape| - 1]);
    }
  }

  /** What an entry's axis adds, walked on its own. */
  ghost function RunEntry(e: Entry, stride: nat): Rows {
    if e.Axis? && AsRun(e.sel).Some? then [RangeRow(AsRun(e.sel).value.1, stride)] else []
  }

  ghost function RunRows(entries: seq<Entry>, shape: seq<nat>): Rows {
    if entries == [] then []
    else
      var init := entries[..|entries| - 1];
      RunRows(init, shape) + RunEntry(entries[|entries| - 1], StrideOf(shape, |Axes(init)|))
  }

  /** The rows the members of the group would walk on their own. */
  ghost function GroupRows(entries: seq<Entry>, shape: seq<nat>): Rows {
    if entries == [] then []
    else
      var init, last := entries[..|entries| - 1], entries[|entries| - 1];
      GroupRows(init, shape) + if Joins(last) then RunEntry(last, StrideOf(shape, |Axes(init)|)) else []
  }

  /** Members of the group that move. */
  function CountMoving(axes: seq<AxisSel>, gs: seq<nat>): nat
    requires forall i :: 0 <= i < |gs| ==> gs[i] < |axes|
  {
    if gs == [] then 0
    else CountMoving(axes, gs[..|gs| - 1]) + if axes[gs[|gs| - 1]].Len() > 1 then 1 else 0
  }

  lemma {:induction false} MovingMember(axes: seq<AxisSel>, gs: seq<nat>)
    requires forall i :: 0 <= i < |gs| ==> gs[i] < |axes|
    ensures CountMoving(axes, gs) == 0 <==> forall i :: 0 <= i < |gs| ==> axes[gs[i]].Len() <= 1
    ensures CountMoving(axes, gs) <= 1 <==>
      forall i, j :: 0 <= i < j < |gs| ==> axes[gs[i]].Len() <= 1 || axes[gs[j]].Len() <= 1
    decreases |gs|
  {
    if gs != [] {
      var init, last := gs[..|gs| - 1], gs[|gs| - 1];
      MovingMember(axes, init);
      assert forall i :: 0 <= i < |init| ==> init[i] == gs[i];
    }
  }

  /** The guard in front of the contiguous path: no group, or one that moves along
      a single axis and keeps its place. */
  predicate WalksIndependently(sel: ResolvedSelection)
    requires forall i :: 0 <= i < |GroupOf(sel)| ==> GroupOf(sel)[i] < |sel.axes|
  {
    sel.advanced.None? || (sel.advanced.value.adjacent && CountMoving(sel.axes, GroupOf(sel)) <= 1)
  }

  /** It lets a selection pass exactly if it has no group, or one all together of which
      no two members move. */
  lemma GuardLetsPass(sel: ResolvedSelection)
    requires forall i :: 0 <= i < |GroupOf(sel)| ==> GroupOf(sel)[i] < |sel.axes|
    ensures WalksIndependently(sel) <==>
      sel.advanced.None? ||
      (sel.advanced.value.adjacent &&
       var gs := GroupOf(sel);
       forall i, j :: 0 <= i < j < |gs| ==> sel.axes[gs[i]].Len() <= 1 || sel.axes[gs[j]].Len() <= 1)
  {
    MovingMember(sel.axes, GroupOf(sel));
  }
}
