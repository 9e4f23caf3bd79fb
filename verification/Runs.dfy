/** A selection served as one run is the run of its elements.

    The rows numpy's rule walks and the rows its axes walk on their own differ
    only in rows of length 1 and in where the one moving member of the group
    stands; squeezed, they are the same. Whole rows then make the walk count. */
module Runs {
  import opened Words
  import opened Radix
  import opened Selecting
  import opened Resolving
  import opened Meaning
  import opened Walks
  import opened Planning
  import opened Contiguity

  /** An entry as a run: something selected, in consecutive order. */
  ghost predicate Runs(e: Entry) {
    e.Axis? ==>
      && AsRun(e.sel).Some? && AsRun(e.sel).value.1 > 0
      && (e.sel.Indices? ==> e.advanced) && (e.sel.Range? ==> !e.advanced)
  }

  ghost predicate RunsAll(entries: seq<Entry>) {
    forall p :: 0 <= p < |entries| ==> Runs(entries[p])
  }

  lemma EntrySqueezed(e: Entry, stride: nat)
    requires Runs(e) && !Joins(e)
    ensures Squeeze(EntryRows(e, stride)) == Squeeze(RunEntry(e, stride))
  {
    SqueezeOne(EntryRows(e, stride));
    SqueezeOne(RunEntry(e, stride));
  }

  lemma SqueezeOne(rows: Rows)
    requires |rows| <= 1
    ensures Squeeze(rows) == if rows != [] && |rows[0]| > 1 then rows else []
  {
    if rows != [] {
      assert rows == [rows[0]] && rows[..0] == [];
    }
  }

  lemma RowsStep(entries: seq<Entry>, shape: seq<nat>, p: nat)
    requires p < |entries|
    ensures var stride := StrideOf(shape, |Axes(entries[..p])|);
      && RestRows(entries[..p + 1], shape) == RestRows(entries[..p], shape) + EntryRows(entries[p], stride)
      && RunRows(entries[..p + 1], shape) == RunRows(entries[..p], shape) + RunEntry(entries[p], stride)
      && GroupRows(entries[..p + 1], shape)
         == GroupRows(entries[..p], shape) + (if Joins(entries[p]) then RunEntry(entries[p], stride) else [])
      && (Joins(entries[p]) ==> EntryRows(entries[p], stride) == [])
  {
    assert entries[..p + 1][..p] == entries[..p];
  }

  /** Outside the group, the two walks have the same rows worth walking. */
  lemma {:induction false} BeforeGroup(entries: seq<Entry>, shape: seq<nat>, p: nat)
    requires p <= |entries| && RunsAll(entries) && forall q :: 0 <= q < p ==> !Joins(entries[q])
    ensures Squeeze(RunRows(entries[..p], shape)) == Squeeze(RestRows(entries[..p], shape))
    ensures GroupRows(entries[..p], shape) == []
    decreases p
  {
    hide RestRows, RunRows, GroupRows, Squeeze, EntryRows, RunEntry, StrideOf, Axes, Runs;
    if p == 0 {
      NothingYet(entries, shape);
    } else {
      var stride := StrideOf(shape, |Axes(entries[..p - 1])|);
      BeforeGroup(entries, shape, p - 1);
      RowsStep(entries, shape, p - 1);
      EntrySqueezed(entries[p - 1], stride);
      SqueezeConcat(RunRows(entries[..p - 1], shape), RunEntry(entries[p - 1], stride));
      SqueezeConcat(RestRows(entries[..p - 1], shape), EntryRows(entries[p - 1], stride));
    }
  }

  lemma NothingYet(entries: seq<Entry>, shape: seq<nat>)
    ensures RunRows(entries[..0], shape) == [] && RestRows(entries[..0], shape) == []
    ensures GroupRows(entries[..0], shape) == []
  {
    assert entries[..0] == [];
  }

  /** Members next to each other contribute no dimension of their own. */
  lemma {:induction false} InsideGroup(entries: seq<Entry>, shape: seq<nat>, f: nat, p: nat)
    requires f <= p <= |entries| && forall q :: f <= q < p ==> Joins(entries[q])
    ensures RestRows(entries[..p], shape) == RestRows(entries[..f], shape)
    decreases p - f
  {
    if f < p {
      InsideGroup(entries, shape, f, p - 1);
      RowsStep(entries, shape, p - 1);
    }
  }

  /** The rows after the group's place. */
  ghost function Tail(entries: seq<Entry>, shape: seq<nat>, f: nat, p: nat): Rows
    requires f <= p <= |entries|
  {
    var head := RestRows(entries[..f], shape);
    var rows := RestRows(entries[..p], shape);
    if |head| <= |rows| then rows[|head|..] else []
  }

  ghost predicate GroupTogether(entries: seq<Entry>, f: nat) {
    && f <= |entries|
    && (forall q :: 0 <= q < f ==> !Joins(entries[q]))
    && (forall q, p :: f <= q < p < |entries| && Joins(entries[p]) ==> Joins(entries[q]))
  }

  lemma TailStep(entries: seq<Entry>, shape: seq<nat>, f: nat, p: nat)
    requires f <= p < |entries| && GroupTogether(entries, f)
    ensures Tail(entries, shape, f, p + 1)
         == Tail(entries, shape, f, p) + EntryRows(entries[p], StrideOf(shape, |Axes(entries[..p])|))
    ensures Joins(entries[p]) ==> Tail(entries, shape, f, p) == []
  {
    hide RestRows, RunRows, GroupRows, EntryRows, RunEntry, StrideOf, Axes;
    RowsStep(entries, shape, p);
    assert entries[..p][..f] == entries[..f];
    RestRowsPrefix(entries[..p], shape, f);
    if Joins(entries[p]) {
      InsideGroup(entries, shape, f, p);
    }
  }

  /** The walk of the axes on their own has the group's rows in the group's place. */
  lemma {:induction false} GroupInPlace(entries: seq<Entry>, shape: seq<nat>, f: nat, p: nat)
    requires f <= p <= |entries| && RunsAll(entries) && GroupTogether(entries, f)
    ensures Squeeze(RunRows(entries[..p], shape))
         == Squeeze(RestRows(entries[..f], shape)) + Squeeze(GroupRows(entries[..p], shape))
          + Squeeze(Tail(entries, shape, f, p))
    decreases p - f
  {
    hide RestRows, RunRows, GroupRows, Squeeze, EntryRows, RunEntry, StrideOf, Axes, Runs, Tail;
    if f == p {
      BeforeGroup(entries, shape, f);
      NoTail(entries, shape, f);
    } else {
      var e, stride := entries[p - 1], StrideOf(shape, |Axes(entries[..p - 1])|);
      GroupInPlace(entries, shape, f, p - 1);
      RowsStep(entries, shape, p - 1);
      TailStep(entries, shape, f, p - 1);
      SqueezeConcat(RunRows(entries[..p - 1], shape), RunEntry(e, stride));
      SqueezeConcat(GroupRows(entries[..p - 1], shape), RunEntry(e, stride));
      SqueezeConcat(Tail(entries, shape, f, p - 1), EntryRows(e, stride));
      NoRows();
      if !Joins(e) {
        EntrySqueezed(e, stride);
        assert GroupRows(entries[..p - 1], shape) + [] == GroupRows(entries[..p - 1], shape);
        Regroup(Squeeze(RestRows(entries[..f], shape)), Squeeze(GroupRows(entries[..p - 1], shape)),
                Squeeze(Tail(entries, shape, f, p - 1)), Squeeze(RunEntry(e, stride)));
      } else {
        Regroup(Squeeze(RestRows(entries[..f], shape)), Squeeze(GroupRows(entries[..p - 1], shape)),
                [], Squeeze(RunEntry(e, stride)));
      }
    }
  }

  lemma Regroup(a: Rows, b: Rows, c: Rows, d: Rows)
    ensures (a + b + c) + d == a + b + (c + d)
    ensures (a + b + []) + d == a + (b + d) + []
  {
  }

  lemma NoTail(entries: seq<Entry>, shape: seq<nat>, f: nat)
    requires f <= |entries|
    ensures Squeeze(Tail(entries, shape, f, f)) == [] && Squeeze([]) == []
  {
  }

  /** Where the group's elements start. */
  ghost function GroupBase(entries: seq<Entry>, shape: seq<nat>): int {
    if entries == [] then 0
    else
      var init, last := entries[..|entries| - 1], entries[|entries| - 1];
      GroupBase(init, shape) + if Joins(last) then Pick(last.sel, 0) * StrideOf(shape, |Axes(init)|) else 0
  }

  ghost function MovingCount(entries: seq<Entry>): nat {
    if entries == [] then 0
    else
      var last := entries[|entries| - 1];
      MovingCount(entries[..|entries| - 1]) + if Joins(last) && last.sel.Len() > 1 then 1 else 0
  }

  /** The stride of the member that moves. */
  ghost function MovingStride(entries: seq<Entry>, shape: seq<nat>): nat {
    if entries == [] then 0
    else
      var init, last := entries[..|entries| - 1], entries[|entries| - 1];
      if Joins(last) && last.sel.Len() > 1 then StrideOf(shape, |Axes(init)|) else MovingStride(init, shape)
  }

  ghost predicate AllInStep(entries: seq<Entry>, len: nat) {
    forall p :: 0 <= p < |entries| && Joins(entries[p]) ==> InStep(entries[p].sel, len)
  }

  /** A group with at most one moving member walks as that member does. */
  lemma {:induction false} GroupMoves(entries: seq<Entry>, shape: seq<nat>, len: nat, k: nat)
    requires RunsAll(entries) && AllInStep(entries, len) && MovingCount(entries) <= 1 && k < len
    ensures Squeeze(GroupRows(entries, shape))
         == if MovingCount(entries) == 0 then [] else [RangeRow(len, MovingStride(entries, shape))]
    ensures GroupTerm(entries, shape, k) == GroupBase(entries, shape) + k * MovingStride(entries, shape)
    ensures MovingCount(entries) == 0 ==> MovingStride(entries, shape) == 0
    ensures MovingCount(entries) > 0 ==> len > 1
    decreases |entries|
  {
    if entries != [] {
      var init, last := entries[..|entries| - 1], entries[|entries| - 1];
      GroupMoves(init, shape, len, k);
      if Joins(last) {
        var stride := StrideOf(shape, |Axes(init)|);
        assert Runs(last);
        SqueezeConcat(GroupRows(init, shape), RunEntry(last, stride));
        SqueezeOne(RunEntry(last, stride));
        MemberTerm(last.sel, stride, len, k);
      } else {
        assert GroupRows(entries, shape) == GroupRows(init, shape);
      }
    }
  }

  lemma MemberTerm(sel: AxisSel, stride: nat, len: nat, k: nat)
    requires AsRun(sel).Some? && AsRun(sel).value.1 > 0 && InStep(sel, len) && !sel.Range? && k < len
    ensures Pick(sel, k) * stride == Pick(sel, 0) * stride + if sel.Len() > 1 then k * stride else 0
    ensures sel.Len() == AsRun(sel).value.1 && (sel.Len() > 1 ==> sel.Len() == len)
  {
    if sel.Len() > 1 {
      assert sel.list[k] == sel.list[0] + k;
      assert (sel.list[0] + k) * stride == sel.list[0] * stride + k * stride;
    }
  }

  lemma {:induction false} AdjacentAt(ps: seq<nat>, j: nat)
    requires Adjacent(ps) && j < |ps|
    ensures ps[j] == ps[0] + j
  {
    if j > 0 {
      AdjacentAt(ps, j - 1);
    }
  }

  lemma AdjacentTogether(entries: seq<Entry>)
    requires GroupPositions(entries) != [] && Adjacent(GroupPositions(entries))
    ensures GroupTogether(entries, GroupPositions(entries)[0])
  {
    hide GroupPositions;
    var ps := GroupPositions(entries);
    GroupMembers(entries);
    var f := ps[0];
    forall q | 0 <= q < f ensures !Joins(entries[q]) {
      GroupFirst(entries, q);
    }
    forall q, p | f <= q < p < |entries| && Joins(entries[p]) ensures Joins(entries[q]) {
      var j :| 0 <= j < |ps| && ps[j] == p;
      AdjacentAt(ps, j);
      AdjacentAt(ps, q - f);
      assert Joins(entries[ps[q - f]]);
    }
  }

  lemma {:induction false} StillGroup(entries: seq<Entry>)
    requires RunsAll(entries) && MovingCount(entries) == 0
    ensures forall i :: 0 <= i < |GroupLengths(entries)| ==> GroupLengths(entries)[i] == 1
  {
    if entries != [] {
      var last := entries[|entries| - 1];
      StillGroup(entries[..|entries| - 1]);
      assert Runs(last);
    }
  }

  lemma {:induction false} NoGroupBase(entries: seq<Entry>, shape: seq<nat>)
    requires GroupPositions(entries) == []
    ensures GroupBase(entries, shape) == 0
    ensures forall p :: 0 <= p < |entries| ==> !Joins(entries[p])
  {
    GroupMembers(entries);
    if entries != [] {
      NoGroupBase(entries[..|entries| - 1], shape);
    }
  }

  /** At most one member of the group moves, and the group stays in place. */
  ghost predicate StaysInPlace(entries: seq<Entry>, len: nat) {
    && RunsAll(entries) && AllInStep(entries, len)
    && Broadcasts(GroupLengths(entries), len)
    && (GroupPositions(entries) != [] ==> Adjacent(GroupPositions(entries)) && MovingCount(entries) <= 1)
  }

  /** Squeezed, numpy's walk and the axes' own are the same walk. */
  lemma SameWalk(entries: seq<Entry>, shape: seq<nat>, len: nat)
    requires StaysInPlace(entries, len) && (GroupPositions(entries) != [] ==> len > 0)
    ensures Squeeze(OutRows(entries, shape, len, GroupBase(entries, shape))) == Squeeze(RunRows(entries, shape))
  {
    assert entries[..|entries|] == entries;
    if GroupPositions(entries) == [] {
      NoGroupBase(entries, shape);
      BeforeGroup(entries, shape, |entries|);
    } else {
      SameGrouped(entries, shape, len);
    }
  }

  lemma GroupRowIs(entries: seq<Entry>, shape: seq<nat>, len: nat)
    requires StaysInPlace(entries, len) && len > 0 && GroupPositions(entries) != []
    ensures var row := GroupRow(entries, shape, len, GroupBase(entries, shape));
      |row| == len && Squeeze(GroupRows(entries, shape)) == if len > 1 then [row] else []
  {
    var row := GroupRow(entries, shape, len, GroupBase(entries, shape));
    GroupMoves(entries, shape, len, 0);
    if MovingCount(entries) == 0 {
      StillGroup(entries);
    } else {
      forall k | 0 <= k < len ensures row[k] == RangeRow(len, MovingStride(entries, shape))[k] {
        GroupMoves(entries, shape, len, k);
      }
      assert row == RangeRow(len, MovingStride(entries, shape));
    }
  }

  lemma SameGrouped(entries: seq<Entry>, shape: seq<nat>, len: nat)
    requires StaysInPlace(entries, len) && len > 0 && GroupPositions(entries) != []
    ensures Squeeze(OutRows(entries, shape, len, GroupBase(entries, shape))) == Squeeze(RunRows(entries, shape))
  {
    hide RestRows, RunRows, GroupRows, Squeeze, GroupPositions, Tail, GroupRow, GroupBase, RunsAll, AllInStep,
        Adjacent, Rest;
    var f := GroupPositions(entries)[0];
    AdjacentTogether(entries);
    GroupPlace(entries, shape, f);
    GroupInPlace(entries, shape, f, |entries|);
    assert entries[..|entries|] == entries;
    var rows, head := RestRows(entries, shape), RestRows(entries[..f], shape);
    var row := GroupRow(entries, shape, len, GroupBase(entries, shape));
    GroupRowIs(entries, shape, len);
    assert rows[..|head|] == head;
    SqueezeInsert(rows, |head|, row);
    SqueezeConcat(head, rows[|head|..]);
    InsertMiddle(Squeeze(head), Squeeze(rows[|head|..]), row);
  }

  /** The group's output dimension comes after those of the entries before it. */
  lemma GroupPlace(entries: seq<Entry>, shape: seq<nat>, f: nat)
    requires GroupPositions(entries) != [] && Adjacent(GroupPositions(entries)) && f == GroupPositions(entries)[0]
    ensures f <= |entries| && |RestRows(entries, shape)| == |Rest(entries)|
    ensures GroupAt(entries) == |RestRows(entries[..f], shape)|
    ensures var head, rows := RestRows(entries[..f], shape), RestRows(entries, shape);
      head <= rows && rows == head + rows[|head|..] && Tail(entries, shape, f, |entries|) == rows[|head|..]
  {
    hide RestRows, Rest, GroupPositions, GroupAt, Tail, Adjacent;
    GroupStarts(entries, f);
    RestWidths(entries, shape);
    RestWidths(entries[..f], shape);
    RestRowsPrefix(entries, shape, f);
    TailIs(entries, shape, f);
  }

  lemma GroupStarts(entries: seq<Entry>, f: nat)
    requires GroupPositions(entries) != [] && Adjacent(GroupPositions(entries)) && f == GroupPositions(entries)[0]
    ensures f < |entries| && GroupAt(entries) == |Rest(entries[..f])|
  {
    hide Rest, GroupPositions;
    GroupMembers(entries);
  }

  lemma TailIs(entries: seq<Entry>, shape: seq<nat>, f: nat)
    requires f <= |entries| && RestRows(entries[..f], shape) <= RestRows(entries, shape)
    ensures Tail(entries, shape, f, |entries|) == RestRows(entries, shape)[|RestRows(entries[..f], shape)|..]
  {
    hide RestRows;
    assert entries[..|entries|] == entries;
  }

  lemma InsertMiddle(a: Rows, b: Rows, row: seq<int>)
    ensures Insert(a + b, |a|, row) == a + [row] + b
    ensures a + [] + b == a + b
  {
  }

  lemma RunSnoc(init: seq<Entry>, last: Entry, shape: seq<nat>)
    requires AllRuns(Axes(init + [last]))
    ensures Axes(init + [last]) == Axes(init) + (if last.Axis? then [last.sel] else [])
    ensures AllRuns(Axes(init)) && (last.Axis? ==> AsRun(last.sel).Some?)
    ensures Starts(Axes(init + [last])) == Starts(Axes(init)) + (if last.Axis? then [AsRun(last.sel).value.0] else [])
    ensures Lengths(Axes(init + [last])) == Lengths(Axes(init)) + (if last.Axis? then [AsRun(last.sel).value.1] else [])
    ensures RunRows(init + [last], shape) == RunRows(init, shape) + RunEntry(last, StrideOf(shape, |Axes(init)|))
  {
    var axes, axes' := Axes(init), Axes(init + [last]);
    assert (init + [last])[..|init|] == init;
    assert forall a :: 0 <= a < |axes| ==> axes[a] == axes'[a];
    if last.Axis? {
      assert axes'[|axes|] == last.sel;
    }
  }

  lemma {:induction false} RunWidths(entries: seq<Entry>, shape: seq<nat>)
    requires AllRuns(Axes(entries))
    ensures Widths(RunRows(entries, shape)) == Lengths(Axes(entries))
    ensures |RunRows(entries, shape)| == |Axes(entries)|
    decreases |entries|
  {
    if entries != [] {
      hide RunRows, Axes, AllRuns, Starts, Lengths, StrideOf, Widths;
      var init, last := entries[..|entries| - 1], entries[|entries| - 1];
      assert entries == init + [last];
      RunSnoc(init, last, shape);
      RunWidths(init, shape);
      WidthsConcat(RunRows(init, shape), RunEntry(last, StrideOf(shape, |Axes(init)|)));
      RunEntryWidth(last, StrideOf(shape, |Axes(init)|));
    }
  }

  lemma RunEntryWidth(e: Entry, stride: nat)
    requires e.Axis? ==> AsRun(e.sel).Some?
    ensures Widths(RunEntry(e, stride)) == if e.Axis? then [AsRun(e.sel).value.1] else []
  {
    if e.Axis? {
      assert RunEntry(e, stride)[..0] == [];
    }
  }

  /** Walking the axes on their own adds each index times its stride. */
  lemma {:induction false} RunSums(entries: seq<Entry>, shape: seq<nat>, idx: seq<nat>)
    requires AllRuns(Axes(entries)) && Inside(idx, Lengths(Axes(entries))) && |Axes(entries)| <= |shape|
    requires |RunRows(entries, shape)| == |Axes(entries)|
    ensures SumRows(RunRows(entries, shape), idx) == Dot(idx, shape)
    decreases |entries|
  {
    if entries != [] {
      var init, last := entries[..|entries| - 1], entries[|entries| - 1];
      assert entries == init + [last];
      RunSnoc(init, last, shape);
      RunWidths(init, shape);
      if last.Axis? {
        RunIndex(idx, Lengths(Axes(init)), AsRun(last.sel).value.1);
        RunSums(init, shape, idx[..|Axes(init)|]);
        RunSumsStep(init, last, shape, idx[..|Axes(init)|], idx[|Axes(init)|]);
      } else {
        assert RunRows(entries, shape) == RunRows(init, shape);
        RunSums(init, shape, idx);
      }
    }
  }

  lemma RunSumsStep(init: seq<Entry>, last: Entry, shape: seq<nat>, idx: seq<nat>, i: nat)
    requires last.Axis? && AsRun(last.sel).Some? && i < AsRun(last.sel).value.1
    requires |idx| == |Axes(init)| == |RunRows(init, shape)| && |Axes(init)| < |shape|
    requires RunRows(init + [last], shape) == RunRows(init, shape) + RunEntry(last, StrideOf(shape, |Axes(init)|))
    requires SumRows(RunRows(init, shape), idx) == Dot(idx, shape)
    ensures |RunRows(init + [last], shape)| == |idx| + 1
    ensures SumRows(RunRows(init + [last], shape), idx + [i]) == Dot(idx + [i], shape)
  {
    hide RunRows, StrideOf, SumRows, Dot, RangeRow, Axes;
    var len, stride := AsRun(last.sel).value.1, StrideOf(shape, |Axes(init)|);
    SumRowsSnoc(RunRows(init, shape), RangeRow(len, stride), idx, i);
    DotSnoc(idx, [i], shape);
    RangeAt(len, stride, i);
  }

  lemma RunIndex(idx: seq<nat>, lens: seq<nat>, len: nat)
    requires Inside(idx, lens + [len])
    ensures |idx| == |lens| + 1 && Inside(idx[..|lens|], lens) && idx[|lens|] < len
    ensures idx == idx[..|lens|] + [idx[|lens|]]
  {
    assert (lens + [len])[|lens|] == len;
  }

  lemma RangeAt(len: nat, stride: nat, i: nat)
    requires i < len
    ensures RowAt(RangeRow(len, stride), i) == i * stride
  {
  }

  /** The selection's first element is the run's first element. */
  lemma {:induction false} RunBase(entries: seq<Entry>, shape: seq<nat>)
    requires AllRuns(Axes(entries)) && RunsAll(entries) && |Axes(entries)| <= |shape|
    ensures RestBase(entries, shape) + GroupBase(entries, shape) == Dot(Starts(Axes(entries)), shape)
    decreases |entries|
  {
    if entries != [] {
      var init, last := entries[..|entries| - 1], entries[|entries| - 1];
      assert entries == init + [last];
      RunSnoc(init, last, shape);
      RunBase(init, shape);
      assert Runs(last);
      DotSnoc(Starts(Axes(init)), if last.Axis? then [AsRun(last.sel).value.0] else [], shape);
    }
  }

  lemma {:induction false} RunGrounded(entries: seq<Entry>, shape: seq<nat>)
    requires Fitting(entries, shape)
    ensures Grounded(RunRows(entries, shape)) && Grounded(RestRows(entries, shape))
  {
    if entries != [] {
      var init, last := entries[..|entries| - 1], entries[|entries| - 1];
      RunGrounded(init, shape);
      EntryGrounded(last, StrideOf(shape, |Axes(init)|));
    }
  }

  lemma EntryGrounded(e: Entry, stride: nat)
    requires e.Axis? && e.sel.Indices? ==> e.advanced
    ensures Grounded(RunEntry(e, stride)) && Grounded(EntryRows(e, stride))
  {
  }

  /** What a resolved key says of its entries. */
  lemma {:induction false} EntriesRun(entries: seq<Entry>, shape: seq<nat>)
    requires Fitting(entries, shape) && AllRuns(Axes(entries)) && Positive(Lengths(Axes(entries)))
    ensures RunsAll(entries)
    decreases |entries|
  {
    forall p | 0 <= p < |entries| ensures Runs(entries[p]) {
      if entries[p].Axis? {
        GroupContains(entries, p);
        FitsAt(entries, shape, p);
        assert Lengths(Axes(entries))[|Axes(entries[..p])|] > 0;
      }
    }
  }

  lemma {:induction false} LengthsIn(entries: seq<Entry>, p: nat)
    requires p < |entries| && Joins(entries[p]) && entries[p].sel.Indices?
    ensures |entries[p].sel.list| in GroupLengths(entries)
    decreases |entries|
  {
    if p < |entries| - 1 {
      LengthsIn(entries[..|entries| - 1], p);
    }
  }

  lemma {:induction false} CountsMoving(entries: seq<Entry>, axes: seq<AxisSel>)
    requires Axes(entries) <= axes
    ensures forall i :: 0 <= i < |GroupAxes(entries)| ==> GroupAxes(entries)[i] < |axes|
    ensures CountMoving(axes, GroupAxes(entries)) == MovingCount(entries)
    decreases |entries|
  {
    if entries != [] {
      var init, last := entries[..|entries| - 1], entries[|entries| - 1];
      assert Axes(init) <= Axes(entries);
      CountsMoving(init, axes);
      if Joins(last) {
        assert Axes(entries)[|Axes(init)|] == last.sel;
        assert GroupAxes(entries)[..|GroupAxes(init)|] == GroupAxes(init);
      } else {
        assert GroupAxes(entries) == GroupAxes(init);
      }
    }
  }
}
