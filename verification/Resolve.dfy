/** Resolving a key: the output shape and the advanced group.

    numpy's rule, over the entries of an expanded key. Slices and new axes
    contribute their own output dimensions, in order. The advanced axes are
    walked in step and contribute one dimension between them: where the first of
    them was if they are adjacent, and in front of everything if they are not. */
module Resolving {
  import opened Words
  import opened Selecting
  import opened Expanding

  /** A group of index arrays and the scalars beside them: one output dimension for all. */
  datatype Advanced = Advanced(axes: seq<nat>, len: nat, adjacent: bool)

  datatype ResolvedSelection = ResolvedSelection(axes: seq<AxisSel>, outShape: seq<nat>, advanced: Option<Advanced>)

  function Axes(entries: seq<Entry>): seq<AxisSel> {
    if entries == [] then []
    else
      var last := entries[|entries| - 1];
      Axes(entries[..|entries| - 1]) + if last.Axis? then [last.sel] else []
  }

  predicate Joins(e: Entry) {
    e.Axis? && e.advanced
  }

  /** Source axes in the advanced group, in axis order. */
  function GroupAxes(entries: seq<Entry>): seq<nat> {
    if entries == [] then []
    else
      var init := entries[..|entries| - 1];
      GroupAxes(init) + if Joins(entries[|entries| - 1]) then [|Axes(init)|] else []
  }

  /** Where in the key the members of the group sit. */
  function GroupPositions(entries: seq<Entry>): seq<nat> {
    if entries == [] then []
    else
      var n := |entries| - 1;
      GroupPositions(entries[..n]) + if Joins(entries[n]) then [n] else []
  }

  /** The group's positions are exactly its members' positions, in order. */
  lemma {:induction false} GroupMembers(entries: seq<Entry>)
    ensures var ps := GroupPositions(entries);
      && |ps| == |GroupAxes(entries)|
      && (forall j :: 0 <= j < |ps| ==> ps[j] < |entries| && Joins(entries[ps[j]]))
      && (forall i, j :: 0 <= i < j < |ps| ==> ps[i] < ps[j])
      && (forall p :: 0 <= p < |entries| && Joins(entries[p]) ==> p in ps)
  {
    if entries != [] {
      GroupMembers(entries[..|entries| - 1]);
    }
  }

  /** The first of the group. */
  lemma GroupFirst(entries: seq<Entry>, p: nat)
    requires p < |entries|
    ensures var ps := GroupPositions(entries);
      && (ps != [] ==> ps[0] < |entries| && Joins(entries[ps[0]]))
      && (Joins(entries[p]) ==> ps != [] && ps[0] <= p)
  {
    GroupMembers(entries);
  }

  /** The lengths of the index arrays. A plain integer broadcasts against anything. */
  function GroupLengths(entries: seq<Entry>): seq<nat> {
    if entries == [] then []
    else
      var last := entries[|entries| - 1];
      GroupLengths(entries[..|entries| - 1])
      + if Joins(last) && last.sel.Indices? then [|last.sel.list|] else []
  }

  predicate Adjacent(positions: seq<nat>) {
    forall j :: 0 < j < |positions| ==> positions[j] == positions[j - 1] + 1
  }

  /** Entry `q` stands between two members of the group without being one. */
  ghost predicate Between(entries: seq<Entry>, q: nat) {
    && q < |entries| && !Joins(entries[q])
    && (exists p :: 0 <= p < q && Joins(entries[p])) && (exists r :: q < r < |entries| && Joins(entries[r]))
  }

  /** The group is in one place exactly when nothing else stands between its members. */
  lemma AdjacentIsTogether(entries: seq<Entry>)
    ensures Adjacent(GroupPositions(entries)) <==> forall q :: !Between(entries, q)
  {
    hide GroupPositions, Adjacent;
    if Adjacent(GroupPositions(entries)) {
      forall p, q, r | 0 <= p < q < r < |entries| && Joins(entries[p]) && Joins(entries[r])
        ensures Joins(entries[q])
      {
        MembersBetween(entries, p, q, r);
      }
    } else {
      var q := SomethingBetween(entries);
    }
  }

  lemma MembersBetween(entries: seq<Entry>, p: nat, q: nat, r: nat)
    requires Adjacent(GroupPositions(entries)) && p < q < r < |entries| && Joins(entries[p]) && Joins(entries[r])
    ensures Joins(entries[q])
  {
    hide GroupPositions, Adjacent;
    var ps := GroupPositions(entries);
    GroupMembers(entries);
    var i :| 0 <= i < |ps| && ps[i] == p;
    var j :| 0 <= j < |ps| && ps[j] == r;
    assert ps[j] <= ps[|ps| - 1];
    Stepping(ps, i, q);
  }

  lemma SomethingBetween(entries: seq<Entry>) returns (q: nat)
    requires !Adjacent(GroupPositions(entries))
    ensures Between(entries, q)
  {
    hide GroupPositions, Between;
    var ps := GroupPositions(entries);
    var j :| 0 < j < |ps| && ps[j] != ps[j - 1] + 1;
    q := ps[j - 1] + 1;
    GroupOrdered(entries, j, q);
    IsBetween(entries, ps[j - 1], q, ps[j]);
  }

  lemma IsBetween(entries: seq<Entry>, p: nat, q: nat, r: nat)
    requires p < q < r < |entries| && Joins(entries[p]) && !Joins(entries[q]) && Joins(entries[r])
    ensures Between(entries, q)
  {
  }

  /** Of two members one after the other, neither is what stands between them. */
  lemma GroupOrdered(entries: seq<Entry>, j: nat, q: nat)
    requires 0 < j < |GroupPositions(entries)|
    requires GroupPositions(entries)[j] != GroupPositions(entries)[j - 1] + 1 == q
    ensures var ps := GroupPositions(entries);
      ps[j - 1] < q < ps[j] < |entries| && Joins(entries[ps[j - 1]]) && Joins(entries[ps[j]]) && !Joins(entries[q])
  {
    hide GroupPositions;
    GroupMembers(entries);
    InTheGap(GroupPositions(entries), j, q);
  }

  lemma InTheGap(ps: seq<nat>, j: nat, q: nat)
    requires 0 < j < |ps| && ps[j - 1] < q < ps[j]
    requires forall i, k :: 0 <= i < k < |ps| ==> ps[i] < ps[k]
    ensures q !in ps
  {
    forall i | 0 <= i < |ps| ensures ps[i] != q {
      assert i <= j - 1 || i >= j;
    }
  }

  /** Positions that follow on from one another leave none out. */
  lemma {:induction false} Stepping(ps: seq<nat>, i: nat, q: nat)
    requires i < |ps| && Adjacent(ps) && ps[i] <= q <= ps[|ps| - 1]
    ensures q in ps
    decreases q - ps[i]
  {
    if q > ps[i] {
      if i + 1 < |ps| {
        assert ps[i + 1] == ps[i + 1 - 1] + 1;
        Stepping(ps, i + 1, q);
      }
    }
  }

  /** Index arrays broadcast when all those longer or shorter than 1 agree. */
  ghost predicate Broadcastable(lengths: seq<nat>) {
    forall i, j :: 0 <= i < |lengths| && 0 <= j < |lengths| && lengths[i] != 1 && lengths[j] != 1
      ==> lengths[i] == lengths[j]
  }

  ghost predicate Broadcasts(lengths: seq<nat>, len: nat) {
    && (forall i :: 0 <= i < |lengths| ==> lengths[i] == 1 || lengths[i] == len)
    && (len == 1 || len in lengths)
  }

  /** The output dimensions of everything outside the group. */
  function Rest(entries: seq<Entry>): seq<nat> {
    if entries == [] then [] else Rest(entries[..|entries| - 1]) + OwnDims(entries[|entries| - 1])
  }

  function OwnDims(e: Entry): seq<nat> {
    match e
    case New => [1]
    case Axis(sel, advanced) => if advanced || sel.Point? then [] else [sel.Len()]
  }

  /** The output dimension the group contributes. */
  function GroupAt(entries: seq<Entry>): (g: nat)
    requires GroupPositions(entries) != []
    ensures g <= |Rest(entries)|
  {
    var ps := GroupPositions(entries);
    GroupMembers(entries);
    RestPrefix(entries, ps[0]);
    if Adjacent(ps) then |Rest(entries[..ps[0]])| else 0
  }

  lemma {:induction false} RestPrefix(entries: seq<Entry>, p: nat)
    requires p <= |entries|
    ensures Rest(entries[..p]) <= Rest(entries)
    decreases |entries|
  {
    if p == |entries| {
      assert entries[..p] == entries;
    } else {
      var n := |entries| - 1;
      RestPrefix(entries[..n], p);
      assert entries[..n][..p] == entries[..p];
    }
  }

  function OutShape(entries: seq<Entry>, len: nat): seq<nat> {
    var rest := Rest(entries);
    if GroupPositions(entries) == [] then rest
    else rest[..GroupAt(entries)] + [len] + rest[GroupAt(entries)..]
  }

  /** What a resolved selection says of an expanded key. */
  ghost predicate Describes(sel: ResolvedSelection, entries: seq<Entry>) {
    && sel.axes == Axes(entries)
    && (sel.advanced.None? <==> GroupAxes(entries) == [])
    && (sel.advanced.None? ==> sel.outShape == OutShape(entries, 1))
    && (sel.advanced.Some? ==>
          var a := sel.advanced.value;
          && a.axes == GroupAxes(entries)
          && Broadcasts(GroupLengths(entries), a.len)
          && a.adjacent == Adjacent(GroupPositions(entries))
          && sel.outShape == OutShape(entries, a.len))
  }

  /** The length the arrays of a group have in common, lengths of 1 aside. */
  method BroadcastLen(lengths: seq<nat>) returns (r: Result<nat, Error>)
    ensures r.Ok? <==> Broadcastable(lengths)
    ensures r.Ok? ==> Broadcasts(lengths, r.value)
    ensures r.Err? ==> r.error == NotBroadcastable
  {
    var result := 1;
    for i := 0 to |lengths|
      invariant Broadcasts(lengths[..i], result) && Broadcastable(lengths[..i])
    {
      var len := lengths[i];
      assert lengths[..i + 1] == lengths[..i] + [len];
      if len == 1 {
        continue;
      }
      if result != 1 && result != len {
        var j :| 0 <= j < i && lengths[j] == result;
        return Err(NotBroadcastable);
      }
      result := len;
    }
    assert lengths[..|lengths|] == lengths;
    r := Ok(result);
  }

  /** The output shape, with the entries from `p` on not yet pushed. */
  ghost function ShapeSoFar(entries: seq<Entry>, len: nat, p: nat): seq<nat>
    requires p <= |entries|
  {
    var ps, rest := GroupPositions(entries), Rest(entries[..p]);
    if ps == [] then rest
    else if !Adjacent(ps) then [len] + rest
    else if p <= ps[0] then rest
    else
      var before := Rest(entries[..ps[0]]);
      before + [len] + if |before| <= |rest| then rest[|before|..] else []
  }

  lemma ShapeStep(entries: seq<Entry>, len: nat, p: nat)
    requires p < |entries|
    ensures ShapeSoFar(entries, len, p + 1) == ShapeSoFar(entries, len, p)
      + if !Joins(entries[p]) then OwnDims(entries[p])
        else
          var ps := GroupPositions(entries);
          if ps != [] && Adjacent(ps) && p == ps[0] then [len] else []
  {
    var ps, own := GroupPositions(entries), OwnDims(entries[p]);
    var rest := Rest(entries[..p]);
    RestStep(entries, p);
    GroupFirst(entries, p);
    hide Rest, Adjacent, OwnDims, GroupPositions;
    if ps != [] && Adjacent(ps) {
      if ps[0] <= p {
        var before := Rest(entries[..ps[0]]);
        RestPrefix(entries[..p], ps[0]);
        assert entries[..p][..ps[0]] == entries[..ps[0]];
        TailGrow(before, [len], rest, own);
      }
    } else {
      TailGrow([], [len], rest, own);
    }
  }

  lemma RestStep(entries: seq<Entry>, p: nat)
    requires p < |entries|
    ensures Rest(entries[..p + 1]) == Rest(entries[..p]) + OwnDims(entries[p])
    ensures Joins(entries[p]) ==> OwnDims(entries[p]) == []
  {
    assert entries[..p + 1][..p] == entries[..p];
  }

  lemma TailGrow(before: seq<nat>, mid: seq<nat>, rest: seq<nat>, own: seq<nat>)
    requires before <= rest
    ensures before + mid + (rest + own)[|before|..] == (before + mid + rest[|before|..]) + own
    ensures mid + (rest + own) == (mid + rest) + own
    ensures before <= rest + own && rest + [] == rest && rest[|rest|..] == []
    ensures before + mid == before + mid + []
  {
    assert (rest + own)[|before|..] == rest[|before|..] + own;
  }

  lemma ShapeDone(entries: seq<Entry>, len: nat)
    ensures ShapeSoFar(entries, len, |entries|) == OutShape(entries, len)
  {
    assert entries[..|entries|] == entries;
    GroupMembers(entries);
    hide Rest, GroupPositions, Adjacent;
    var ps := GroupPositions(entries);
    if ps != [] {
      RestPrefix(entries, ps[0]);
      assert [] + [len] + Rest(entries) == [len] + Rest(entries);
      assert Rest(entries)[..|Rest(entries[..ps[0]])|] == Rest(entries[..ps[0]]);
    }
  }

  /** The shape of the result, pushed dimension by dimension. */
  method PushShape(entries: seq<Entry>, advanced: Option<Advanced>, ghost len: nat) returns (shape: seq<nat>)
    requires advanced.None? <==> GroupPositions(entries) == []
    requires advanced.Some? ==> advanced.value.len == len
    requires advanced.Some? ==> advanced.value.adjacent == Adjacent(GroupPositions(entries))
    ensures shape == OutShape(entries, len)
  {
    hide Rest, Adjacent, ShapeSoFar, GroupPositions;
    ghost var ps := GroupPositions(entries);
    shape := if advanced.Some? && !advanced.value.adjacent then [advanced.value.len] else [];
    var first: Option<nat> := None;
    ShapeStart(entries, len);
    for p := 0 to |entries|
      invariant first == (if ps != [] && ps[0] < p then Some(ps[0]) else None)
      invariant shape == ShapeSoFar(entries, len, p)
    {
      ShapeStep(entries, len, p);
      GroupFirst(entries, p);
      match entries[p] {
        case New => shape := shape + [1];
        case Axis(sel, true) =>
          if first.None? {
            first := Some(p);
            if advanced.value.adjacent {
              shape := shape + [advanced.value.len];
            }
          }
        case Axis(sel, false) =>
          if !sel.Point? {
            shape := shape + [sel.Len()];
          }
      }
    }
    ShapeDone(entries, len);
  }

  lemma ShapeStart(entries: seq<Entry>, len: nat)
    ensures ShapeSoFar(entries, len, 0)
         == if GroupPositions(entries) != [] && !Adjacent(GroupPositions(entries)) then [len] else []
  {
    assert entries[..0] == [];
  }

  /** Normalise `indices` against `shape`. */
  method Resolve(shape: seq<nat>, indices: seq<Index>) returns (r: Result<ResolvedSelection, Error>)
    ensures Expansion(shape, indices).Err? ==> r == Err(Expansion(shape, indices).error)
    ensures Expansion(shape, indices).Ok? ==>
      var entries := Expansion(shape, indices).value;
      if !Broadcastable(GroupLengths(entries)) then r == Err(NotBroadcastable)
      else r.Ok? && Describes(r.value, entries)
  {
    var expanded := Expand(shape, indices);
    if expanded.Err? {
      return Err(expanded.error);
    }
    var entries := expanded.value;
    var axes, group, positions, lengths := [], [], [], [];
    for p := 0 to |entries|
      invariant axes == Axes(entries[..p]) && group == GroupAxes(entries[..p])
      invariant positions == GroupPositions(entries[..p]) && lengths == GroupLengths(entries[..p])
    {
      assert entries[..p + 1][..p] == entries[..p];
      if entries[p].Axis? {
        if entries[p].advanced {
          group, positions := group + [|axes|], positions + [p];
          if entries[p].sel.Indices? {
            lengths := lengths + [|entries[p].sel.list|];
          }
        }
        axes := axes + [entries[p].sel];
      }
    }
    assert entries[..|entries|] == entries;
    GroupMembers(entries);
    hide Axes, GroupAxes, GroupPositions, GroupLengths, Rest, OutShape;
    var advanced: Option<Advanced> := None;
    NoGroup(entries);
    if group != [] {
      var len := BroadcastLen(lengths);
      if len.Err? {
        return Err(len.error);
      }
      advanced := Some(Advanced(group, len.value, Adjacent(positions)));
    }
    var outShape := PushShape(entries, advanced, if advanced.Some? then advanced.value.len else 1);
    r := Ok(ResolvedSelection(axes, outShape, advanced));
  }

  lemma {:induction false} NoGroup(entries: seq<Entry>)
    ensures GroupAxes(entries) == [] ==> GroupLengths(entries) == [] && GroupPositions(entries) == []
  {
    if entries != [] {
      NoGroup(entries[..|entries| - 1]);
    }
  }
}
