/** What a key says, index by index: numpy's rule for each of them, without the
    loop that expands it. */
module KeyMeaning {
  import opened Words
  import opened Selecting
  import opened Expanding
  import Meaning

  /** The axis index `i` is about: counted from the front up to an ellipsis, and from
      the back behind it. */
  ghost function AxisOf(shape: seq<nat>, indices: seq<Index>, i: nat): int
    requires i <= |indices|
  {
    if Ellipses(indices[..i]) == 0 then Consuming(indices[..i]) else |shape| - Consuming(indices[i..])
  }

  /** Axes the key leaves out. */
  ghost function Left(shape: seq<nat>, indices: seq<Index>): int {
    |shape| - Consuming(indices)
  }

  /** Where what index `i` says is found among the entries. */
  ghost function PlaceOf(shape: seq<nat>, indices: seq<Index>, i: nat): int
    requires i <= |indices|
  {
    if Ellipses(indices[..i]) == 0 then i else i - 1 + Left(shape, indices)
  }

  /** Position `p` is the one index `i` names, from the front or from the back. */
  ghost predicate IsNamed(i: i64, dim: nat, p: int) {
    0 <= p < dim && (p == i || p == i + dim)
  }

  /** The range takes what Python's slice takes, from where it starts. */
  ghost predicate TakesSlice(start: Option<i64>, stop: Option<i64>, pace: i64, dim: nat, sel: AxisSel) {
    && pace != 0 && sel.Range? && sel.step == pace
    && (sel.len > 0 ==> sel.start == PythonStart(start, dim, pace))
    && forall x :: SliceTakes(start, stop, pace, dim, x)
              <==> exists k :: 0 <= k < sel.len && x == sel.start + k * pace
  }

  /** What an index says of an axis of `dim` elements. Beside an array, an integer is
      an array of one. */
  ghost predicate Says(index: Index, dim: nat, hasArray: bool, entry: Entry) {
    entry.Axis? &&
    match index
    case Single(i) => entry.sel.Point? && IsNamed(i, dim, entry.sel.index) && entry.advanced == hasArray
    case Fancy(list) =>
      && entry.sel.Indices? && entry.advanced && |entry.sel.list| == |list|
      && forall k :: 0 <= k < |list| ==> IsNamed(list[k], dim, entry.sel.list[k])
    case Slice(start, stop, step) =>
      !entry.advanced && TakesSlice(start, stop, if step.None? then 1 else step.value, dim, entry.sel)
    case _ => false
  }

  /** An index can be taken of an axis of `dim` elements. */
  ghost predicate Fits(index: Index, dim: nat) {
    dim <= I64_MAX &&
    match index
    case Single(i) => 0 <= i + dim && i < dim
    case Fancy(list) => forall k :: 0 <= k < |list| ==> 0 <= list[k] + dim && list[k] < dim
    case Slice(_, _, step) => step != Some(0)
    case _ => false
  }

  /** Why it cannot. */
  ghost function Complaint(index: Index, dim: nat): Error {
    if dim > I64_MAX then AxisTooLong else if index.Slice? then ZeroStep else OutOfBounds
  }

  lemma AxisSays(index: Index, dim: nat, hasArray: bool)
    requires index.ConsumesAxis() && (index.Fancy? ==> hasArray)
    ensures var r := ResolveAxis(index, dim);
      && (r.Ok? <==> Fits(index, dim)) && (r.Err? ==> r.error == Complaint(index, dim))
      && (r.Ok? ==> Says(index, dim, hasArray, Axis(r.value, hasArray && (index.Single? || index.Fancy?))))
  {
    hide ResolveList, SliceTakes, PythonStart, ResolveSlice;
    if dim <= I64_MAX {
      match index {
        case Single(i) =>
        case Slice(start, stop, step) => SliceSelects(start, stop, step, dim);
        case Fancy(list) => ListSays(list, dim);
      }
    }
  }

  lemma {:induction false} ListSays(list: seq<i64>, dim: nat)
    requires dim <= I64_MAX
    ensures var r := ResolveList(list, dim);
      && (r.Ok? <==> forall k :: 0 <= k < |list| ==> 0 <= list[k] + dim && list[k] < dim)
      && (r.Err? ==> r.error == OutOfBounds)
      && (r.Ok? ==> |r.value| == |list| && forall k :: 0 <= k < |list| ==> IsNamed(list[k], dim, r.value[k]))
    decreases |list|
  {
    if list != [] {
      ListSays(list[..|list| - 1], dim);
    }
  }

  lemma {:induction false} EntriesAt(shape: seq<nat>, keys: seq<Key>, hasArray: bool, p: nat)
    requires AxesConsumed(keys) <= |shape| && p < |keys| && Entries(shape, keys, hasArray).Ok?
    ensures AxesConsumed(keys[..p]) + (if keys[p].Consumes() then 1 else 0) <= |shape|
    ensures EntryOf(shape, keys[p], AxesConsumed(keys[..p]), hasArray)
         == Ok(Entries(shape, keys, hasArray).value[p])
    decreases |keys|
  {
    var n := |keys| - 1;
    if p < n {
      EntriesAt(shape, keys[..n], hasArray, p);
      assert keys[..n][..p] == keys[..p];
    }
  }

  lemma SpelledSplit(indices: seq<Index>, implied: nat, i: nat)
    requires i < |indices|
    ensures var keys, before := Spelled(indices, implied), SpelledOut(indices[..i], implied);
      var part := Part(indices[i], implied);
      && |before| + |part| <= |keys|
      && keys[..|before|] == before && keys[|before|..|before| + |part|] == part
  {
    hide SpelledOut, Consuming, Ellipses, Part;
    SpelledNext(indices, implied, i);
    SpelledOutExtends(indices, implied, i + 1);
    var before, part := SpelledOut(indices[..i], implied), Part(indices[i], implied);
    assert before + part <= Spelled(indices, implied);
  }

  lemma SpelledNext(indices: seq<Index>, implied: nat, i: nat)
    requires i < |indices|
    ensures SpelledOut(indices[..i + 1], implied) == SpelledOut(indices[..i], implied) + Part(indices[i], implied)
  {
    SpelledPrefix(indices, implied, i);
  }

  /** Where index `i` stands in the spelled-out key, and which axis that is. */
  lemma Spells(shape: seq<nat>, indices: seq<Index>, i: nat)
    requires Ellipses(indices) <= 1 && Consuming(indices) <= |shape| && i < |indices|
    ensures var keys := Spelled(indices, Left(shape, indices));
      var p := PlaceOf(shape, indices, i);
      && 0 <= p && p + |Part(indices[i], Left(shape, indices))| <= |keys|
      && keys[p..p + |Part(indices[i], Left(shape, indices))|] == Part(indices[i], Left(shape, indices))
      && AxesConsumed(keys[..p]) == AxisOf(shape, indices, i)
  {
    hide AxesConsumed, SpelledOut, Spelled, Consuming, Ellipses, Part;
    var implied := Left(shape, indices);
    SpelledSplit(indices, implied, i);
    SpelledOutExtends(indices, implied, i);
    SpelledOutConsumes(indices[..i], implied);
    SpelledSize(indices[..i], implied);
    ConsumingSplit(indices, i);
    assert Ellipses(indices[..i]) == 0 || Ellipses(indices[..i]) == 1;
  }

  lemma {:induction false} SpelledSize(indices: seq<Index>, implied: nat)
    ensures |SpelledOut(indices, implied)| == |indices| + Ellipses(indices) * (implied - 1)
    decreases |indices|
  {
    if indices != [] {
      var init, last := indices[..|indices| - 1], indices[|indices| - 1];
      SpelledSize(init, implied);
      assert (Ellipses(init) + 1) * (implied - 1) == Ellipses(init) * (implied - 1) + (implied - 1);
    }
  }

  lemma {:induction false} ConsumingSplit(indices: seq<Index>, i: nat)
    requires i <= |indices|
    ensures Consuming(indices) == Consuming(indices[..i]) + Consuming(indices[i..])
    decreases |indices|
  {
    var n := |indices| - 1;
    if i == |indices| {
      assert indices[..i] == indices && indices[i..] == [];
    } else {
      ConsumingSplit(indices[..n], i);
      assert indices[..n][..i] == indices[..i] && indices[i..][..n - i] == indices[..n][i..];
    }
  }

  /** What index `i` of a key comes to, in its place among the entries. */
  ghost predicate Means(shape: seq<nat>, indices: seq<Index>, i: nat, entries: seq<Entry>)
    requires i < |indices|
  {
    var p, axis := PlaceOf(shape, indices, i), AxisOf(shape, indices, i);
    match indices[i]
    case NewAxis => 0 <= p < |entries| && entries[p] == New
    case Ellipsis => AreWhole(shape, axis, entries, p, Left(shape, indices))
    case _ =>
      0 <= p < |entries| && 0 <= axis < |shape| && Says(indices[i], shape[axis], HasArray(indices), entries[p])
  }

  /** The `n` entries from place `p` on take all of the axes from `a` on. */
  ghost predicate AreWhole(shape: seq<nat>, a: int, entries: seq<Entry>, p: int, n: int) {
    && 0 <= p && p + n <= |entries| && 0 <= a && a + n <= |shape|
    && forall k :: p <= k < p + n ==> entries[k] == Axis(Range(0, shape[a + k - p], 1), false)
  }

  lemma IndexMeans(shape: seq<nat>, indices: seq<Index>, i: nat)
    requires Expansion(shape, indices).Ok? && i < |indices| && !indices[i].Ellipsis?
    ensures Means(shape, indices, i, Expansion(shape, indices).value)
  {
    hide AxesConsumed, SpelledOut, Consuming, Entries, PlaceOf, AxisOf, Spelled, Says;
    var implied := Left(shape, indices);
    var keys, p := Spelled(indices, implied), PlaceOf(shape, indices, i);
    SpelledConsumes(indices, implied);
    Spells(shape, indices, i);
    assert keys[p..p + 1][0] == keys[p];
    EntriesAt(shape, keys, HasArray(indices), p);
    if indices[i].ConsumesAxis() {
      AxisSays(indices[i], shape[AxisOf(shape, indices, i)], HasArray(indices));
    }
  }

  lemma WholeMeans(shape: seq<nat>, keys: seq<Key>, hasArray: bool, p: nat, n: nat, k: nat)
    requires AxesConsumed(keys) <= |shape| && Entries(shape, keys, hasArray).Ok?
    requires p <= k < p + n <= |keys| && keys[p..p + n] == Wholes(n)
    ensures AxesConsumed(keys[..p]) + k - p < |shape|
    ensures Entries(shape, keys, hasArray).value[k]
         == Axis(Range(0, shape[AxesConsumed(keys[..p]) + k - p], 1), false)
  {
    hide AxesConsumed, Entries;
    assert keys[k] == keys[p..p + n][k - p] == Whole;
    EntriesAt(shape, keys, hasArray, k);
    WholesBetween(keys, p, n, k);
    ConsumedConcat(keys[..p], Wholes(k - p));
    ConsumedWholes(k - p);
  }

  lemma WholesBetween(keys: seq<Key>, p: nat, n: nat, k: nat)
    requires p <= k <= p + n <= |keys| && keys[p..p + n] == Wholes(n)
    ensures keys[..k] == keys[..p] + Wholes(k - p)
  {
    assert keys[..k] == keys[..p] + keys[p..p + n][..k - p];
    assert Wholes(n)[..k - p] == Wholes(k - p);
  }

  /** Whole axes spelled out from place `p` on are whole axes of the array. */
  lemma WholesMean(shape: seq<nat>, keys: seq<Key>, hasArray: bool, p: nat, n: nat)
    requires AxesConsumed(keys) <= |shape| && Entries(shape, keys, hasArray).Ok?
    requires p + n <= |keys| && keys[p..p + n] == Wholes(n)
    ensures AreWhole(shape, AxesConsumed(keys[..p]), Entries(shape, keys, hasArray).value, p, n)
  {
    hide AxesConsumed, Entries;
    WholesBetween(keys, p, n, p + n);
    ConsumedConcat(keys[..p], Wholes(n));
    ConsumedConcat(keys[..p + n], keys[p + n..]);
    ConsumedWholes(n);
    assert keys == keys[..p + n] + keys[p + n..];
    var entries := Entries(shape, keys, hasArray).value;
    forall k | p <= k < p + n
      ensures entries[k] == Axis(Range(0, shape[AxesConsumed(keys[..p]) + k - p], 1), false)
    {
      WholeMeans(shape, keys, hasArray, p, n, k);
    }
  }

  lemma EllipsisMeans(shape: seq<nat>, indices: seq<Index>, i: nat)
    requires Expansion(shape, indices).Ok? && i < |indices| && indices[i].Ellipsis?
    ensures Means(shape, indices, i, Expansion(shape, indices).value)
  {
    hide AxesConsumed, SpelledOut, Consuming, Entries, PlaceOf, AxisOf, Spelled, AreWhole, Wholes;
    var implied := Left(shape, indices);
    var keys, p := Spelled(indices, implied), PlaceOf(shape, indices, i);
    SpelledConsumes(indices, implied);
    Spells(shape, indices, i);
    WholesSize(implied);
    WholesMean(shape, keys, HasArray(indices), p, implied);
  }

  lemma WholesSize(n: nat)
    ensures |Wholes(n)| == n
  {
  }

  /** A key that expands says of each axis what its own index says, the ones it leaves
      out being taken whole: where its ellipsis stands, or at its end. */
  lemma KeyMeans(shape: seq<nat>, indices: seq<Index>)
    requires Expansion(shape, indices).Ok?
    ensures var entries := Expansion(shape, indices).value;
      && Left(shape, indices) >= 0
      && |entries| == |indices| - Ellipses(indices) + Left(shape, indices)
      && (forall i :: 0 <= i < |indices| ==> Means(shape, indices, i, entries))
      && (Ellipses(indices) == 0 ==> AreWhole(shape, Consuming(indices), entries, |indices|, Left(shape, indices)))
  {
    hide AxesConsumed, SpelledOut, Consuming, Entries, Means, AreWhole, Wholes, Ellipses, Spelled;
    var implied := Left(shape, indices);
    var keys := Spelled(indices, implied);
    SpelledConsumes(indices, implied);
    SpelledSize(indices, implied);
    SpelledApart(indices, implied);
    forall i | 0 <= i < |indices| ensures Means(shape, indices, i, Expansion(shape, indices).value) {
      if indices[i].Ellipsis? {
        EllipsisMeans(shape, indices, i);
      } else {
        IndexMeans(shape, indices, i);
      }
    }
    if Ellipses(indices) == 0 {
      SpelledOutConsumes(indices, implied);
      SpelledApart(indices, implied);
      WholesMean(shape, keys, HasArray(indices), |indices|, implied);
    }
  }

  lemma SpelledApart(indices: seq<Index>, implied: nat)
    ensures |Spelled(indices, implied)|
         == |SpelledOut(indices, implied)| + if Ellipses(indices) == 0 then implied else 0
    ensures Ellipses(indices) == 0 && |SpelledOut(indices, implied)| == |indices| ==>
      && Spelled(indices, implied)[..|indices|] == SpelledOut(indices, implied)
      && Spelled(indices, implied)[|indices|..|indices| + implied] == Wholes(implied)
  {
  }

  lemma {:induction false} EntriesFail(shape: seq<nat>, keys: seq<Key>, hasArray: bool) returns (p: nat)
    requires AxesConsumed(keys) <= |shape| && Entries(shape, keys, hasArray).Err?
    ensures p < |keys| && AxesConsumed(keys[..p]) + (if keys[p].Consumes() then 1 else 0) <= |shape|
    ensures EntryOf(shape, keys[p], AxesConsumed(keys[..p]), hasArray) == Err(Entries(shape, keys, hasArray).error)
    ensures Entries(shape, keys[..p], hasArray).Ok?
    decreases |keys|
  {
    var n := |keys| - 1;
    if Entries(shape, keys[..n], hasArray).Err? {
      p := EntriesFail(shape, keys[..n], hasArray);
      assert keys[..n][..p] == keys[..p];
    } else {
      p := n;
    }
  }

  /** Index `i` cannot be taken of its axis. */
  ghost predicate Misfits(shape: seq<nat>, indices: seq<Index>, i: nat)
    requires i < |indices|
  {
    indices[i].ConsumesAxis() &&
    var axis := AxisOf(shape, indices, i);
    0 <= axis < |shape| && !Fits(indices[i], shape[axis])
  }

  /** A spelled-out key is an index of the key, or a whole axis. */
  lemma {:induction false} SpelledFrom(indices: seq<Index>, implied: nat, p: nat) returns (i: nat)
    requires Ellipses(indices) <= 1 && p < |SpelledOut(indices, implied)|
    ensures SpelledOut(indices, implied)[p].Named? ==>
      && i < |indices| && SpelledOut(indices, implied)[p] == Named(indices[i]) && !indices[i].Ellipsis?
      && p == if Ellipses(indices[..i]) == 0 then i else i - 1 + implied
    decreases |indices|
  {
    var n := |indices| - 1;
    var init := indices[..n];
    i := n;
    if p < |SpelledOut(init, implied)| {
      i := SpelledFrom(init, implied, p);
      assert SpelledOut(indices, implied)[p].Named? ==> init[..i] == indices[..i];
    } else {
      SpelledSize(init, implied);
      assert Ellipses(init) == 0 || Ellipses(init) == 1;
    }
  }

  lemma EntryFails(shape: seq<nat>, key: Key, axis: nat, hasArray: bool)
    requires key.Consumes() ==> axis < |shape|
    requires EntryOf(shape, key, axis, hasArray).Err? && (key.Named? && key.index.Fancy? ==> hasArray)
    ensures key.Named? && key.index.ConsumesAxis() && !Fits(key.index, shape[axis])
    ensures EntryOf(shape, key, axis, hasArray) == Err(Complaint(key.index, shape[axis]))
  {
    hide Fits, Says;
    if key.Named? && key.index.ConsumesAxis() {
      AxisSays(key.index, shape[axis], hasArray);
    }
  }

  /** If a key does not expand though it fits the rank, one of its indices does not fit
      its axis, and the error is that index's. */
  lemma KeyFails(shape: seq<nat>, indices: seq<Index>) returns (i: nat)
    requires Ellipses(indices) <= 1 && Consuming(indices) <= |shape| && Expansion(shape, indices).Err?
    ensures i < |indices| && Misfits(shape, indices, i)
    ensures Expansion(shape, indices).error == Complaint(indices[i], shape[AxisOf(shape, indices, i)])
    ensures Expansion(shape, indices).error != TwoEllipses && Expansion(shape, indices).error != TooManyIndices
  {
    hide AxesConsumed, Consuming, Entries, PlaceOf, AxisOf, Fits, SpelledOut, Ellipses;
    var implied := Left(shape, indices);
    var keys := Spelled(indices, implied);
    SpelledConsumes(indices, implied);
    var p := EntriesFail(shape, keys, HasArray(indices));
    ArrayIfFancy(indices, implied, p);
    EntryFails(shape, keys[p], AxesConsumed(keys[..p]), HasArray(indices));
    i := IndexAt(shape, indices, p);
    Spells(shape, indices, i);
  }

  lemma ArrayIfFancy(indices: seq<Index>, implied: nat, p: nat)
    requires p < |Spelled(indices, implied)|
    ensures var key := Spelled(indices, implied)[p];
      key.Named? && key.index.Fancy? ==> HasArray(indices)
  {
    hide SpelledOut, Ellipses;
    Meaning.SpelledArrays(indices, implied);
    var key := Spelled(indices, implied)[p];
    if key.Named? && key.index.Fancy? {
      assert key in SpelledOut(indices, implied);
      var i :| 0 <= i < |indices| && indices[i] == key.index;
    }
  }

  /** The index a named key at place `p` was spelled from. */
  lemma IndexAt(shape: seq<nat>, indices: seq<Index>, p: nat) returns (i: nat)
    requires Ellipses(indices) <= 1 && Consuming(indices) <= |shape|
    requires p < |Spelled(indices, Left(shape, indices))| && Spelled(indices, Left(shape, indices))[p].Named?
    ensures i < |indices| && !indices[i].Ellipsis? && p == PlaceOf(shape, indices, i)
    ensures Spelled(indices, Left(shape, indices))[p] == Named(indices[i])
  {
    hide SpelledOut, Consuming, Ellipses;
    i := SpelledFrom(indices, Left(shape, indices), p);
  }

  lemma FitsIfOk(shape: seq<nat>, indices: seq<Index>, i: nat)
    requires Expansion(shape, indices).Ok? && i < |indices|
    ensures !Misfits(shape, indices, i)
  {
    hide AxesConsumed, SpelledOut, Consuming, Entries, PlaceOf, AxisOf, Spelled, Fits, Says;
    if indices[i].ConsumesAxis() {
      var implied := Left(shape, indices);
      var keys, p := Spelled(indices, implied), PlaceOf(shape, indices, i);
      SpelledConsumes(indices, implied);
      Spells(shape, indices, i);
      assert keys[p..p + 1][0] == keys[p];
      EntriesAt(shape, keys, HasArray(indices), p);
      AxisSays(indices[i], shape[AxisOf(shape, indices, i)], HasArray(indices));
    }
  }

  /** A key expands exactly if it has one ellipsis at most, enough axes for its indices, and
      an axis that each of them fits. */
  lemma KeyAccepted(shape: seq<nat>, indices: seq<Index>)
    ensures Expansion(shape, indices) == Err(TwoEllipses) <==> Ellipses(indices) > 1
    ensures Expansion(shape, indices) == Err(TooManyIndices) <==>
      Ellipses(indices) <= 1 && Consuming(indices) > |shape|
    ensures Expansion(shape, indices).Ok? <==>
      && Ellipses(indices) <= 1 && Consuming(indices) <= |shape|
      && forall i :: 0 <= i < |indices| ==> !Misfits(shape, indices, i)
  {
    hide Misfits, Consuming, Ellipses, Entries, Spelled, Complaint;
    if Ellipses(indices) <= 1 && Consuming(indices) <= |shape| {
      if Expansion(shape, indices).Err? {
        var i := KeyFails(shape, indices);
      } else {
        forall i | 0 <= i < |indices| ensures !Misfits(shape, indices, i) {
          FitsIfOk(shape, indices, i);
        }
      }
    }
  }
}
