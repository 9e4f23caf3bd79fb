/** Expanding a key until every axis of the array is mentioned once. */
module Expanding {
  import opened Words
  import opened Selecting

  /** An index of the key, or an axis it leaves out and so takes whole. */
  datatype Key = Named(index: Index) | Whole {
    predicate Consumes() { Whole? || index.ConsumesAxis() }
  }

  function Consuming(indices: seq<Index>): nat {
    if indices == [] then 0
    else Consuming(indices[..|indices| - 1]) + if indices[|indices| - 1].ConsumesAxis() then 1 else 0
  }

  function Ellipses(indices: seq<Index>): nat {
    if indices == [] then 0
    else Ellipses(indices[..|indices| - 1]) + if indices[|indices| - 1].Ellipsis? then 1 else 0
  }

  predicate HasArray(indices: seq<Index>) {
    exists i :: 0 <= i < |indices| && indices[i].Fancy?
  }

  function Wholes(n: nat): seq<Key> {
    seq(n, _ => Whole)
  }

  /** The key with its ellipsis spelled out as `implied` whole axes. */
  function SpelledOut(indices: seq<Index>, implied: nat): seq<Key> {
    if indices == [] then []
    else
      var last := indices[|indices| - 1];
      SpelledOut(indices[..|indices| - 1], implied) + if last.Ellipsis? then Wholes(implied) else [Named(last)]
  }

  /** Every axis mentioned: `implied` whole ones stand in for the ellipsis, or follow
      the key if it has none. */
  function Spelled(indices: seq<Index>, implied: nat): seq<Key> {
    SpelledOut(indices, implied) + if Ellipses(indices) == 0 then Wholes(implied) else []
  }

  /** Axes the keys consume, so the axis the next one is about. */
  function AxesConsumed(keys: seq<Key>): nat {
    if keys == [] then 0
    else AxesConsumed(keys[..|keys| - 1]) + if keys[|keys| - 1].Consumes() then 1 else 0
  }

  /** Normalise an index array, failing on its first bad index. */
  function ResolveList(list: seq<i64>, dim: nat): (r: Result<seq<nat>, Error>)
    requires dim <= I64_MAX
    ensures r.Ok? <==> forall k :: 0 <= k < |list| ==> NormalizeIndex(list[k], dim).Ok?
    ensures r.Ok? ==> |r.value| == |list|
    ensures r.Ok? ==> forall k :: 0 <= k < |list| ==> NormalizeIndex(list[k], dim) == Ok(r.value[k])
  {
    if list == [] then Ok([])
    else
      match ResolveList(list[..|list| - 1], dim)
      case Err(e) => Err(e)
      case Ok(init) =>
        match NormalizeIndex(list[|list| - 1], dim)
        case Err(e) => Err(e)
        case Ok(i) => Ok(init + [i])
  }

  /** What an index says of an axis of `dim` elements, or why it cannot. */
  function ResolveAxis(index: Index, dim: nat): Result<AxisSel, Error>
    requires index.ConsumesAxis()
  {
    if dim > I64_MAX then Err(AxisTooLong)
    else
      match index
      case Single(i) => (match NormalizeIndex(i, dim) case Ok(p) => Ok(Point(p)) case Err(e) => Err(e))
      case Fancy(list) => (match ResolveList(list, dim) case Ok(l) => Ok(Indices(l)) case Err(e) => Err(e))
      case Slice(start, stop, step) => ResolveSlice(start, stop, step, dim)
  }

  /** What one key says of axis `axis`. With an array anywhere in the key, its
      scalars join the group too. */
  function EntryOf(shape: seq<nat>, key: Key, axis: nat, hasArray: bool): Result<Entry, Error>
    requires key.Consumes() ==> axis < |shape|
  {
    match key
    case Whole => Ok(Axis(Range(0, shape[axis], 1), false))
    case Named(index) =>
      if !index.ConsumesAxis() then Ok(New)
      else
        match ResolveAxis(index, shape[axis])
        case Err(e) => Err(e)
        case Ok(sel) => Ok(Axis(sel, hasArray && (index.Single? || index.Fancy?)))
  }

  function Entries(shape: seq<nat>, keys: seq<Key>, hasArray: bool): (r: Result<seq<Entry>, Error>)
    requires AxesConsumed(keys) <= |shape|
    ensures r.Ok? ==> |r.value| == |keys|
    decreases |keys|
  {
    if keys == [] then Ok([])
    else
      var init, last := keys[..|keys| - 1], keys[|keys| - 1];
      match Entries(shape, init, hasArray)
      case Err(e) => Err(e)
      case Ok(entries) =>
        match EntryOf(shape, last, AxesConsumed(init), hasArray)
        case Err(e) => Err(e)
        case Ok(entry) => Ok(entries + [entry])
  }

  /** What a key means for each of its positions. */
  function Expansion(shape: seq<nat>, indices: seq<Index>): Result<seq<Entry>, Error> {
    if Ellipses(indices) > 1 then Err(TwoEllipses)
    else if Consuming(indices) > |shape| then Err(TooManyIndices)
    else
      SpelledConsumes(indices, |shape| - Consuming(indices));
      Entries(shape, Spelled(indices, |shape| - Consuming(indices)), HasArray(indices))
  }

  lemma {:induction false} ConsumedConcat(a: seq<Key>, b: seq<Key>)
    ensures AxesConsumed(a + b) == AxesConsumed(a) + AxesConsumed(b)
  {
    if b == [] {
      assert a + b == a;
    } else {
      ConsumedConcat(a, b[..|b| - 1]);
      assert (a + b)[..|a + b| - 1] == a + b[..|b| - 1];
    }
  }

  lemma {:induction false} ConsumedWholes(n: nat)
    ensures AxesConsumed(Wholes(n)) == n
  {
    if n > 0 {
      ConsumedWholes(n - 1);
      assert Wholes(n)[..n - 1] == Wholes(n - 1);
    }
  }

  lemma {:induction false} SpelledOutConsumes(indices: seq<Index>, implied: nat)
    ensures AxesConsumed(SpelledOut(indices, implied)) == Consuming(indices) + Ellipses(indices) * implied
    decreases |indices|
  {
    if indices != [] {
      var init, last := indices[..|indices| - 1], indices[|indices| - 1];
      SpelledOutConsumes(init, implied);
      ConsumedWholes(implied);
      assert AxesConsumed([Named(last)]) == if last.ConsumesAxis() then 1 else 0 by {
        assert [Named(last)][..0] == [];
      }
      ConsumedConcat(SpelledOut(init, implied), if last.Ellipsis? then Wholes(implied) else [Named(last)]);
      assert (Ellipses(init) + 1) * implied == Ellipses(init) * implied + implied;
    }
  }

  /** However it is spelled, a key that fits accounts for every axis. */
  lemma SpelledConsumes(indices: seq<Index>, implied: nat)
    requires Ellipses(indices) <= 1
    ensures AxesConsumed(Spelled(indices, implied)) == Consuming(indices) + implied
  {
    SpelledOutConsumes(indices, implied);
    ConsumedWholes(implied);
    ConsumedConcat(SpelledOut(indices, implied), if Ellipses(indices) == 0 then Wholes(implied) else []);
  }

  /** A failure anywhere is the failure of the whole key. */
  lemma {:induction false} EntriesConcat(shape: seq<nat>, a: seq<Key>, b: seq<Key>, hasArray: bool)
    requires AxesConsumed(a + b) <= |shape|
    ensures AxesConsumed(a) <= |shape|
    ensures Entries(shape, a, hasArray).Err? ==> Entries(shape, a + b, hasArray) == Entries(shape, a, hasArray)
    decreases |b|
  {
    ConsumedConcat(a, b);
    if b == [] {
      assert a + b == a;
    } else {
      assert (a + b)[..|a + b| - 1] == a + b[..|b| - 1];
      EntriesConcat(shape, a, b[..|b| - 1], hasArray);
    }
  }

  lemma SpelledPrefix(indices: seq<Index>, implied: nat, i: nat)
    requires i < |indices|
    ensures SpelledOut(indices[..i + 1], implied)
         == SpelledOut(indices[..i], implied) + if indices[i].Ellipsis? then Wholes(implied) else [Named(indices[i])]
    ensures Consuming(indices[..i + 1]) == Consuming(indices[..i]) + if indices[i].ConsumesAxis() then 1 else 0
    ensures Ellipses(indices[..i + 1]) == Ellipses(indices[..i]) + if indices[i].Ellipsis? then 1 else 0
  {
    assert indices[..i + 1][..i] == indices[..i];
  }

  lemma {:induction false} SpelledOutExtends(indices: seq<Index>, implied: nat, i: nat)
    requires i <= |indices|
    ensures SpelledOut(indices[..i], implied) <= SpelledOut(indices, implied)
    ensures Consuming(indices[..i]) <= Consuming(indices) && Ellipses(indices[..i]) <= Ellipses(indices)
    decreases |indices| - i
  {
    if i == |indices| {
      assert indices[..i] == indices;
    } else {
      SpelledPrefix(indices, implied, i);
      SpelledOutExtends(indices, implied, i + 1);
    }
  }

  /** A prefix of the spelled key, and the keys after it. */
  lemma EntriesPrefix(shape: seq<nat>, keys: seq<Key>, a: seq<Key>, hasArray: bool)
    requires a <= keys && AxesConsumed(keys) <= |shape|
    ensures AxesConsumed(a) <= |shape|
    ensures Entries(shape, a, hasArray).Err? ==> Entries(shape, keys, hasArray) == Entries(shape, a, hasArray)
  {
    assert keys == a + keys[|a|..];
    EntriesConcat(shape, a, keys[|a|..], hasArray);
  }

  lemma EntriesSnoc(shape: seq<nat>, keys: seq<Key>, key: Key, hasArray: bool)
    requires AxesConsumed(keys + [key]) <= |shape|
    ensures AxesConsumed(keys + [key]) == AxesConsumed(keys) + if key.Consumes() then 1 else 0
    ensures Entries(shape, keys, hasArray).Ok? ==>
      var entry := EntryOf(shape, key, AxesConsumed(keys), hasArray);
      Entries(shape, keys + [key], hasArray)
      == if entry.Err? then Err(entry.error) else Ok(Entries(shape, keys, hasArray).value + [entry.value])
  {
    assert (keys + [key])[..|keys|] == keys;
  }

  /** The loop over the key; it computes `Expansion`. */
  method Expand(shape: seq<nat>, indices: seq<Index>) returns (r: Result<seq<Entry>, Error>)
    ensures r == Expansion(shape, indices)
  {
    var consuming, hasEllipsis, hasArray := 0, false, false;
    for i := 0 to |indices|
      invariant consuming == Consuming(indices[..i])
      invariant Ellipses(indices[..i]) == if hasEllipsis then 1 else 0
      invariant hasArray <==> HasArray(indices[..i])
    {
      SpelledPrefix(indices, 0, i);
      SpelledOutExtends(indices, 0, i + 1);
      if indices[i].Ellipsis? {
        if hasEllipsis {
          return Err(TwoEllipses);
        }
        hasEllipsis := true;
      } else {
        hasArray := hasArray || indices[i].Fancy?;
        if indices[i].ConsumesAxis() {
          consuming := consuming + 1;
        }
      }
      assert indices[..i + 1] == indices[..i] + [indices[i]];
    }
    assert indices[..|indices|] == indices;
    if consuming > |shape| {
      return Err(TooManyIndices);
    }
    r := SpellEntries(shape, indices, |shape| - consuming, hasEllipsis, hasArray);
  }

  lemma NoWholes(keys: seq<Key>)
    ensures keys + Wholes(0) == keys
  {
  }

  lemma NextWhole(shape: seq<nat>, keys: seq<Key>, i: nat, hasArray: bool)
    requires AxesConsumed(keys + Wholes(i)) < |shape|
    requires Entries(shape, keys + Wholes(i), hasArray).Ok?
    ensures AxesConsumed(keys + Wholes(i + 1)) == AxesConsumed(keys + Wholes(i)) + 1
    ensures Entries(shape, keys + Wholes(i + 1), hasArray)
         == Ok(Entries(shape, keys + Wholes(i), hasArray).value
               + [Axis(Range(0, shape[AxesConsumed(keys + Wholes(i))], 1), false)])
  {
    var next := keys + Wholes(i);
    assert keys + Wholes(i + 1) == next + [Whole];
    assert (next + [Whole])[..|next|] == next;
  }

  /** The whole axes an ellipsis, or the end of the key, stands for. */
  method PushWholes(shape: seq<nat>, entries: seq<Entry>, axis: nat, n: nat, ghost keys: seq<Key>, hasArray: bool)
    returns (entries': seq<Entry>, axis': nat)
    requires AxesConsumed(keys) == axis && axis + n <= |shape|
    requires Entries(shape, keys, hasArray) == Ok(entries)
    ensures axis' == axis + n == AxesConsumed(keys + Wholes(n))
    ensures Entries(shape, keys + Wholes(n), hasArray) == Ok(entries')
  {
    hide AxesConsumed, Entries, Wholes;
    entries', axis' := entries, axis;
    NoWholes(keys);
    for i := 0 to n
      invariant axis' == axis + i == AxesConsumed(keys + Wholes(i))
      invariant Entries(shape, keys + Wholes(i), hasArray) == Ok(entries')
    {
      NextWhole(shape, keys, i, hasArray);
      entries' := entries' + [Axis(Range(0, shape[axis'], 1), false)];
      axis' := axis' + 1;
    }
  }

  /** What one index of the key is spelled out as. */
  function Part(index: Index, implied: nat): seq<Key> {
    if index.Ellipsis? then Wholes(implied) else [Named(index)]
  }

  datatype Spelling = Spelling(entries: seq<Entry>, axis: nat)

  /** `s` is what the spelled keys before here say. */
  ghost predicate SaysSo(s: Spelling, shape: seq<nat>, keys: seq<Key>, hasArray: bool) {
    AxesConsumed(keys) == s.axis <= |shape| && Entries(shape, keys, hasArray) == Ok(s.entries)
  }

  method SpellOne(shape: seq<nat>, index: Index, implied: nat, hasArray: bool, s: Spelling, ghost keys: seq<Key>)
    returns (r: Result<Spelling, Error>)
    requires SaysSo(s, shape, keys, hasArray) && AxesConsumed(keys + Part(index, implied)) <= |shape|
    ensures if r.Ok? then SaysSo(r.value, shape, keys + Part(index, implied), hasArray)
            else Entries(shape, keys + Part(index, implied), hasArray) == Err(r.error)
  {
    match index {
      case NewAxis =>
        EntriesSnoc(shape, keys, Named(index), hasArray);
        r := Ok(Spelling(s.entries + [New], s.axis));
      case Ellipsis =>
        ConsumedConcat(keys, Wholes(implied));
        ConsumedWholes(implied);
        var entries, axis := PushWholes(shape, s.entries, s.axis, implied, keys, hasArray);
        r := Ok(Spelling(entries, axis));
      case _ =>
        EntriesSnoc(shape, keys, Named(index), hasArray);
        var sel := ResolveAxis(index, shape[s.axis]);
        if sel.Err? {
          return Err(sel.error);
        }
        r := Ok(Spelling(s.entries + [Axis(sel.value, hasArray && (index.Single? || index.Fancy?))], s.axis + 1));
    }
  }

  /** A prefix of the key leaves room for the axes after it, and fails for the whole. */
  lemma SpelledRoom(shape: seq<nat>, indices: seq<Index>, implied: nat, i: nat, hasArray: bool)
    requires Consuming(indices) + implied == |shape| && Ellipses(indices) <= 1 && i < |indices|
    ensures var next := SpelledOut(indices[..i], implied) + Part(indices[i], implied);
      && next == SpelledOut(indices[..i + 1], implied)
      && AxesConsumed(next) <= |shape| == AxesConsumed(Spelled(indices, implied))
      && (Entries(shape, next, hasArray).Err? ==>
            Entries(shape, Spelled(indices, implied), hasArray) == Entries(shape, next, hasArray))
  {
    hide AxesConsumed, Entries;
    SpelledConsumes(indices, implied);
    SpelledPrefix(indices, implied, i);
    SpelledOutExtends(indices, implied, i + 1);
    EntriesPrefix(shape, Spelled(indices, implied), SpelledOut(indices[..i + 1], implied), hasArray);
  }

  lemma SpelledStart(shape: seq<nat>, indices: seq<Index>, implied: nat, hasArray: bool)
    ensures SaysSo(Spelling([], 0), shape, SpelledOut(indices[..0], implied), hasArray)
  {
    assert indices[..0] == [];
  }

  lemma SpelledEnd(indices: seq<Index>, implied: nat)
    ensures Spelled(indices, implied)
         == if Ellipses(indices) == 0 then SpelledOut(indices[..|indices|], implied) + Wholes(implied)
            else SpelledOut(indices[..|indices|], implied)
  {
    assert indices[..|indices|] == indices;
  }

  method SpellEntries(shape: seq<nat>, indices: seq<Index>, implied: nat, hasEllipsis: bool, hasArray: bool)
    returns (r: Result<seq<Entry>, Error>)
    requires Consuming(indices) + implied == |shape|
    requires Ellipses(indices) == if hasEllipsis then 1 else 0
    ensures AxesConsumed(Spelled(indices, implied)) == |shape|
    ensures r == Entries(shape, Spelled(indices, implied), hasArray)
  {
    hide AxesConsumed, Entries, SpelledOut, Wholes, Part, Spelled, Consuming, Ellipses;
    SpelledConsumes(indices, implied);
    SpelledEnd(indices, implied);
    SpelledStart(shape, indices, implied, hasArray);
    var s := Spelling([], 0);
    for i := 0 to |indices|
      invariant SaysSo(s, shape, SpelledOut(indices[..i], implied), hasArray)
    {
      SpelledRoom(shape, indices, implied, i, hasArray);
      var next := SpellOne(shape, indices[i], implied, hasArray, s, SpelledOut(indices[..i], implied));
      if next.Err? {
        return Err(next.error);
      }
      s := next.value;
    }
    if !hasEllipsis {
      ghost var keys := SpelledOut(indices[..|indices|], implied);
      ConsumedConcat(keys, Wholes(implied));
      ConsumedWholes(implied);
      var entries, axis := PushWholes(shape, s.entries, s.axis, implied, keys, hasArray);
      s := Spelling(entries, axis);
    }
    r := Ok(s.entries);
  }
}
