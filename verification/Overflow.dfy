/** Selections whose unchecked sums and products leave a word: one of each kind. */
module Overflows {
  import opened Words
  import opened Radix
  import opened Selecting
  import opened Expanding
  import opened Resolving
  import opened Meaning
  import opened Walks
  import opened Planning
  import opened Contiguity
  import opened Elements
  import opened Layouts

  const P15: nat := 0x8000
  const P39: nat := 0x80_0000_0000
  const P40: nat := 0x100_0000_0000
  const P50: nat := 0x4_0000_0000_0000

  lemma TwoSpelled(a: Index, b: Index)
    requires a.ConsumesAxis() && b.ConsumesAxis()
    ensures Ellipses([a, b]) == 0 && Consuming([a, b]) == 2
    ensures Spelled([a, b], 0) == [Named(a), Named(b)]
  {
    var key := [a, b];
    assert key[..1] == [a] && [a][..0] == [];
    assert Ellipses([a]) == 0 && Consuming([a]) == 1 && SpelledOut([a], 0) == [Named(a)];
    assert SpelledOut(key, 0) == [Named(a)] + [Named(b)] && Wholes(0) == [];
  }

  /** A key of two indices, each about its own axis. */
  lemma TwoIndices(shape: seq<nat>, a: Index, b: Index)
    requires |shape| == 2 && a.ConsumesAxis() && b.ConsumesAxis()
    requires EntryOf(shape, Named(a), 0, HasArray([a, b])).Ok? && EntryOf(shape, Named(b), 1, HasArray([a, b])).Ok?
    ensures Expansion(shape, [a, b])
         == Ok([EntryOf(shape, Named(a), 0, HasArray([a, b])).value,
                EntryOf(shape, Named(b), 1, HasArray([a, b])).value])
  {
    hide EntryOf, HasArray, Spelled, SpelledOut, Consuming, Ellipses;
    TwoSpelled(a, b);
    TwoKeys(shape, Named(a), Named(b), HasArray([a, b]));
  }

  lemma TwoKeys(shape: seq<nat>, a: Key, b: Key, hasArray: bool)
    requires |shape| == 2 && a.Consumes() && b.Consumes()
    requires EntryOf(shape, a, 0, hasArray).Ok? && EntryOf(shape, b, 1, hasArray).Ok?
    ensures AxesConsumed([a, b]) == 2
    ensures Entries(shape, [a, b], hasArray)
         == Ok([EntryOf(shape, a, 0, hasArray).value, EntryOf(shape, b, 1, hasArray).value])
  {
    hide EntryOf;
    FirstEntry(shape, a, hasArray);
    assert [a, b][..1] == [a];
    var x, y := EntryOf(shape, a, 0, hasArray).value, EntryOf(shape, b, 1, hasArray).value;
    assert [x] + [y] == [x, y];
  }

  lemma FirstEntry(shape: seq<nat>, key: Key, hasArray: bool)
    requires |shape| > 0 && key.Consumes() && EntryOf(shape, key, 0, hasArray).Ok?
    ensures AxesConsumed([key]) == 1
    ensures Entries(shape, [key], hasArray) == Ok([EntryOf(shape, key, 0, hasArray).value])
  {
    hide EntryOf;
    assert [key][..0] == [] && AxesConsumed([]) == 0 && Entries(shape, [], hasArray) == Ok([]);
    var entry := EntryOf(shape, key, 0, hasArray).value;
    assert [] + [entry] == [entry];
  }

  lemma TwoEntries(a: Entry, b: Entry)
    requires a.Axis? && b.Axis?
    ensures Axes([a, b]) == [a.sel, b.sel] && Rest([a, b]) == OwnDims(a) + OwnDims(b)
    ensures GroupAxes([a, b]) == (if a.advanced then [0] else []) + if b.advanced then [1] else []
    ensures GroupPositions([a, b]) == (if a.advanced then [0] else []) + if b.advanced then [1] else []
  {
    assert [a, b][..1] == [a] && [a][..0] == [];
    assert Axes([a]) == [a.sel] && Rest([a]) == OwnDims(a);
    assert GroupAxes([a]) == if a.advanced then [0] else [];
    assert GroupPositions([a]) == if a.advanced then [0] else [];
  }

  lemma TwoLengths(a: Entry, b: Entry)
    requires a.Axis? && b.Axis? && a.advanced && a.sel.Indices? && !b.advanced
    ensures GroupLengths([a, b]) == [|a.sel.list|]
  {
    assert [a, b][..1] == [a] && [a][..0] == [];
    assert GroupLengths([a]) == [|a.sel.list|];
  }

  lemma TwoSides(a: nat, b: nat)
    ensures Product([a, b]) == a * b
    ensures StrideOf([a, b], 0) == b && StrideOf([a, b], 1) == 1
  {
    assert [a, b][..1] == [a] && [a][..0] == [];
    assert Product([a]) == a;
    assert [a, b][1..] == [b] && [b][..0] == [] && [a, b][2..] == [];
    assert Product([b]) == b;
  }

  function Zeros(n: nat): (zeros: seq<i64>)
    ensures |zeros| == n && forall k :: 0 <= k < n ==> zeros[k] == 0
  {
    seq(n, _ => 0)
  }

  lemma ZerosEntry(n: nat, dim: nat)
    requires 0 < dim <= I64_MAX
    ensures ResolveList(Zeros(n), dim).Ok? && |ResolveList(Zeros(n), dim).value| == n
    ensures ResolveAxis(Fancy(Zeros(n)), dim) == Ok(Indices(ResolveList(Zeros(n), dim).value))
  {
    hide ResolveList;
    assert NormalizeIndex(0, dim) == Ok(0);
  }

  lemma WholeSlice(dim: nat)
    requires 0 < dim <= I64_MAX
    ensures ResolveAxis(Slice(None, None, None), dim) == Ok(Range(0, dim, 1))
  {
  }

  /** 2^15 picks of a row of 2^50 elements are 2^65 elements, and no bytes: the count
      wraps to 0 and the selection is served as an empty one. */
  lemma ManyRowsVanish()
    ensures var shape := [2, P50];
      var expanded := Expansion(shape, [Fancy(Zeros(P15)), Slice(None, None, None)]);
      && expanded.Ok? && Broadcastable(GroupLengths(expanded.value))
      && var sel := SelectionOf(expanded.value);
      && Addressable(shape, sel.axes, GroupOf(sel))
      && Product(sel.outShape) == P15 * P50 > U64 && Wrap(Product(sel.outShape)) == 0
  {
    hide ResolveList, ResolveAxis, GroupLengths, GroupAxes, GroupPositions, Axes, Rest, Expansion, Product, StrideOf,
         SelectionOf, Describes, Zeros;
    var shape: seq<nat>, a, b := [2, P50], Fancy(Zeros(P15)), Slice(None, None, None);
    assert [a, b][0].Fancy? && HasArray([a, b]);
    ZerosEntry(P15, 2);
    WholeSlice(P50);
    var list := ResolveList(Zeros(P15), 2).value;
    var first, second := Axis(Indices(list), true), Axis(Range(0, P50, 1), false);
    assert EntryOf(shape, Named(a), 0, true) == Ok(first);
    assert EntryOf(shape, Named(b), 1, true) == Ok(second);
    TwoIndices(shape, a, b);
    var entries := [first, second];
    TwoEntries(first, second);
    TwoLengths(first, second);
    var sel := SelectionOf(entries);
    OneGroup(entries, sel);
    TwoSides(P15, P50);
    TwoSides(2, P50);
  }

  /** The selection of a group that comes first and is a single array. */
  lemma OneGroup(entries: seq<Entry>, sel: ResolvedSelection)
    requires Describes(sel, entries) && GroupPositions(entries) == [0] && GroupAxes(entries) == [0]
    requires GroupLengths(entries) == [P15] && Rest(entries) == [P50]
    ensures sel.outShape == [P15, P50] && GroupOf(sel) == [0] && sel.axes == Axes(entries)
  {
    assert GroupLengths(entries)[0] == P15;
    assert entries[..0] == [];
  }

  /** Two rows high up in a sparse array: the walk's base wraps to 0, and the first two
      rows are served instead. */
  lemma HighRowsWrap()
    ensures var shape := [P40, P40];
      var expanded := Expansion(shape, [Slice(Some(P39), Some(P39 + 2), None), Slice(Some(0), Some(1), None)]);
      && expanded.Ok? && var entries := expanded.value;
      && |Axes(entries)| == 2 && OutShape(entries, 1) == [2, 1]
      && Addressable(shape, Axes(entries), []) && !Empty(Axes(entries)) && !OneRun(shape, Axes(entries))
      && RestBase(entries, shape) == Element(entries, shape, 1, 0) == P39 * P40 > U64
      && Wrap(RestBase(entries, shape)) == 0
  {
    hide ResolveAxis, GroupAxes, GroupPositions, Axes, Rest, Expansion, StrideOf, Element, OutShape, RestBase, OneRun,
        Empty,
         Lengths, Product;
    var shape: seq<nat> := [P40, P40];
    var a, b := Slice(Some(P39), Some(P39 + 2), None), Slice(Some(0), Some(1), None);
    var first, second := Axis(Range(P39, 2, 1), false), Axis(Range(0, 1, 1), false);
    HighSlices();
    assert EntryOf(shape, Named(a), 0, HasArray([a, b])) == Ok(first);
    assert EntryOf(shape, Named(b), 1, HasArray([a, b])) == Ok(second);
    TwoIndices(shape, a, b);
    TwoEntries(first, second);
    TwoSides(P40, P40);
    HighElement(first, second);
    HighBase(first, second);
    HighGaps(first.sel, second.sel);
  }

  lemma HighSlices()
    ensures ResolveAxis(Slice(Some(P39), Some(P39 + 2), None), P40) == Ok(Range(P39, 2, 1))
    ensures ResolveAxis(Slice(Some(0), Some(1), None), P40) == Ok(Range(0, 1, 1))
  {
  }

  lemma HighBase(first: Entry, second: Entry)
    requires first == Axis(Range(P39, 2, 1), false) && second == Axis(Range(0, 1, 1), false)
    ensures RestBase([first, second], [P40, P40]) == P39 * P40
  {
    hide Product, StrideOf;
    TwoSides(P40, P40);
    assert [first, second][..1] == [first] && [first][..0] == [];
    assert Axes([first]) == [first.sel];
    assert RestBase([first], [P40, P40]) == P39 * P40;
  }

  lemma HighGaps(first: AxisSel, second: AxisSel)
    requires first == Range(P39, 2, 1) && second == Range(0, 1, 1)
    ensures !Empty([first, second]) && !OneRun([P40, P40], [first, second])
  {
    var axes := [first, second];
    assert AsRun(axes[0]) == Some((P39, 2)) && AsRun(axes[1]) == Some((0, 1));
    assert Lengths(axes)[0] == 2 && Lengths(axes)[1] == 1;
  }

  lemma HighElement(first: Entry, second: Entry)
    requires first == Axis(Range(P39, 2, 1), false) && second == Axis(Range(0, 1, 1), false)
    ensures |Axes([first, second])| == 2 && OutShape([first, second], 1) == [2, 1]
    ensures Element([first, second], [P40, P40], 1, 0) == P39 * P40
  {
    TwoEntries(first, second);
    UnravelTwo();
    HighSource(first, second);
    HighFlat();
    assert OwnDims(first) == [2] && OwnDims(second) == [1] && [2] + [1] == [2, 1];
  }

  lemma UnravelTwo()
    ensures Unravel(0, [2, 1]) == [0, 0]
  {
    assert [2, 1][..1] == [2] && [2][..0] == [];
    assert Unravel(0, [2]) == [0];
  }

  lemma HighSource(first: Entry, second: Entry)
    requires first == Axis(Range(P39, 2, 1), false) && second == Axis(Range(0, 1, 1), false)
    ensures |Rest([first, second])| == 2 && Source([first, second], [0, 0], 0) == [P39, 0]
  {
    TwoEntries(first, second);
    assert [first, second][..1] == [first] && [first][..0] == [] && [0, 0][..1] == [0];
    assert Rest([first]) == [2] && Source([first], [0], 0) == [P39];
  }

  lemma HighFlat()
    ensures Flat([P39, 0], [P40, P40]) == P39 * P40
  {
    assert [P39, 0][..1] == [P39] && [P40, P40][..1] == [P40] && [P39][..0] == [] && [P40][..0] == [];
    assert Flat([P39], [P40]) == P39;
  }

  /** Half way into 2^62 elements of 8 bytes, read through a cast: the read starts at
      the first element instead. */
  lemma CastStartsOver()
    ensures StartsAt(0, 0x2000_0000_0000_0000, 8)
  {
  }
}
