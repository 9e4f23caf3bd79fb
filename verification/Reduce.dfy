/** The geometry of a reduction: the axes that go, and the cell each element
    projects on. */
module Reducing {
  import opened Words
  import opened Radix

  datatype Axes = All | One(axis: int) | Many(axes: seq<int>)

  /** The position an `axis` entry stands for, once it is folded. */
  function AxisNumber(a: int, ndim: nat): int {
    if a < 0 then a + ndim else a
  }

  /** Entry `a` asks for axis `d`: by its position, or counted back from the last. */
  ghost predicate Picks(a: int, ndim: nat, d: nat) {
    d == a || d == a + ndim
  }

  ghost predicate Within(axes: seq<int>, ndim: nat) {
    forall k :: 0 <= k < |axes| ==> 0 <= axes[k] + ndim && axes[k] < ndim
  }

  /** Two entries ask for one axis: they are equal, or `ndim` apart. */
  ghost predicate Clash(a: int, b: int, ndim: nat) {
    a == b || a == b + ndim || b == a + ndim
  }

  ghost predicate Distinct(axes: seq<int>, ndim: nat) {
    forall j, k :: 0 <= j < k < |axes| ==> !Clash(axes[j], axes[k], ndim)
  }

  ghost predicate Names(axes: seq<int>, ndim: nat, d: nat) {
    exists k :: 0 <= k < |axes| && Picks(axes[k], ndim, d)
  }

  /** numpy's rules for `axis`: in bounds, none twice, and no tuple where a
      position is asked for. */
  ghost predicate Accepted(axis: Axes, ndim: nat, positional: bool) {
    match axis
    case All => true
    case One(a) => 0 <= a + ndim && a < ndim
    case Many(axes) => !positional && Within(axes, ndim) && Distinct(axes, ndim)
  }

  ghost predicate Reduces(axis: Axes, ndim: nat, d: nat) {
    match axis
    case All => true
    case One(a) => Picks(a, ndim, d)
    case Many(axes) => Names(axes, ndim, d)
  }

  /** Folding an entry finds the one axis it asks for. */
  lemma FoldedPicks(a: int, ndim: nat, d: nat)
    requires d < ndim
    ensures Picks(a, ndim, d) <==> AxisNumber(a, ndim) == d
    ensures 0 <= AxisNumber(a, ndim) < ndim <==> 0 <= a + ndim && a < ndim
  {
  }

  /** Mark the axes an argument names, or refuse the argument. */
  method ReducedAxes(ndim: nat, axis: Axes, positional: bool) returns (reduced: Result<seq<bool>, string>)
    ensures reduced.Ok? <==> Accepted(axis, ndim, positional)
    ensures reduced.Ok? ==> |reduced.value| == ndim
    ensures reduced.Ok? ==> forall d :: 0 <= d < ndim ==> (reduced.value[d] <==> Reduces(axis, ndim, d))
  {
    if axis.All? {
      return Ok(seq(ndim, _ => true));
    }
    if axis.Many? && positional {
      return Err("a single axis, not a tuple");
    }
    if axis.One? {
      reduced := Marked([axis.axis], ndim);
      OneAxis(axis.axis, ndim);
    } else {
      reduced := Marked(axis.axes, ndim);
    }
  }

  lemma OneAxis(a: int, ndim: nat)
    ensures Within([a], ndim) <==> 0 <= a + ndim && a < ndim
    ensures Distinct([a], ndim)
    ensures forall d :: Names([a], ndim, d) <==> Picks(a, ndim, d)
  {
    assert [a][0] == a;
    forall d: nat ensures Names([a], ndim, d) <==> Picks(a, ndim, d) {
      if Picks(a, ndim, d) {
        assert Picks([a][0], ndim, d);
      }
    }
  }

  /** Mark each axis named, once. */
  method Marked(axes: seq<int>, ndim: nat) returns (marked: Result<seq<bool>, string>)
    ensures marked.Ok? <==> Within(axes, ndim) && Distinct(axes, ndim)
    ensures marked.Ok? ==> |marked.value| == ndim
    ensures marked.Ok? ==> forall d :: 0 <= d < ndim ==> (marked.value[d] <==> Names(axes, ndim, d))
  {
    hide Distinct, Names;
    var marks := seq(ndim, _ => false);
    NothingMarked(ndim);
    assert axes[..0] == [];
    for k := 0 to |axes|
      invariant |marks| == ndim
      invariant Within(axes[..k], ndim) && Distinct(axes[..k], ndim)
      invariant forall d :: 0 <= d < ndim ==> (marks[d] <==> Names(axes[..k], ndim, d))
    {
      var d := AxisNumber(axes[k], ndim);
      assert axes[..k + 1] == axes[..k] + [axes[k]];
      if d < 0 || d >= ndim {
        return Err("axis out of bounds");
      }
      FoldedPicks(axes[k], ndim, d);
      if marks[d] {
        Repeated(axes, ndim, k, d);
        return Err("repeated axis");
      }
      MarkMore(axes[..k], axes[k], ndim, d);
      marks := marks[d := true];
    }
    assert axes[..|axes|] == axes;
    marked := Ok(marks);
  }

  lemma NothingMarked(ndim: nat)
    ensures Within([], ndim) && Distinct([], ndim) && forall d :: !Names([], ndim, d)
  {
  }

  lemma Repeated(axes: seq<int>, ndim: nat, k: nat, d: nat)
    requires k < |axes| && d < ndim && Picks(axes[k], ndim, d) && Names(axes[..k], ndim, d)
    ensures !Distinct(axes, ndim)
  {
    var j :| 0 <= j < |axes[..k]| && Picks(axes[..k][j], ndim, d);
    assert Clash(axes[j], axes[k], ndim);
  }

  lemma MarkMore(axes: seq<int>, a: int, ndim: nat, n: nat)
    requires n < ndim && Picks(a, ndim, n) && !Names(axes, ndim, n)
    requires Within(axes, ndim) && Distinct(axes, ndim)
    ensures Within(axes + [a], ndim) && Distinct(axes + [a], ndim)
    ensures forall d :: 0 <= d < ndim ==> (Names(axes + [a], ndim, d) <==> Names(axes, ndim, d) || d == n)
  {
    var more := axes + [a];
    forall j | 0 <= j < |axes| ensures !Clash(axes[j], a, ndim) {
      assert !Picks(axes[j], ndim, n);
    }
    forall d | 0 <= d < ndim ensures Names(more, ndim, d) <==> Names(axes, ndim, d) || d == n {
      if Names(axes, ndim, d) {
        var k :| 0 <= k < |axes| && Picks(axes[k], ndim, d);
        assert Picks(more[k], ndim, d);
      } else if d == n {
        assert Picks(more[|axes|], ndim, d);
      }
    }
  }

  ghost function KeptCount(reduced: seq<bool>): nat {
    if reduced == [] then 0 else (if reduced[0] then 0 else 1) + KeptCount(reduced[1..])
  }

  /** The coordinates, or the lengths, of the axes that stay. */
  ghost function Kept(s: seq<nat>, reduced: seq<bool>): (kept: seq<nat>)
    requires |s| == |reduced|
    ensures |kept| == KeptCount(reduced)
    decreases |s|
  {
    if s == [] then []
    else (if reduced[0] then [] else [s[0]]) + Kept(s[1..], reduced[1..])
  }

  ghost function Strides(shape: seq<nat>, reduced: seq<bool>): (stride: seq<nat>)
    requires |shape| == |reduced|
    ensures |stride| == |shape|
    decreases |shape|
  {
    if shape == [] then []
    else [if reduced[0] then 0 else Product(Kept(shape[1..], reduced[1..]))] + Strides(shape[1..], reduced[1..])
  }

  /** The strides of the result, 0 on reduced axes, and its cell count, both wrapping. */
  method StridesAndCells(shape: seq<nat>, reduced: seq<bool>) returns (stride: seq<nat>, cells: nat)
    requires |shape| == |reduced|
    ensures stride == WrappedAll(Strides(shape, reduced)) && cells == Wrap(Product(Kept(shape, reduced)))
  {
    hide Product, Kept, Strides, Wrap;
    stride, cells := seq(|shape|, _ => 0), 1;
    var d: nat := |shape|;
    NoAxes(shape, reduced);
    WrapOne();
    while d > 0
      invariant d <= |shape| == |stride|
      invariant stride[d..] == WrappedAll(Strides(shape[d..], reduced[d..]))
      invariant cells == Wrap(Product(Kept(shape[d..], reduced[d..])))
      invariant forall k :: 0 <= k < d ==> stride[k] == 0
    {
      d := d - 1;
      OneMoreAxis(shape, reduced, d);
      if !reduced[d] {
        assert stride[d := cells][d..] == [cells] + stride[d + 1..];
        WrapTwice(Product(Kept(shape[d + 1..], reduced[d + 1..])));
        WrapTimes(cells, shape[d]);
        WrapTimes(Product(Kept(shape[d + 1..], reduced[d + 1..])), shape[d]);
        stride := stride[d := cells];
        cells := Wrap(cells * shape[d]);
      } else {
        assert stride[d..] == [0] + stride[d + 1..];
      }
    }
    assert stride[0..] == stride && shape[0..] == shape && reduced[0..] == reduced;
  }

  lemma WrapOne()
    ensures Wrap(1) == 1 && Wrap(0) == 0
  {
  }

  /** Where every axis has elements and a word can count the cells, no stride wraps. */
  lemma {:induction false} StridesFit(shape: seq<nat>, reduced: seq<bool>)
    requires |shape| == |reduced| && Positive(shape) && Product(Kept(shape, reduced)) < U64
    ensures WrappedAll(Strides(shape, reduced)) == Strides(shape, reduced)
    decreases |shape|
  {
    if shape != [] {
      hide Product, Kept, Strides, Wrap;
      KeptFront(shape, reduced);
      StridesFit(shape[1..], reduced[1..]);
      WrapOne();
      assert Strides(shape, reduced)[1..] == Strides(shape[1..], reduced[1..]);
      var stride, wrapped := Strides(shape, reduced), WrappedAll(Strides(shape, reduced));
      forall d | 0 <= d < |stride| ensures wrapped[d] == stride[d] {
        if d > 0 {
          assert WrappedAll(stride[1..])[d - 1] == wrapped[d] && stride[1..][d - 1] == stride[d];
        }
      }
    }
  }

  lemma KeptFront(shape: seq<nat>, reduced: seq<bool>)
    requires |shape| == |reduced| && shape != [] && Positive(shape) && Product(Kept(shape, reduced)) < U64
    ensures Positive(shape[1..]) && Product(Kept(shape[1..], reduced[1..])) < U64
    ensures Strides(shape, reduced)
         == [if reduced[0] then 0 else Product(Kept(shape[1..], reduced[1..]))] + Strides(shape[1..], reduced[1..])
    ensures Wrap(Product(Kept(shape[1..], reduced[1..]))) == Product(Kept(shape[1..], reduced[1..]))
  {
    hide Product;
    var rest := Product(Kept(shape[1..], reduced[1..]));
    assert shape[0..] == shape && reduced[0..] == reduced;
    OneMoreAxis(shape, reduced, 0);
    assert shape[0] > 0;
    assert rest <= rest * shape[0] by { MulLe(1, shape[0], rest); }
  }

  /** The axes that stay and the ones that go multiply to all of them. */
  lemma {:induction false} KeptTimesReduced(shape: seq<nat>, reduced: seq<bool>, others: seq<bool>)
    requires |shape| == |reduced| == |others| && forall d :: 0 <= d < |reduced| ==> others[d] == !reduced[d]
    ensures Product(shape) == Product(Kept(shape, reduced)) * Product(Kept(shape, others))
    decreases |shape|
  {
    if shape != [] {
      hide Product;
      KeptTimesReduced(shape[1..], reduced[1..], others[1..]);
      assert shape[0..] == shape && reduced[0..] == reduced && others[0..] == others;
      OneMoreAxis(shape, reduced, 0);
      OneMoreAxis(shape, others, 0);
      ProductFront(shape[0], shape[1..]);
      assert [shape[0]] + shape[1..] == shape;
      Regroup(Product(Kept(shape[1..], reduced[1..])), Product(Kept(shape[1..], others[1..])), shape[0]);
    }
  }

  lemma Regroup(a: nat, b: nat, x: nat)
    ensures a * b * x == (a * x) * b == a * (b * x)
  {
  }

  lemma NoAxes(shape: seq<nat>, reduced: seq<bool>)
    requires |shape| == |reduced|
    ensures Strides(shape[|shape|..], reduced[|shape|..]) == []
    ensures Product(Kept(shape[|shape|..], reduced[|shape|..])) == 1
  {
  }

  lemma OneMoreAxis(shape: seq<nat>, reduced: seq<bool>, d: nat)
    requires d < |shape| == |reduced|
    ensures var rest := Product(Kept(shape[d + 1..], reduced[d + 1..]));
      && Strides(shape[d..], reduced[d..])
         == [if reduced[d] then 0 else rest] + Strides(shape[d + 1..], reduced[d + 1..])
      && Product(Kept(shape[d..], reduced[d..])) == if reduced[d] then rest else rest * shape[d]
  {
    var s, r := shape[d..], reduced[d..];
    assert s[1..] == shape[d + 1..] && r[1..] == reduced[d + 1..];
    if !reduced[d] {
      ProductFront(shape[d], Kept(s[1..], r[1..]));
    } else {
      assert [] + Kept(s[1..], r[1..]) == Kept(s[1..], r[1..]);
    }
  }

  lemma ProductFront(x: nat, rest: seq<nat>)
    ensures Product([x] + rest) == Product(rest) * x
  {
    ProductSplit([x], rest);
    assert [x][..0] == [] && Product([x]) == x;
  }

  ghost function Dot(idx: seq<nat>, stride: seq<nat>): nat
    requires |idx| == |stride|
    decreases |idx|
  {
    if idx == [] then 0 else idx[0] * stride[0] + Dot(idx[1..], stride[1..])
  }

  /** The cell an element is in is its index with the reduced axes left out. */
  lemma {:induction false} CellIsProjection(idx: seq<nat>, shape: seq<nat>, reduced: seq<bool>)
    requires |idx| == |shape| == |reduced|
    ensures |Kept(idx, reduced)| == |Kept(shape, reduced)|
    ensures Dot(idx, Strides(shape, reduced)) == Ravel(Kept(idx, reduced), Kept(shape, reduced))
    decreases |idx|
  {
    if idx != [] {
      CellIsProjection(idx[1..], shape[1..], reduced[1..]);
      var k, ks := Kept(idx[1..], reduced[1..]), Kept(shape[1..], reduced[1..]);
      assert Strides(shape, reduced)[1..] == Strides(shape[1..], reduced[1..]);
      if reduced[0] {
        assert [] + k == k && [] + ks == ks;
      } else {
        RavelFront(idx[0], k, shape[0], ks);
      }
    }
  }

  lemma RavelFront(x: nat, idx: seq<nat>, d: nat, dims: seq<nat>)
    requires |idx| == |dims|
    ensures Ravel([x] + idx, [d] + dims) == x * Product(dims) + Ravel(idx, dims)
  {
    hide Ravel, Product;
    RavelSplit([x], idx, [d], dims);
    RavelOne(x, d);
  }

  lemma RavelOne(x: nat, d: nat)
    ensures Ravel([x], [d]) == x
  {
    assert [x][..0] == [] && [d][..0] == [];
  }

  lemma {:induction false} KeptInside(idx: seq<nat>, shape: seq<nat>, reduced: seq<bool>)
    requires Inside(idx, shape) && |shape| == |reduced|
    ensures Inside(Kept(idx, reduced), Kept(shape, reduced))
    decreases |idx|
  {
    if idx != [] {
      KeptInside(idx[1..], shape[1..], reduced[1..]);
      var k, ks := Kept(idx[1..], reduced[1..]), Kept(shape[1..], reduced[1..]);
      if reduced[0] {
        assert [] + k == k && [] + ks == ks;
      } else {
        InsideFront(idx[0], k, shape[0], ks);
      }
    }
  }

  lemma InsideFront(x: nat, idx: seq<nat>, d: nat, dims: seq<nat>)
    requires x < d && Inside(idx, dims)
    ensures Inside([x] + idx, [d] + dims)
  {
  }

  /** An element of a cell: the cell's own coordinates, and zero where reduced. */
  ghost function Lifted(kept: seq<nat>, reduced: seq<bool>): (idx: seq<nat>)
    ensures |idx| == |reduced|
    decreases |reduced|
  {
    if reduced == [] then []
    else if reduced[0] then [0] + Lifted(kept, reduced[1..])
    else if kept == [] then [0] + Lifted([], reduced[1..])
    else [kept[0]] + Lifted(kept[1..], reduced[1..])
  }

  lemma {:induction false} LiftedKept(kept: seq<nat>, shape: seq<nat>, reduced: seq<bool>)
    requires |shape| == |reduced| && Inside(kept, Kept(shape, reduced)) && Positive(shape)
    ensures Inside(Lifted(kept, reduced), shape) && Kept(Lifted(kept, reduced), reduced) == kept
    decreases |shape|
  {
    if shape != [] {
      var ks := Kept(shape[1..], reduced[1..]);
      if reduced[0] {
        assert [] + ks == ks;
        LiftedKept(kept, shape[1..], reduced[1..]);
        assert Lifted(kept, reduced)[1..] == Lifted(kept, reduced[1..]);
        assert [] + Kept(Lifted(kept, reduced[1..]), reduced[1..]) == kept;
      } else {
        assert Kept(shape, reduced)[1..] == ks;
        LiftedKept(kept[1..], shape[1..], reduced[1..]);
        assert Lifted(kept, reduced)[1..] == Lifted(kept[1..], reduced[1..]);
        assert [kept[0]] + kept[1..] == kept;
      }
    }
  }
}
