/** Mixed-radix numbers: the C-order number of a multi-index, and back.

    Selections, chunk grids and reductions all turn a position in a flattened
    array into one coordinate per axis. The arithmetic is stated once, here. */
module Radix {

  function Product(dims: seq<nat>): nat {
    if dims == [] then 1 else Product(dims[..|dims| - 1]) * dims[|dims| - 1]
  }

  /** `idx` names an element of an array of shape `dims`. */
  ghost predicate Inside(idx: seq<nat>, dims: seq<nat>) {
    |idx| == |dims| && forall i :: 0 <= i < |idx| ==> idx[i] < dims[i]
  }

  ghost predicate Positive(dims: seq<nat>) {
    forall i :: 0 <= i < |dims| ==> dims[i] > 0
  }

  /** The C-order number of `idx`, as the fold `n * d + c` computes it. */
  function Ravel(idx: seq<nat>, dims: seq<nat>): nat
    requires |idx| == |dims|
  {
    if dims == [] then 0
    else Ravel(idx[..|idx| - 1], dims[..|dims| - 1]) * dims[|dims| - 1] + idx[|idx| - 1]
  }

  /** The coordinates of element `n`, last axis fastest. */
  ghost function Unravel(n: nat, dims: seq<nat>): (idx: seq<nat>)
    requires Positive(dims)
    ensures |idx| == |dims|
    decreases |dims|
  {
    if dims == [] then []
    else
      var d := dims[|dims| - 1];
      Unravel(n / d, dims[..|dims| - 1]) + [n % d]
  }

  lemma InsideSplit(idx: seq<nat>, a: seq<nat>, b: seq<nat>)
    requires Inside(idx, a + b)
    ensures Inside(idx[..|a|], a) && Inside(idx[|a|..], b)
    ensures idx == idx[..|a|] + idx[|a|..]
  {
  }

  lemma MulLe(a: nat, b: nat, d: nat)
    requires a <= b
    ensures a * d <= b * d
  {
  }

  lemma RemainderUnique(k: int, s: nat, r: nat, d: nat)
    requires r == k * d + s && s < d && r < d
    ensures k == 0
  {
  }

  lemma DivModUnique(q: nat, r: nat, d: nat)
    requires r < d
    ensures (q * d + r) / d == q && (q * d + r) % d == r
  {
    var n := q * d + r;
    assert n == (n / d) * d + n % d;
    assert r == (n / d - q) * d + n % d;
    RemainderUnique(n / d - q, n % d, r, d);
  }

  lemma QuotientBound(q: nat, r: nat, p: nat, d: nat)
    requires q * d + r < p * d && r < d
    ensures q < p
  {
  }

  lemma DigitBound(q: nat, p: nat, r: nat, d: nat)
    requires q < p && r < d
    ensures q * d + r < p * d
  {
    MulLe(q + 1, p, d);
  }

  lemma Horner(x: nat, p: nat, y: nat, d: nat)
    ensures (x * p + y) * d == x * (p * d) + y * d
  {
    assert (x * p) * d == x * (p * d);
  }

  lemma {:induction false} ProductPositive(dims: seq<nat>)
    ensures Positive(dims) <==> Product(dims) > 0
  {
    if dims != [] {
      var init, d := dims[..|dims| - 1], dims[|dims| - 1];
      ProductPositive(init);
      assert Positive(dims) <==> Positive(init) && d > 0;
      if Product(init) > 0 && d > 0 {
        assert Product(init) * d > 0;
      } else {
        assert Product(init) * d == 0;
      }
    }
  }

  lemma {:induction false} ProductSplit(a: seq<nat>, b: seq<nat>)
    ensures Product(a + b) == Product(a) * Product(b)
  {
    if b == [] {
      assert a + b == a;
    } else {
      var init, d := b[..|b| - 1], b[|b| - 1];
      ProductSplit(a, init);
      assert (a + b)[..|a + b| - 1] == a + init;
      assert Product(a) * Product(init) * d == Product(a) * (Product(init) * d);
    }
  }

  lemma {:induction false} RavelBound(idx: seq<nat>, dims: seq<nat>)
    requires Inside(idx, dims)
    ensures Ravel(idx, dims) < Product(dims)
  {
    if dims != [] {
      var i, d := idx[..|idx| - 1], dims[..|dims| - 1];
      RavelBound(i, d);
      DigitBound(Ravel(i, d), Product(d), idx[|idx| - 1], dims[|dims| - 1]);
    }
  }

  lemma {:induction false} RavelUnravel(n: nat, dims: seq<nat>)
    requires Positive(dims)
    requires n < Product(dims)
    ensures Inside(Unravel(n, dims), dims)
    ensures Ravel(Unravel(n, dims), dims) == n
    decreases |dims|
  {
    if dims != [] {
      var init, d := dims[..|dims| - 1], dims[|dims| - 1];
      assert n == n / d * d + n % d;
      QuotientBound(n / d, n % d, Product(init), d);
      RavelUnravel(n / d, init);
      assert Unravel(n, dims)[..|dims| - 1] == Unravel(n / d, init);
    }
  }

  lemma UnravelSnoc(n: nat, dims: seq<nat>, d: nat)
    requires Positive(dims) && d > 0
    ensures Positive(dims + [d]) && Unravel(n, dims + [d]) == Unravel(n / d, dims) + [n % d]
  {
    assert (dims + [d])[..|dims|] == dims;
  }

  lemma {:induction false} UnravelRavel(idx: seq<nat>, dims: seq<nat>)
    requires Inside(idx, dims)
    ensures Positive(dims)
    ensures Unravel(Ravel(idx, dims), dims) == idx
  {
    if dims != [] {
      var i, d := idx[..|idx| - 1], dims[..|dims| - 1];
      UnravelRavel(i, d);
      DivModUnique(Ravel(i, d), idx[|idx| - 1], dims[|dims| - 1]);
    }
  }

  /** The number of a multi-index splits at any axis: the leading axes count
      whole blocks of the trailing ones. */
  lemma {:induction false} RavelSplit(a: seq<nat>, b: seq<nat>, da: seq<nat>, db: seq<nat>)
    requires |a| == |da| && |b| == |db|
    ensures Ravel(a + b, da + db) == Ravel(a, da) * Product(db) + Ravel(b, db)
  {
    if b == [] {
      assert a + b == a && da + db == da;
    } else {
      var i, d := b[..|b| - 1], db[..|db| - 1];
      var last := db[|db| - 1];
      RavelSplit(a, i, da, d);
      assert (a + b)[..|a + b| - 1] == a + i;
      assert (da + db)[..|da + db| - 1] == da + d;
      Horner(Ravel(a, da), Product(d), Ravel(i, d), last);
    }
  }

  lemma RavelLastDigit(idx: seq<nat>, i: nat, dims: seq<nat>)
    requires |idx| == |dims| > 0
    ensures Ravel(idx[..|idx| - 1] + [idx[|idx| - 1] + i], dims) == Ravel(idx, dims) + i
  {
    assert (idx[..|idx| - 1] + [idx[|idx| - 1] + i])[..|idx| - 1] == idx[..|idx| - 1];
  }

  lemma {:induction false} RavelZeros(idx: seq<nat>, dims: seq<nat>)
    requires |idx| == |dims| && forall i :: 0 <= i < |idx| ==> idx[i] == 0
    ensures Ravel(idx, dims) == 0
  {
    if dims != [] {
      RavelZeros(idx[..|dims| - 1], dims[..|dims| - 1]);
    }
  }

  /** The last index of every axis is the last element. */
  lemma {:induction false} RavelLast(idx: seq<nat>, dims: seq<nat>)
    requires |idx| == |dims| && Positive(dims)
    requires forall i :: 0 <= i < |idx| ==> idx[i] == dims[i] - 1
    ensures Ravel(idx, dims) == Product(dims) - 1
  {
    if dims != [] {
      RavelLast(idx[..|idx| - 1], dims[..|dims| - 1]);
      var p, d := Product(dims[..|dims| - 1]), dims[|dims| - 1];
      assert (p - 1) * d + (d - 1) == p * d - 1;
    }
  }

  /** Carrying into axis `d` after every axis past it wrapped: the step an
      odometer takes adds exactly one to the element number. */
  lemma OdometerStep(before: seq<nat>, after: seq<nat>, dims: seq<nat>, d: nat)
    requires |before| == |after| == |dims| && d < |dims| && Positive(dims)
    requires after[..d] == before[..d] && after[d] == before[d] + 1
    requires forall i :: d < i < |dims| ==> before[i] == dims[i] - 1 && after[i] == 0
    ensures Ravel(after, dims) == Ravel(before, dims) + 1
  {
    assert dims == dims[..d + 1] + dims[d + 1..];
    assert before == before[..d + 1] + before[d + 1..];
    assert after == after[..d + 1] + after[d + 1..];
    CarryInto(before[..d + 1], after[..d + 1], before[d + 1..], after[d + 1..], dims[..d + 1], dims[d + 1..]);
  }

  lemma CarryInto(head: seq<nat>, head': seq<nat>, tail: seq<nat>, tail': seq<nat>, dh: seq<nat>, dt: seq<nat>)
    requires |head| == |head'| == |dh| > 0 && |tail| == |tail'| == |dt| && Positive(dt)
    requires head'[..|dh| - 1] == head[..|dh| - 1] && head'[|dh| - 1] == head[|dh| - 1] + 1
    requires forall i :: 0 <= i < |tail| ==> tail[i] == dt[i] - 1 && tail'[i] == 0
    ensures Ravel(head' + tail', dh + dt) == Ravel(head + tail, dh + dt) + 1
  {
    LastDigitStep(head, head', dh);
    RavelLast(tail, dt);
    RavelZeros(tail', dt);
    SplitStep(head, head', tail, tail', dh, dt);
  }

  lemma LastDigitStep(idx: seq<nat>, idx': seq<nat>, dims: seq<nat>)
    requires |idx| == |idx'| == |dims| > 0
    requires idx'[..|dims| - 1] == idx[..|dims| - 1] && idx'[|dims| - 1] == idx[|dims| - 1] + 1
    ensures Ravel(idx', dims) == Ravel(idx, dims) + 1
  {
  }

  lemma SplitStep(head: seq<nat>, head': seq<nat>, tail: seq<nat>, tail': seq<nat>, dh: seq<nat>, dt: seq<nat>)
    requires |head| == |head'| == |dh| && |tail| == |tail'| == |dt|
    requires Ravel(head', dh) == Ravel(head, dh) + 1
    requires Ravel(tail, dt) == Product(dt) - 1 && Ravel(tail', dt) == 0
    ensures Ravel(head' + tail', dh + dt) == Ravel(head + tail, dh + dt) + 1
  {
    RavelSplit(head, tail, dh, dt);
    RavelSplit(head', tail', dh, dt);
    NextMultiple(Ravel(head, dh), Ravel(head', dh), Product(dt));
  }

  lemma NextMultiple(a: nat, a': nat, d: nat)
    requires a' == a + 1
    ensures a' * d == a * d + d
  {
  }

  /** Where element `e` starts in a stream of elements. */
  function Offset(e: nat, itemsize: nat): nat {
    e * itemsize
  }

  lemma OffsetNext(e: nat, itemsize: nat)
    ensures Offset(e + 1, itemsize) == Offset(e, itemsize) + itemsize
    ensures Offset(0, itemsize) == 0
  {
  }

  lemma OffsetAdd(a: nat, b: nat, itemsize: nat)
    ensures Offset(a + b, itemsize) == Offset(a, itemsize) + Offset(b, itemsize)
  {
  }

  lemma OffsetMonotone(a: nat, b: nat, itemsize: nat)
    requires a <= b
    ensures Offset(a, itemsize) <= Offset(b, itemsize)
  {
  }

  lemma OffsetAtLeast(e: nat, itemsize: nat)
    requires itemsize > 0
    ensures e <= Offset(e, itemsize)
  {
  }
}
