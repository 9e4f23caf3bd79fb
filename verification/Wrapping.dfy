/** What a walk means once its base and offsets have wrapped in a u64. */
module Wrapping {
  import opened Words
  import opened Radix
  import opened Gathering
  import opened Planning

  /** The source element a reader goes to: its own sum wraps as well. */
  ghost function GoesTo(g: Gathered, n: nat): nat
    requires Positive(Lens(g.dims))
  {
    Wrap(At(g, n))
  }

  lemma SameLens(dims: seq<Dim>)
    ensures Lens(WrappedDims(dims)) == Lens(dims)
  {
  }

  lemma AddWrapped(a: int, b: int, a': int, b': int)
    requires Wrap(a) == Wrap(a') && Wrap(b) == Wrap(b')
    ensures Wrap(a + b) == Wrap(a' + b')
  {
    WrapAdd(a, b);
    WrapAdd(a', b);
    WrapAdd(b, a');
    WrapAdd(b', a');
  }

  lemma ShiftWrapped(d: Dim, k: nat)
    ensures Wrap(WrappedDims([d])[0].Shift(k)) == Wrap(d.Shift(k))
  {
  }

  /** Wrapping the offsets changes a sum by a multiple of 2^64. */
  lemma {:induction false} SumWrapped(dims: seq<Dim>, idx: seq<nat>)
    requires |dims| == |idx|
    ensures Wrap(Sum(WrappedDims(dims), idx)) == Wrap(Sum(dims, idx))
    decreases |dims|
  {
    hide Wrap;
    if dims != [] {
      var n := |dims| - 1;
      SumWrapped(dims[..n], idx[..n]);
      assert WrappedDims(dims)[..n] == WrappedDims(dims[..n]);
      ShiftWrapped(dims[n], idx[n]);
      AddWrapped(Sum(dims[..n], idx[..n]), dims[n].Shift(idx[n]),
                 Sum(WrappedDims(dims[..n]), idx[..n]), WrappedDims(dims)[n].Shift(idx[n]));
    }
  }

  /** A wrapped walk goes to the exact walk's elements, wrapped. */
  lemma GoesToWrapped(exact: Gathered, n: nat)
    requires Positive(Lens(exact.dims))
    ensures Lens(Wrapped(exact).dims) == Lens(exact.dims)
    ensures GoesTo(Wrapped(exact), n) == Wrap(At(exact, n))
  {
    hide Wrap, Sum;
    SameLens(exact.dims);
    var idx := Unravel(n, Lens(exact.dims));
    SumWrapped(exact.dims, idx);
    WrapTwice(exact.base);
    AddWrapped(exact.base, Sum(exact.dims, idx), Wrap(exact.base), Sum(WrappedDims(exact.dims), idx));
  }

  /** No term pulls a walk below the one that moves. */
  lemma {:induction false} SumAlone(dims: seq<Dim>, at: nat, idx: seq<nat>)
    requires |dims| == |idx| && at < |dims| && forall i :: 0 <= i < |idx| && i != at ==> idx[i] == 0
    ensures Sum(dims, idx) >= dims[at].Shift(idx[at])
    decreases |dims|
  {
    var n := |dims| - 1;
    if at == n {
      SumStill(dims[..n], idx[..n]);
    } else {
      SumAlone(dims[..n], at, idx[..n]);
      StillShift(dims[n]);
    }
  }

  lemma {:induction false} SumStill(dims: seq<Dim>, idx: seq<nat>)
    requires |dims| == |idx| && forall i :: 0 <= i < |idx| ==> idx[i] == 0
    ensures Sum(dims, idx) >= 0
    decreases |dims|
  {
    if dims != [] {
      SumStill(dims[..|dims| - 1], idx[..|dims| - 1]);
      StillShift(dims[|dims| - 1]);
    }
  }

  lemma StillShift(d: Dim)
    ensures d.Shift(0) >= 0
  {
  }

  ghost predicate AllBelow(g: Gathered, bound: nat)
    requires Positive(Lens(g.dims))
  {
    forall n :: 0 <= n < Size(g) ==> At(g, n) < bound
  }

  lemma IndexBelow(g: Gathered, idx: seq<nat>, bound: nat)
    requires Positive(Lens(g.dims)) && AllBelow(g, bound) && Inside(idx, Lens(g.dims))
    ensures g.base + Sum(g.dims, idx) < bound
  {
    AtIndex(g, idx);
  }

  /** A walk whose elements all fit a word never wrapped. */
  lemma NeverWrapped(g: Gathered)
    requires Positive(Lens(g.dims)) && AllBelow(g, U64)
    ensures Wrapped(g) == g
  {
    hide AllBelow, Sum, At, Wrap;
    var zeros: seq<nat> := seq(|g.dims|, _ => 0);
    assert forall i :: 0 <= i < |g.dims| ==> Lens(g.dims)[i] > 0;
    IndexBelow(g, zeros, U64);
    SumStill(g.dims, zeros);
    Unwrapped(g.base);
    forall i, k | 0 <= i < |g.dims| && g.dims[i].List? && 0 <= k < |g.dims[i].offsets|
      ensures Wrap(g.dims[i].offsets[k]) == g.dims[i].offsets[k]
    {
      var idx := zeros[i := k];
      assert Lens(g.dims)[i] == g.dims[i].Len();
      IndexBelow(g, idx, U64);
      SumAlone(g.dims, i, idx);
      Unwrapped(g.dims[i].offsets[k]);
    }
    forall i | 0 <= i < |g.dims| ensures WrappedDims(g.dims)[i] == g.dims[i] {
      if g.dims[i].List? {
        assert WrappedAll(g.dims[i].offsets) == g.dims[i].offsets;
      }
    }
    assert WrappedDims(g.dims) == g.dims;
  }

  lemma Unwrapped(x: nat)
    requires x < U64
    ensures Wrap(x) == x
  {
  }
}
