/** Reading a selection that is scattered over the source.

    `At` is the specification: output `n` is a base and a sum of terms, one per
    dimension. `Read` gets there by stretches, with offsets that wrap. */
module Gathering {
  import opened Words
  import opened Radix
  import opened Spans
  import opened SpanReading

  /** A dimension of the walk: so many equal steps, or an offset per index. */
  datatype Dim = Stride(len: nat, step: i64) | List(offsets: seq<nat>) {

    function Len(): nat {
      match this
      case Stride(len, _) => len
      case List(offsets) => |offsets|
    }

    /** What index `k` adds, as a u64 has it. */
    function Term(k: nat): nat
      requires k < Len()
    {
      match this
      case Stride(_, step) => Wrap(k * Wrap(step))
      case List(offsets) => offsets[k]
    }

    /** What index `k` adds, as an integer. */
    ghost function Shift(k: nat): int {
      match this
      case Stride(_, step) => k * step
      case List(offsets) => if k < |offsets| then offsets[k] else 0
    }

    /** Elements one stretch of a row may name. */
    function Per(take: nat, itemsize: nat): (per: nat)
      requires itemsize > 0 && take > 0
      requires Stride? ==> step != 0
      ensures per > 0
    {
      match this
      case Stride(_, step) =>
        if step == 1 then take
        else
          StrideBytes(step, itemsize);
          var stride := Abs(step) * itemsize;
          if stride <= SPAN_GAP_BYTES then Max(SPAN_MAX_BYTES / stride, 1) else 1
      case List(_) => 1
    }
  }

  lemma StrideBytes(step: int, itemsize: nat)
    requires step != 0 && itemsize > 0
    ensures Abs(step) * itemsize > 0
  {
  }

  datatype Gathered = Gathered(base: nat, dims: seq<Dim>)

  ghost function Lens(dims: seq<Dim>): seq<nat> {
    seq(|dims|, i requires 0 <= i < |dims| => dims[i].Len())
  }

  ghost function Sum(dims: seq<Dim>, idx: seq<nat>): int
    requires |dims| == |idx|
  {
    if dims == [] then 0
    else Sum(dims[..|dims| - 1], idx[..|idx| - 1]) + dims[|dims| - 1].Shift(idx[|idx| - 1])
  }

  ghost function Size(g: Gathered): nat {
    Product(Lens(g.dims))
  }

  /** The source element behind output element `n`. */
  ghost function At(g: Gathered, n: nat): int
    requires Positive(Lens(g.dims))
  {
    g.base + Sum(g.dims, Unravel(n, Lens(g.dims)))
  }

  ghost function Selected(g: Gathered, first: nat, count: nat): (es: seq<int>)
    requires Positive(Lens(g.dims))
    ensures |es| == count
  {
    seq(count, i requires 0 <= i => At(g, first + i))
  }

  /** Only dimensions longer than 1 are walked. */
  ghost predicate Walkable(g: Gathered) {
    (forall i :: 0 <= i < |g.dims| ==> g.dims[i].Len() > 1) && Positive(Lens(g.dims))
  }

  /** Every dimension moves, and every element lies in a source of `elems`. */
  ghost predicate Readable(g: Gathered, elems: nat) {
    && Walkable(g)
    && (forall i :: 0 <= i < |g.dims| && g.dims[i].Stride? ==> g.dims[i].step != 0)
    && forall n :: 0 <= n < Size(g) ==> 0 <= At(g, n) < elems
  }

  /** The odometer's index names the element it should. */
  lemma AtIndex(g: Gathered, idx: seq<nat>)
    requires Inside(idx, Lens(g.dims))
    ensures Positive(Lens(g.dims))
    ensures Ravel(idx, Lens(g.dims)) < Size(g)
    ensures At(g, Ravel(idx, Lens(g.dims))) == g.base + Sum(g.dims, idx)
  {
    UnravelRavel(idx, Lens(g.dims));
    RavelBound(idx, Lens(g.dims));
  }

  /** Along a row only the innermost term moves. */
  lemma AtRow(g: Gathered, idx: seq<nat>, n: nat, i: nat)
    requires g.dims != [] && Inside(idx, Lens(g.dims)) && Ravel(idx, Lens(g.dims)) == n
    requires idx[|idx| - 1] + i < g.dims[|g.dims| - 1].Len()
    ensures Positive(Lens(g.dims)) && n + i < Size(g)
    ensures At(g, n + i) == g.base + Sum(g.dims[..|idx| - 1], idx[..|idx| - 1])
                          + g.dims[|g.dims| - 1].Shift(idx[|idx| - 1] + i)
  {
    hide Ravel, Sum, Product, At;
    var last := |idx| - 1;
    var idx' := idx[..last] + [idx[last] + i];
    assert Inside(idx', Lens(g.dims));
    RavelLastDigit(idx, i, Lens(g.dims));
    SumLast(g.dims, idx, i);
    AtIndex(g, idx');
  }

  lemma SumLast(dims: seq<Dim>, idx: seq<nat>, i: nat)
    requires |dims| == |idx| > 0
    ensures var last := |idx| - 1;
      Sum(dims, idx[..last] + [idx[last] + i]) == Sum(dims[..last], idx[..last]) + dims[last].Shift(idx[last] + i)
  {
    var last := |idx| - 1;
    assert (idx[..last] + [idx[last] + i])[..last] == idx[..last];
  }

  lemma ShiftStep(d: Dim, k: nat, j: nat)
    requires d.Stride?
    ensures d.Shift(k + j) == d.Shift(k) + j * d.step
  {
    assert (k + j) * d.step == k * d.step + j * d.step;
  }

  /** A wrapped prefix plus a wrapped term is the true sum, wrapped. */
  lemma TermWraps(d: Dim, k: nat, a: int)
    requires k < d.Len()
    ensures Wrap(Wrap(a) + d.Term(k)) == Wrap(a + d.Shift(k))
  {
    WrapAdd(a, d.Term(k));
    if d.Stride? {
      WrapMul(k, d.step);
      assert d.Term(k) == Wrap(d.Shift(k));
      WrapAdd(d.Shift(k), a);
    }
  }

  /** Prefix `i` is the wrapped sum of the base and the first `i` terms. */
  ghost predicate Prefixes(g: Gathered, index: seq<nat>, prefix: seq<nat>, upTo: nat) {
    && |index| == |g.dims| && |prefix| == |g.dims| + 1 && upTo <= |g.dims|
    && forall i :: 0 <= i <= upTo ==> prefix[i] == Wrap(g.base + Sum(g.dims[..i], index[..i]))
  }

  lemma SumNext(dims: seq<Dim>, index: seq<nat>, i: nat)
    requires |index| == |dims| && i < |dims|
    ensures Sum(dims[..i + 1], index[..i + 1]) == Sum(dims[..i], index[..i]) + dims[i].Shift(index[i])
  {
    assert dims[..i + 1][..i] == dims[..i] && index[..i + 1][..i] == index[..i];
  }

  lemma NextPrefix(g: Gathered, index: seq<nat>, i: nat)
    requires Inside(index, Lens(g.dims)) && i < |g.dims|
    ensures Wrap(Wrap(g.base + Sum(g.dims[..i], index[..i])) + g.dims[i].Term(index[i]))
         == Wrap(g.base + Sum(g.dims[..i + 1], index[..i + 1]))
  {
    hide Wrap, Dim.Term, Sum;
    SumNext(g.dims, index, i);
    TermWraps(g.dims[i], index[i], g.base + Sum(g.dims[..i], index[..i]));
  }

  /** Recompute the prefixes past `from`. */
  method Refresh(g: Gathered, index: seq<nat>, prefix: seq<nat>, from: nat) returns (fresh': seq<nat>)
    requires Inside(index, Lens(g.dims)) && |prefix| == |g.dims| + 1 && from <= |g.dims|
    requires Prefixes(g, index, prefix, from)
    ensures |fresh'| == |prefix| && Prefixes(g, index, fresh', |g.dims|)
  {
    hide Sum, Dim.Term, Wrap;
    fresh' := prefix;
    for i := from to |g.dims|
      invariant Prefixes(g, index, fresh', i)
    {
      NextPrefix(g, index, i);
      fresh' := fresh'[i + 1 := Wrap(fresh'[i] + g.dims[i].Term(index[i]))];
    }
  }

  ghost function Held(pending: Option<Stretch>): seq<int> {
    match pending
    case None => []
    case Some(p) => p.Elements()
  }

  ghost function HeldCount(pending: Option<Stretch>): nat {
    match pending
    case None => 0
    case Some(p) => p.count
  }

  /** A stretch the sink may be given. */
  ghost predicate Sound(s: Stretch, sink: SpanReader) {
    s.Fits(sink.itemsize) && Within(s.Elements(), 0, sink.elems)
  }

  /** The sink and the stretch held back from it account for `es`. */
  ghost predicate Feeding(sink: SpanReader, pending: Option<Stretch>, es: seq<int>)
    reads sink, sink.out
  {
    && sink.Valid()
    && (pending.Some? ==> Sound(pending.value, sink))
    && sink.fed + Held(pending) == es
  }

  /** Merge `s` with the pending run if it carries on from it; else pass the pending
      one on and let `s` wait. */
  method Hold(pending: Option<Stretch>, s: Stretch, sink: SpanReader, ghost es: seq<int>)
    returns (pending': Option<Stretch>, done: Result<(), string>)
    requires Feeding(sink, pending, es) && s.count > 0 && Within(s.Elements(), 0, sink.elems)
    requires s.count == 1 || s.Fits(sink.itemsize)
    requires Offset(|es| + s.count, sink.itemsize) <= sink.out.Length
    modifies sink, sink.scratch, sink.out
    ensures done.Ok? ==> Feeding(sink, pending', es + s.Elements()) && pending'.Some?
    ensures done.Err? ==> Gave(sink.read, sink.src, done.error)
    ensures sink.scratch == old(sink.scratch) || fresh(sink.scratch)
  {
    hide Offset, Bytes, ItemBytes, Stretch.Elements, Stretch.Fits, Sound, Within, SpanReader.Valid, Gave;
    done := Ok(());
    // A lone element counts as a run, so that a run may follow it.
    var s' := if s.count == 1 then Stretch(s.src, 1, 1) else s;
    FeedingItems(sink, pending, es);
    OneIsSound(s, sink);
    if pending.Some? && pending.value.step == 1 && s'.step == 1
       && pending.value.src + pending.value.count == s'.src {
      FeedMerged(sink, pending.value, s', es);
      pending' := Some(Stretch(pending.value.src, 1, pending.value.count + s'.count));
    } else {
      pending' := Some(s');
      FeedRoom(sink, pending, s', es);
      if pending.Some? {
        SoundFits(pending.value, sink);
        done := sink.Take(pending.value);
      }
    }
  }

  lemma FeedingItems(sink: SpanReader, pending: Option<Stretch>, es: seq<int>)
    requires Feeding(sink, pending, es)
    ensures sink.itemsize > 0
  {
  }

  lemma SoundFits(s: Stretch, sink: SpanReader)
    requires Sound(s, sink)
    ensures s.Fits(sink.itemsize) && Within(s.Elements(), 0, sink.elems)
  {
  }

  lemma OneIsSound(s: Stretch, sink: SpanReader)
    requires sink.itemsize > 0 && s.count > 0 && Within(s.Elements(), 0, sink.elems)
    requires s.count == 1 || s.Fits(sink.itemsize)
    ensures var s' := if s.count == 1 then Stretch(s.src, 1, 1) else s;
      Sound(s', sink) && s'.Elements() == s.Elements()
  {
    if s.count == 1 {
      SingleElement(s);
    }
  }

  lemma FeedMerged(sink: SpanReader, p: Stretch, s: Stretch, es: seq<int>)
    requires Feeding(sink, Some(p), es) && Sound(s, sink)
    requires p.step == 1 && s.step == 1 && p.src + p.count == s.src
    ensures Feeding(sink, Some(Stretch(p.src, 1, p.count + s.count)), es + s.Elements())
  {
    hide Offset, Bytes, ItemBytes, Within, Stretch.Elements;
    MergeSound(p, s, sink);
    assert sink.fed + (p.Elements() + s.Elements()) == (sink.fed + p.Elements()) + s.Elements();
  }

  lemma FeedRoom(sink: SpanReader, pending: Option<Stretch>, s: Stretch, es: seq<int>)
    requires Feeding(sink, pending, es) && Offset(|es| + s.count, sink.itemsize) <= sink.out.Length
    ensures sink.outAt == |sink.fed| && sink.Valid()
    ensures pending.None? ==> Feeding(sink, pending, es) && sink.fed == es
    ensures pending.Some? ==> Sound(pending.value, sink) && sink.fed + pending.value.Elements() == es
    ensures pending.Some? ==> Offset(sink.outAt + pending.value.count, sink.itemsize) <= sink.out.Length
  {
    hide Offset, Bytes, ItemBytes, Within;
    assert |es| == |sink.fed| + HeldCount(pending);
    OffsetMonotone(|es|, |es| + s.count, sink.itemsize);
  }

  lemma MergeSound(p: Stretch, s: Stretch, sink: SpanReader)
    requires p.step == 1 && s.step == 1 && p.src + p.count == s.src && p.count > 0
    requires Within(p.Elements(), 0, sink.elems) && Within(s.Elements(), 0, sink.elems)
    ensures Sound(Stretch(p.src, 1, p.count + s.count), sink)
    ensures Stretch(p.src, 1, p.count + s.count).Elements() == p.Elements() + s.Elements()
  {
    MergeRuns(p, s);
  }

  /** No stretch of a strided row outgrows the scratch buffer. */
  lemma PerFits(d: Dim, itemsize: nat, n: nat, take: nat, src: nat)
    requires 0 < itemsize <= SPAN_GAP_BYTES && d.Stride? && d.step != 0 && 0 < n <= take
    requires n <= d.Per(take, itemsize)
    ensures n == 1 || Stretch(src, d.step, n).Fits(itemsize)
  {
    var step := d.step;
    if step != 1 && n > 1 {
      var stride := Abs(step) * itemsize;
      StrideBytes(step, itemsize);
      assert n <= SPAN_MAX_BYTES / stride;
      DivMul(n, SPAN_MAX_BYTES, stride);
      ScaleStep(n, Abs(step), itemsize);
    }
  }

  /** A stretch of a strided row names as many elements as the ceiling allows while they
      are close enough to be read together, and one at a time if not. */
  lemma PerIs(d: Dim, itemsize: nat, take: nat)
    requires 0 < itemsize && take > 0 && (d.Stride? ==> d.step != 0)
    ensures d.List? ==> d.Per(take, itemsize) == 1
    ensures d.Stride? && d.step == 1 ==> d.Per(take, itemsize) == take
    ensures d.Stride? && d.step != 1 && Abs(d.step) * itemsize > SPAN_GAP_BYTES ==> d.Per(take, itemsize) == 1
    ensures d.Stride? && d.step != 1 && Abs(d.step) * itemsize <= SPAN_GAP_BYTES ==>
      var bytes := Abs(d.step) * itemsize;
      d.Per(take, itemsize) * bytes <= SPAN_MAX_BYTES < (d.Per(take, itemsize) + 1) * bytes
  {
    if d.Stride? && d.step != 1 {
      StrideBytes(d.step, itemsize);
      var bytes := Abs(d.step) * itemsize;
      if bytes <= SPAN_GAP_BYTES {
        FitsTimes(SPAN_MAX_BYTES, bytes);
      }
    }
  }

  lemma FitsTimes(n: nat, d: nat)
    requires 0 < d <= n
    ensures n / d >= 1 && n / d * d <= n < (n / d + 1) * d
  {
    var q := n / d;
    assert n == q * d + n % d;
    MulNext(q, d);
  }

  lemma MulNext(q: nat, d: nat)
    ensures (q + 1) * d == q * d + d
  {
  }

  /** A stride that moves inside an array whose bytes a word can count never wraps the
      product that decides this. */
  lemma StrideFits(g: Gathered, elems: nat, itemsize: nat)
    requires Readable(g, elems) && g.dims != [] && itemsize > 0 && Offset(elems, itemsize) < U64
    requires g.dims[|g.dims| - 1].Stride?
    ensures Abs(g.dims[|g.dims| - 1].step) * itemsize < U64
  {
    hide At, Sum, Ravel, Product;
    var last := g.dims[|g.dims| - 1];
    var zeros: seq<nat> := seq(|g.dims|, _ => 0);
    RavelZeros(zeros, Lens(g.dims));
    AtRow(g, zeros, 0, 0);
    AtRow(g, zeros, 0, 1);
    assert last.Shift(1) - last.Shift(0) == last.step;
    assert 0 <= At(g, 0) < elems && 0 <= At(g, 1) < elems;
    MulLe(Abs(last.step), elems, itemsize);
  }

  lemma DivMul(n: nat, m: nat, d: nat)
    requires d > 0 && n <= m / d
    ensures n * d <= m
  {
    assert m == m / d * d + m % d;
    MulLe(n, m / d, d);
  }

  lemma ScaleStep(n: nat, step: nat, itemsize: nat)
    requires n > 0 && step > 0
    ensures Offset(Offset(n - 1, step) + 1, itemsize) <= n * (step * itemsize)
  {
    assert (n - 1) * step + 1 <= n * step;
    MulLe((n - 1) * step + 1, n * step, itemsize);
    assert (n * step) * itemsize == n * (step * itemsize);
  }

  /** `idx` is the index of element `n0`, and `row` its wrapped prefix. */
  ghost predicate OnRow(g: Gathered, idx: seq<nat>, n0: nat, row: nat, elems: nat) {
    && Readable(g, elems) && g.dims != []
    && Inside(idx, Lens(g.dims)) && Ravel(idx, Lens(g.dims)) == n0
    && idx[|idx| - 1] < g.dims[|idx| - 1].Len()
    && row == Wrap(g.base + Sum(g.dims[..|idx| - 1], idx[..|idx| - 1]))
  }

  /** Elements of the row from where the odometer stands. */
  function RowLeft(g: Gathered, index: seq<nat>): nat
    requires g.dims != [] && |index| == |g.dims| && index[|g.dims| - 1] <= g.dims[|g.dims| - 1].Len()
  {
    g.dims[|g.dims| - 1].Len() - index[|g.dims| - 1]
  }

  /** The `i`-th stretch of a row names the elements the walk says. */
  lemma RowStretch(g: Gathered, idx: seq<nat>, n0: nat, row: nat, i: nat, n: nat, elems: nat)
    requires OnRow(g, idx, n0, row, elems) && elems <= U64
    requires n > 0 && i + n <= RowLeft(g, idx)
    requires g.dims[|idx| - 1].List? ==> n <= 1
    ensures var inner := g.dims[|idx| - 1];
      var s := Stretch(Wrap(row + inner.Term(idx[|idx| - 1] + i)), if inner.Stride? then inner.step else 1, n);
      s.Elements() == Selected(g, n0 + i, n) && Within(s.Elements(), 0, elems)
  {
    hide Sum, Product, Ravel, At, Dim.Term, Wrap, Size, Readable, Lens, Positive, Inside;
    RowOf(g, idx, n0, row, elems);
    RowFirst(g, idx, n0, row, i, elems);
    var inner := g.dims[|idx| - 1];
    var step := if inner.Stride? then inner.step else 1;
    var s := Stretch(Wrap(row + inner.Term(idx[|idx| - 1] + i)), step, n);
    RowRoom(g, idx, n0, row, i, n, elems);
    forall j | 0 <= j < n
      ensures s.Elements()[j] == At(g, n0 + i + j) && 0 <= At(g, n0 + i + j) < elems
    {
      RowNext(g, idx, n0, row, i, j, elems);
    }
  }

  lemma RowOf(g: Gathered, idx: seq<nat>, n0: nat, row: nat, elems: nat)
    requires OnRow(g, idx, n0, row, elems)
    ensures |idx| == |g.dims| > 0 && Positive(Lens(g.dims))
  {
  }

  lemma RowRoom(g: Gathered, idx: seq<nat>, n0: nat, row: nat, i: nat, n: nat, elems: nat)
    requires OnRow(g, idx, n0, row, elems) && i + n <= RowLeft(g, idx) && n > 0
    ensures n0 + i + n <= Size(g) && Positive(Lens(g.dims))
  {
    hide Sum, Product, Ravel, At;
    AtRow(g, idx, n0, i + n - 1);
  }

  lemma RowFirst(g: Gathered, idx: seq<nat>, n0: nat, row: nat, i: nat, elems: nat)
    requires OnRow(g, idx, n0, row, elems) && elems <= U64
    requires idx[|idx| - 1] + i < g.dims[|idx| - 1].Len()
    ensures Wrap(row + g.dims[|idx| - 1].Term(idx[|idx| - 1] + i)) == At(g, n0 + i)
    ensures 0 <= At(g, n0 + i) < elems
  {
    hide Sum, Product, Ravel, At;
    var last := |idx| - 1;
    AtRow(g, idx, n0, i);
    TermWraps(g.dims[last], idx[last] + i, g.base + Sum(g.dims[..last], idx[..last]));
  }

  lemma RowNext(g: Gathered, idx: seq<nat>, n0: nat, row: nat, i: nat, j: nat, elems: nat)
    requires OnRow(g, idx, n0, row, elems)
    requires i + j < RowLeft(g, idx) && (g.dims[|idx| - 1].List? ==> j == 0)
    ensures n0 + i + j < Size(g) && Positive(Lens(g.dims))
    ensures At(g, n0 + i + j) == At(g, n0 + i) + if g.dims[|idx| - 1].Stride? then j * g.dims[|idx| - 1].step else 0
    ensures 0 <= At(g, n0 + i + j) < elems
  {
    hide Sum, Product, Ravel, At;
    AtRow(g, idx, n0, i);
    AtRow(g, idx, n0, i + j);
    if g.dims[|idx| - 1].Stride? {
      ShiftStep(g.dims[|idx| - 1], idx[|idx| - 1] + i, j);
    }
  }

  lemma ListPer(d: Dim, take: nat, itemsize: nat)
    requires d.List? && itemsize > 0 && take > 0
    ensures d.Per(take, itemsize) == 1
  {
  }

  /** The `i`-th stretch of a row. */
  function RowPart(g: Gathered, idx: seq<nat>, row: nat, i: nat, n: nat): Stretch
    requires g.dims != [] && |idx| == |g.dims| && idx[|idx| - 1] + i < g.dims[|idx| - 1].Len()
  {
    var inner := g.dims[|idx| - 1];
    Stretch(Wrap(row + inner.Term(idx[|idx| - 1] + i)), if inner.Stride? then inner.step else 1, n)
  }

  lemma RowPartSound(g: Gathered, idx: seq<nat>, n0: nat, row: nat, i: nat, n: nat, take: nat, elems: nat,
      itemsize: nat)
    requires OnRow(g, idx, n0, row, elems) && elems <= U64 && 0 < itemsize <= SPAN_GAP_BYTES
    requires 0 < n && i + n <= take <= RowLeft(g, idx)
    requires g.dims[|idx| - 1].Stride? ==> g.dims[|idx| - 1].step != 0
    requires n <= g.dims[|idx| - 1].Per(take, itemsize)
    ensures Positive(Lens(g.dims))
    ensures var s := RowPart(g, idx, row, i, n);
      && s.count == n && (n == 1 || s.Fits(itemsize))
      && s.Elements() == Selected(g, n0 + i, n) && Within(s.Elements(), 0, elems)
  {
    var inner := g.dims[|idx| - 1];
    if inner.List? {
      ListPer(inner, take, itemsize);
    } else {
      PerFits(inner, itemsize, n, take, RowPart(g, idx, row, i, n).src);
    }
    hide Dim.Per;
    RowStretch(g, idx, n0, row, i, n, elems);
  }

  lemma RowFacts(g: Gathered, idx: seq<nat>, n0: nat, row: nat, sink: SpanReader, pending: Option<Stretch>,
      es: seq<int>)
    requires Feeding(sink, pending, es) && OnRow(g, idx, n0, row, sink.elems)
    ensures 0 < sink.itemsize <= SPAN_GAP_BYTES && sink.elems <= U64
    ensures |idx| == |g.dims| > 0 && idx[|idx| - 1] + RowLeft(g, idx) == g.dims[|idx| - 1].Len()
    ensures g.dims[|idx| - 1].Stride? ==> g.dims[|idx| - 1].step != 0
    ensures Positive(Lens(g.dims)) && es + Selected(g, n0, 0) == es
  {
    OffsetAtLeast(sink.elems, sink.itemsize);
  }

  /** Hand over the part of one row that is asked for, in stretches. */
  method Row(g: Gathered, idx: seq<nat>, n0: nat, row: nat, take: nat, pending: Option<Stretch>, sink: SpanReader,
      ghost es: seq<int>)
    returns (pending': Option<Stretch>, done: Result<(), string>)
    requires Feeding(sink, pending, es) && OnRow(g, idx, n0, row, sink.elems)
    requires 0 < take <= RowLeft(g, idx)
    requires Offset(|es| + take, sink.itemsize) <= sink.out.Length
    modifies sink, sink.scratch, sink.out
    ensures Positive(Lens(g.dims))
    ensures done.Ok? ==> Feeding(sink, pending', es + Selected(g, n0, take)) && pending'.Some?
    ensures done.Err? ==> Gave(sink.read, sink.src, done.error)
    ensures sink.scratch == old(sink.scratch) || fresh(sink.scratch)
  {
    hide OnRow, Feeding, Lens, Offset, Selected, Stretch.Fits, Within, Stretch.Elements, Dim.Per, SpanReader.Valid,
        RowLeft, Gave;
    RowFacts(g, idx, n0, row, sink, pending, es);
    var per := g.dims[|idx| - 1].Per(take, sink.itemsize);
    pending' := pending;
    var i := 0;
    while i < take
      invariant 0 <= i <= take && (i > 0 ==> pending'.Some?)
      invariant Feeding(sink, pending', es + Selected(g, n0, i))
      invariant sink.scratch == old(sink.scratch) || fresh(sink.scratch)
    {
      var n := Min(per, take - i);
      RowPartSound(g, idx, n0, row, i, n, take, sink.elems, sink.itemsize);
      OffsetMonotone(|es| + i + n, |es| + take, sink.itemsize);
      SelectedGrow(g, es, n0, i, n);
      pending', done := Hold(pending', RowPart(g, idx, row, i, n), sink, es + Selected(g, n0, i));
      if done.Err? {
        return;
      }
      i := i + n;
    }
    done := Ok(());
  }

  lemma SelectedCut(g: Gathered, first: nat, i: nat, n: nat)
    requires Positive(Lens(g.dims))
    ensures Selected(g, first, i + n) == Selected(g, first, i) + Selected(g, first + i, n)
  {
  }

  lemma SelectedGrow(g: Gathered, before: seq<int>, first: nat, i: nat, n: nat)
    requires Positive(Lens(g.dims))
    ensures before + Selected(g, first, i + n) == before + Selected(g, first, i) + Selected(g, first + i, n)
  {
    SelectedCut(g, first, i, n);
  }

  /** Move the odometer to the start of the next row. `from` is the first
      dimension that changed. */
  method NextRow(dims: seq<Dim>, index: seq<nat>) returns (index': seq<nat>, from: nat)
    requires dims != [] && Inside(index, Lens(dims))
    ensures from < |dims| && Inside(index', Lens(dims)) && index'[..from] == index[..from]
    ensures index'[|dims| - 1] == 0
    ensures var n := Ravel(index, Lens(dims)) + (dims[|dims| - 1].Len() - index[|dims| - 1]);
      Ravel(index', Lens(dims)) == if n < Product(Lens(dims)) then n else 0
  {
    hide Ravel, Product;
    var last := |dims| - 1;
    index' := index[last := 0];
    from := last;
    var carried := true;
    while from > 0 && carried
      invariant 0 <= from <= last && |index'| == |dims|
      invariant index'[..from] == index[..from] && index'[last] == 0
      invariant forall j :: from < j <= last ==> index'[j] == 0
      invariant forall j :: from < j < last ==> index[j] == dims[j].Len() - 1
      invariant Inside(index', Lens(dims))
      invariant if carried then index'[from] == 0 && (from < last ==> index[from] == dims[from].Len() - 1)
                else from < last && index'[from] == index[from] + 1
      decreases from, carried
    {
      from := from - 1;
      index' := index'[from := index'[from] + 1];
      if index'[from] < dims[from].Len() {
        carried := false;
      } else {
        index' := index'[from := 0];
      }
    }
    ghost var before := index[last := dims[last].Len() - 1];
    RowEnd(index, Lens(dims));
    if carried {
      RavelLast(before, Lens(dims));
      RavelZeros(index', Lens(dims));
    } else {
      OdometerStep(before, index', Lens(dims), from);
      RavelBound(index', Lens(dims));
    }
  }

  lemma RowEnd(index: seq<nat>, dims: seq<nat>)
    requires dims != [] && Inside(index, dims)
    ensures Positive(dims)
    ensures var last := |dims| - 1;
      Ravel(index[last := dims[last] - 1], dims) + 1 == Ravel(index, dims) + (dims[last] - index[last])
  {
    var last := |dims| - 1;
    assert index[last := dims[last] - 1][..last] == index[..last];
  }

  lemma PrefixesKept(g: Gathered, index: seq<nat>, index': seq<nat>, prefix: seq<nat>, from: nat)
    requires Prefixes(g, index, prefix, |g.dims|)
    requires |index'| == |g.dims| && from <= |g.dims| && index'[..from] == index[..from]
    ensures Prefixes(g, index', prefix, from)
  {
    forall i | 0 <= i <= from ensures index'[..i] == index[..i] {
      assert index'[..i] == index'[..from][..i];
    }
  }

  lemma NextDigit(rest: nat, lens: seq<nat>, i: nat, tail: seq<nat>)
    requires Positive(lens) && i < |lens|
    ensures Unravel(rest, lens[..i + 1]) + tail == Unravel(rest / lens[i], lens[..i]) + ([rest % lens[i]] + tail)
  {
    assert lens[..i + 1][..i] == lens[..i];
  }

  /** The index of element `first`, digit by digit. */
  method Digits(first: nat, dims: seq<Dim>) returns (index: seq<nat>)
    requires Positive(Lens(dims)) && first < Product(Lens(dims))
    ensures Inside(index, Lens(dims)) && Ravel(index, Lens(dims)) == first
  {
    hide Ravel, Product, Unravel;
    ghost var lens := Lens(dims);
    index := seq(|dims|, _ => 0);
    var rest: nat, i := first, |dims|;
    assert lens[..i] == lens && Unravel(first, lens) == Unravel(first, lens) + [];
    while i > 0
      invariant 0 <= i <= |dims| == |index|
      invariant Unravel(first, lens) == Unravel(rest, lens[..i]) + index[i..]
    {
      i := i - 1;
      NextDigit(rest, lens, i, index[i + 1..]);
      index := index[i := rest % dims[i].Len()];
      assert index[i..] == [rest % lens[i]] + index[i + 1..];
      rest := rest / dims[i].Len();
    }
    assert Unravel(first, lens) == index;
    RavelUnravel(first, lens);
  }

  /** Give the sink `count` elements of the stream from number `first` on, in stretches. */
  method ForEachStretch(g: Gathered, first: nat, count: nat, sink: SpanReader) returns (done: Result<(), string>)
    requires sink.Valid() && sink.fed == [] && first + count <= Size(g)
    requires Walkable(g) && (count > 0 ==> Readable(g, sink.elems))
    requires Offset(count, sink.itemsize) <= sink.out.Length
    modifies sink, sink.scratch, sink.out
    ensures done.Ok? ==> sink.Valid() && sink.fed == Selected(g, first, count)
    ensures done.Err? ==> Gave(sink.read, sink.src, done.error)
    ensures sink.scratch == old(sink.scratch) || fresh(sink.scratch)
  {
    hide Offset, Bytes, ItemBytes, Gave;
    if count == 0 {
      return Ok(());
    }
    if g.dims == [] {
      done := TakeBase(g, first, count, sink);
      return;
    }
    var pending;
    pending, done := Rows(g, first, count, sink);
    if done.Err? {
      return;
    }
    assert |sink.fed| + pending.count == |Selected(g, first, count)| == count;
    done := sink.Take(pending);
  }

  /** A walk without dimensions is its base alone. */
  method TakeBase(g: Gathered, first: nat, count: nat, sink: SpanReader) returns (done: Result<(), string>)
    requires sink.Valid() && sink.fed == [] && Readable(g, sink.elems) && first + count <= Size(g)
    requires Offset(count, sink.itemsize) <= sink.out.Length && g.dims == [] && count > 0
    modifies sink, sink.scratch, sink.out
    ensures done.Ok? ==> sink.Valid() && sink.fed == Selected(g, first, count)
    ensures done.Err? ==> Gave(sink.read, sink.src, done.error)
    ensures sink.scratch == old(sink.scratch) || fresh(sink.scratch)
  {
    hide Offset, Bytes, ItemBytes, Gave;
    assert Size(g) == 1 && At(g, 0) == g.base;
    var s := Stretch(g.base, 1, 1);
    assert s.Elements() == [g.base] == Selected(g, first, count);
    done := sink.Take(s);
  }

  ghost predicate Odometer(g: Gathered, index: seq<nat>, prefix: seq<nat>) {
    Inside(index, Lens(g.dims)) && |prefix| == |g.dims| + 1 && Prefixes(g, index, prefix, |g.dims|)
  }

  /** The output element the odometer stands on. */
  ghost function Standing(g: Gathered, index: seq<nat>): nat
    requires |index| == |Lens(g.dims)|
  {
    Ravel(index, Lens(g.dims))
  }

  /** Go to the first element of the next row. Prefixes below the carry are kept. */
  method Advance(g: Gathered, index: seq<nat>, prefix: seq<nat>) returns (index': seq<nat>, prefix': seq<nat>)
    requires Odometer(g, index, prefix) && g.dims != []
    requires index[|g.dims| - 1] < g.dims[|g.dims| - 1].Len()
    ensures Odometer(g, index', prefix') && |index'| == |Lens(g.dims)|
    ensures var n := Standing(g, index) + RowLeft(g, index);
      Standing(g, index') == if n < Size(g) then n else 0
  {
    hide Ravel, Product, Prefixes;
    var from;
    index', from := NextRow(g.dims, index);
    PrefixesKept(g, index, index', prefix, from);
    prefix' := Refresh(g, index', prefix, from);
  }

  /** Set the odometer to element `first`. */
  method StartAt(g: Gathered, first: nat) returns (index: seq<nat>, prefix: seq<nat>)
    requires Walkable(g) && first < Size(g)
    ensures Odometer(g, index, prefix) && |index| == |Lens(g.dims)| && Standing(g, index) == first
  {
    hide Ravel, Product, Prefixes;
    index := Digits(first, g.dims);
    StartPrefixes(g, index);
    prefix := Refresh(g, index, seq(|g.dims| + 1, _ => Wrap(g.base)), 0);
  }

  lemma StartFacts(g: Gathered, first: nat, sink: SpanReader)
    requires sink.Valid() && sink.fed == [] && Readable(g, sink.elems)
    ensures Walkable(g) && Feeding(sink, None, Selected(g, first, 0))
  {
  }

  /** The rows, one after the other, up to the last stretch. */
  method Rows(g: Gathered, first: nat, count: nat, sink: SpanReader)
    returns (last: Stretch, read: Result<(), string>)
    requires sink.Valid() && sink.fed == [] && Readable(g, sink.elems) && first + count <= Size(g)
    requires Offset(count, sink.itemsize) <= sink.out.Length && g.dims != [] && count > 0
    modifies sink, sink.scratch, sink.out
    ensures sink.scratch == old(sink.scratch) || fresh(sink.scratch)
    ensures read.Ok? ==> Feeding(sink, Some(last), Selected(g, first, count))
    ensures read.Err? ==> Gave(sink.read, sink.src, read.error)
  {
    hide Offset, Selected, Product, Ravel, Readable, Feeding, Odometer, OnRow, Lens, RowLeft, SpanReader.Valid, Gave;
    last := Stretch(0, 1, 1);
    StartFacts(g, first, sink);
    var index, prefix := StartAt(g, first);
    var pending: Option<Stretch> := None;
    var done := 0;
    while done < count
      invariant 0 <= done <= count && (done == count ==> pending.Some?)
      invariant Feeding(sink, pending, Selected(g, first, done))
      invariant sink.scratch == old(sink.scratch) || fresh(sink.scratch)
      invariant Odometer(g, index, prefix) && |index| == |Lens(g.dims)|
      invariant done < count ==> Standing(g, index) == first + done
    {
      IndexBound(g, index, prefix, sink.elems);
      var take := Min(RowLeft(g, index), count - done);
      OffsetMonotone(done + take, count, sink.itemsize);
      SelectedCut(g, first, done, take);
      pending, read := Row(g, index, first + done, prefix[|g.dims| - 1], take, pending, sink, Selected(g, first, done));
      if read.Err? {
        return;
      }
      index, prefix := Advance(g, index, prefix);
      done := done + take;
    }
    last, read := pending.value, Ok(());
  }

  lemma StartPrefixes(g: Gathered, index: seq<nat>)
    requires |index| == |g.dims|
    ensures Prefixes(g, index, seq(|g.dims| + 1, _ => Wrap(g.base)), 0)
  {
  }

  lemma IndexBound(g: Gathered, index: seq<nat>, prefix: seq<nat>, elems: nat)
    requires g.dims != [] && Odometer(g, index, prefix) && Readable(g, elems)
    ensures |index| == |g.dims| == |Lens(g.dims)| && |prefix| == |g.dims| + 1
    ensures index[|g.dims| - 1] < g.dims[|g.dims| - 1].Len() && RowLeft(g, index) > 0
    ensures OnRow(g, index, Standing(g, index), prefix[|g.dims| - 1], elems)
  {
  }

  function DivCeil(n: nat, d: nat): nat
    requires d > 0
  {
    if n % d == 0 then n / d else n / d + 1
  }

  /** The whole elements that cover the bytes `[offset, end)`. */
  lemma Covering(offset: nat, end: nat, total: nat, itemsize: nat)
    requires itemsize > 0 && offset <= end <= Offset(total, itemsize)
    ensures offset / itemsize <= DivCeil(end, itemsize) <= total
    ensures Offset(offset / itemsize, itemsize) <= offset
    ensures end <= Offset(DivCeil(end, itemsize), itemsize)
    ensures offset == Offset(offset / itemsize, itemsize) <==> offset % itemsize == 0
    ensures end == Offset(DivCeil(end, itemsize), itemsize) <==> end % itemsize == 0
  {
    assert offset == offset / itemsize * itemsize + offset % itemsize;
    assert end == end / itemsize * itemsize + end % itemsize;
    var d := DivCeil(end, itemsize);
    if end % itemsize != 0 {
      NextMultiple(end / itemsize, d, itemsize);
    }
    CeilBound(end, d, end / itemsize, total, itemsize);
    QuotientMonotone(offset, end, itemsize);
  }

  lemma CeilBound(end: nat, d: nat, q: nat, total: nat, itemsize: nat)
    requires end <= total * itemsize && q * itemsize <= end && (d == q || (d == q + 1 && q * itemsize < end))
    requires itemsize > 0
    ensures d <= total
  {
  }

  lemma QuotientMonotone(a: nat, b: nat, d: nat)
    requires d > 0 && a <= b
    ensures a / d <= b / d
  {
    assert a == a / d * d + a % d && b == b / d * d + b % d;
    QuotientOrder(a / d, a % d, b / d, b % d, d);
  }

  lemma QuotientOrder(q: nat, r: nat, q': nat, r': nat, d: nat)
    requires q * d + r <= q' * d + r' && r' < d
    ensures q <= q'
  {
    NextMultiple(q', q' + 1, d);
    QuotientBound(q, 0, q' + 1, d);
  }

  /** The bytes of all the elements of a walk, in output order. */
  ghost function Stream(g: Gathered, itemsize: nat, src: seq<byte>): seq<byte>
    requires Positive(Lens(g.dims))
  {
    Bytes(src, itemsize, Selected(g, 0, Size(g)))
  }

  /** Whole elements hold exactly their part of the stream. */
  lemma StreamCut(g: Gathered, itemsize: nat, src: seq<byte>, first: nat, count: nat)
    requires Positive(Lens(g.dims)) && first + count <= Size(g)
    ensures Offset(first, itemsize) <= Offset(first + count, itemsize) <= |Stream(g, itemsize, src)|
    ensures Stream(g, itemsize, src)[Offset(first, itemsize)..Offset(first + count, itemsize)]
         == Bytes(src, itemsize, Selected(g, first, count))
  {
    hide Offset, Bytes, Selected;
    var total := Size(g);
    var a, b, c := Selected(g, 0, first), Selected(g, first, count), Selected(g, first + count, total - first - count);
    SelectedCut(g, 0, first, count);
    SelectedCut(g, 0, first + count, total - first - count);
    BytesConcat(src, itemsize, a, b);
    BytesConcat(src, itemsize, a + b, c);
    BytesLength(src, itemsize, a);
    BytesLength(src, itemsize, b);
    OffsetAdd(first, count, itemsize);
  }

  /** The whole elements `[first, first + count)` covering `[offset, end)`, and
      where the range starts in their bytes. */
  method Cover(offset: nat, end: nat, itemsize: nat, ghost total: nat)
    returns (first: nat, count: nat, skip: nat, aligned: bool)
    requires itemsize > 0 && offset <= end <= Offset(total, itemsize)
    ensures first + count <= total && (end == 0 ==> count == 0)
    ensures first == offset / itemsize && skip == offset % itemsize
    ensures Offset(first, itemsize) + skip == offset
    ensures end <= Offset(first, itemsize) + Offset(count, itemsize) == Offset(first + count, itemsize)
    ensures aligned <==> skip == 0 && end == Offset(first + count, itemsize)
  {
    Covering(offset, end, total, itemsize);
    first := offset / itemsize;
    count := DivCeil(end, itemsize) - first;
    skip := offset - Offset(first, itemsize);
    aligned := skip == 0 && end % itemsize == 0;
    OffsetAdd(first, count, itemsize);
  }

  /** A read of a selection: inside the array, unless there is nothing to read. */
  ghost predicate CanRead(g: Gathered, itemsize: nat, src: seq<byte>, elems: nat, count: nat) {
    && 0 < itemsize <= SPAN_GAP_BYTES && |src| == Offset(elems, itemsize) && |src| < U64
    && Walkable(g) && (count > 0 ==> Readable(g, elems))
  }

  /** Any bytes of the stream, wherever they start and end. */
  method Read(g: Gathered, itemsize: nat, offset: nat, dst: array<byte>, read: Reader, elems: nat,
              scratch: array<byte>, ghost src: seq<byte>)
    returns (done: Result<(), string>)
    requires Answers(read, src)
    requires dst != scratch && CanRead(g, itemsize, src, elems, offset + dst.Length)
    requires offset + dst.Length <= Offset(Size(g), itemsize)
    modifies dst, scratch
    ensures offset + dst.Length <= |Stream(g, itemsize, src)|
    ensures done.Ok? ==> dst[..] == Stream(g, itemsize, src)[offset..offset + dst.Length]
    ensures done.Err? ==> Gave(read, src, done.error)
  {
    hide Offset, Bytes, Selected, Product, Readable, Lens, Stream, Size, Answers, Gave;
    var end := offset + dst.Length;
    var first, count, skip, aligned := Cover(offset, end, itemsize, Size(g));
    StreamSlice(g, itemsize, src, first, count, skip, dst.Length);
    done := ReadRange(g, itemsize, first, count, skip, aligned, dst, read, elems, scratch, src);
  }

  lemma StreamSlice(g: Gathered, itemsize: nat, src: seq<byte>, first: nat, count: nat, skip: nat, len: nat)
    requires Positive(Lens(g.dims)) && first + count <= Size(g) && skip + len <= Offset(count, itemsize)
    ensures |Bytes(src, itemsize, Selected(g, first, count))| == Offset(count, itemsize)
    ensures Offset(first, itemsize) + skip + len <= |Stream(g, itemsize, src)|
    ensures Bytes(src, itemsize, Selected(g, first, count))[skip..skip + len]
         == Stream(g, itemsize, src)[Offset(first, itemsize) + skip..Offset(first, itemsize) + skip + len]
  {
    hide Offset, Bytes, Selected, Product, Stream, Size;
    BytesLength(src, itemsize, Selected(g, first, count));
    StreamCut(g, itemsize, src, first, count);
    OffsetAdd(first, count, itemsize);
    SliceOfSlice(Stream(g, itemsize, src), Offset(first, itemsize), Offset(first + count, itemsize), skip, len);
  }

  /** Part of the bytes of elements `[first, first + count)`: straight into `dst` if it
      is all of them, by way of a second buffer if not. */
  method ReadRange(g: Gathered, itemsize: nat, first: nat, count: nat, skip: nat, aligned: bool, dst: array<byte>,
                   read: Reader, elems: nat, scratch: array<byte>, ghost src: seq<byte>)
    returns (done: Result<(), string>)
    requires Answers(read, src)
    requires dst != scratch && CanRead(g, itemsize, src, elems, count) && first + count <= Size(g)
    requires skip + dst.Length <= Offset(count, itemsize)
    requires aligned <==> skip == 0 && dst.Length == Offset(count, itemsize)
    modifies dst, scratch
    ensures |Bytes(src, itemsize, Selected(g, first, count))| == Offset(count, itemsize)
    ensures done.Ok? ==> dst[..] == Bytes(src, itemsize, Selected(g, first, count))[skip..skip + dst.Length]
    ensures done.Err? ==> Gave(read, src, done.error)
  {
    hide Offset, Bytes, Selected, Product, Readable, Lens, Answers, Gave;
    BytesLength(src, itemsize, Selected(g, first, count));
    if aligned {
      done := ReadWhole(g, itemsize, first, count, dst, read, elems, scratch, src);
    } else {
      var aside := new byte[Offset(count, itemsize)](_ => 0);
      done := ReadWhole(g, itemsize, first, count, aside, read, elems, scratch, src);
      if done.Ok? {
        CutFrom(aside, skip, dst);
      }
    }
  }

  method CutFrom(aside: array<byte>, skip: nat, dst: array<byte>)
    requires aside != dst && skip + dst.Length <= aside.Length
    modifies dst
    ensures dst[..] == aside[..][skip..skip + dst.Length]
  {
    CopySlice(aside, skip, dst, 0, dst.Length);
    assert dst[..dst.Length] == dst[..] && aside[skip..skip + dst.Length] == aside[..][skip..skip + dst.Length];
  }

  /** Read whole elements `[first, first + count)`, filling `out`. */
  method ReadWhole(g: Gathered, itemsize: nat, first: nat, count: nat, out: array<byte>, read: Reader, elems: nat,
                   scratch: array<byte>, ghost src: seq<byte>)
    returns (done: Result<(), string>)
    requires Answers(read, src)
    requires out != scratch && CanRead(g, itemsize, src, elems, count) && first + count <= Size(g)
    requires out.Length == Offset(count, itemsize)
    modifies out, scratch
    ensures done.Ok? ==> out[..] == Bytes(src, itemsize, Selected(g, first, count))
    ensures done.Err? ==> Gave(read, src, done.error)
  {
    hide Offset, Bytes, ItemBytes, Selected, Product, Readable, Walkable, Answers, Gave, SpanReader.Valid;
    var sink := new SpanReader(read, elems, itemsize, out, scratch, src);
    done := ForEachStretch(g, first, count, sink);
    if done.Err? {
      return;
    }
    done := sink.Finish();
    assert out[..out.Length] == out[..];
  }
}
