/** Layouts: what a key resolves to, and what reads of it return. */
module Layouts {
  import opened Words
  import opened Radix
  import opened Spans
  import opened SpanReading
  import opened Selecting
  import opened Expanding
  import opened Resolving
  import opened Meaning
  import opened Walks
  import opened Gathering
  import opened Planning
  import opened Wrapping
  import opened Contiguity
  import opened Elements

  /** The two ways a layout is served: as one slice of the array, or by a walk. */
  datatype LayoutKind = Contiguous(srcOffset: nat, len: nat) | Gather(g: Gathered)

  /** `wide` is the array's element size and `narrow` the one that travels. */
  datatype SelectionLayout = SelectionLayout(
    outShape: seq<nat>, narrow: nat, wide: nat, totalBytes: nat, kind: LayoutKind)

  /** Sizes of the element types there are. */
  predicate IsItemSize(size: nat) {
    size == 1 || size == 2 || size == 4 || size == 8 || size == 16
  }

  ghost predicate HasItems(l: SelectionLayout) {
    IsItemSize(l.narrow) && IsItemSize(l.wide)
  }

  /** The source elements numpy selects, in output order. */
  ghost function SelectedElements(sel: ResolvedSelection, entries: seq<Entry>, shape: seq<nat>): (es: seq<int>)
    requires Resolved(sel, entries, shape)
    ensures |es| == Product(sel.outShape)
  {
    ResolvedFacts(sel, entries, shape);
    ProductPositive(sel.outShape);
    seq(Product(sel.outShape), n requires 0 <= n < Product(sel.outShape) => Element(entries, shape, GroupLen(sel), n))
  }

  /** A layout names the elements of the selection, whichever way it serves them. */
  ghost predicate Serves(l: SelectionLayout, es: seq<int>, elems: nat) {
    && HasItems(l) && l.totalBytes == Offset(|es|, l.narrow) && l.totalBytes < U64
    && Within(es, 0, elems)
    && match l.kind
       case Contiguous(srcOffset, len) =>
         && len == l.totalBytes
         && (es != [] ==> es == Run(es[0], |es|) && srcOffset == Offset(es[0], l.wide))
       case Gather(g) =>
         && Walkable(g)
         && (es != [] ==> Readable(g, elems) && es == Selected(g, 0, Size(g)))
  }

  /** The one length index arrays broadcast to. */
  ghost function BroadcastTo(lengths: seq<nat>): (len: nat)
    requires Broadcastable(lengths)
    ensures Broadcasts(lengths, len) && forall other: nat :: Broadcasts(lengths, other) ==> other == len
  {
    if exists i :: 0 <= i < |lengths| && lengths[i] != 1 then
      var i :| 0 <= i < |lengths| && lengths[i] != 1;
      lengths[i]
    else 1
  }

  /** The selection an expanded key resolves to: there is only one. */
  ghost function SelectionOf(entries: seq<Entry>): (sel: ResolvedSelection)
    requires Broadcastable(GroupLengths(entries))
    ensures Describes(sel, entries)
  {
    var len := BroadcastTo(GroupLengths(entries));
    if GroupAxes(entries) == [] then ResolvedSelection(Axes(entries), OutShape(entries, 1), None)
    else
      ResolvedSelection(Axes(entries), OutShape(entries, len),
                        Some(Advanced(GroupAxes(entries), len, Adjacent(GroupPositions(entries)))))
  }

  lemma OneSelection(sel: ResolvedSelection, entries: seq<Entry>)
    requires Broadcastable(GroupLengths(entries)) && Describes(sel, entries)
    ensures sel == SelectionOf(entries)
  {
    hide BroadcastTo, Axes, GroupAxes, GroupLengths, GroupPositions, OutShape, Broadcasts, Broadcastable, Adjacent;
    var one := SelectionOf(entries);
    assert sel.advanced.Some? ==> sel.advanced.value.len == BroadcastTo(GroupLengths(entries));
  }

  /** Where a layout leads: the selected elements, all counted and placed modulo 2^64. */
  ghost predicate Leads(l: SelectionLayout, es: seq<int>) {
    && HasItems(l) && l.totalBytes == Offset(Wrap(|es|), l.narrow) && l.totalBytes < U64
    && match l.kind
       case Contiguous(srcOffset, len) =>
         && len == l.totalBytes
         && (es != [] ==> es == Run(es[0], |es|) && es[0] >= 0 && srcOffset == Wrap(Offset(es[0], l.wide)))
       case Gather(g) =>
         && Walkable(g)
         && (es != [] ==> Size(g) == |es| && GoesToAll(g, es))
  }

  ghost predicate GoesToAll(g: Gathered, es: seq<int>)
    requires Positive(Lens(g.dims))
  {
    forall n :: 0 <= n < |es| ==> GoesTo(g, n) == Wrap(es[n])
  }

  /** A layout that counts every selected byte, and goes to every selected element. */
  ghost predicate IsExact(l: SelectionLayout, es: seq<int>) {
    && l.totalBytes == Offset(|es|, l.narrow)
    && (es != [] ==>
          match l.kind
          case Contiguous(srcOffset, _) => es[0] >= 0 && srcOffset == Offset(es[0], l.wide)
          case Gather(g) => Walkable(g) && forall n :: 0 <= n < |es| ==> GoesTo(g, n) == es[n])
  }

  /** The selection counts and places its elements below 2^64. */
  ghost predicate FitsWord(contiguous: bool, es: seq<int>, wide: nat) {
    && |es| < U64
    && (es != [] ==> if contiguous then 0 <= es[0] && Offset(es[0], wide) < U64 else Within(es, 0, U64))
  }

  /** Nothing checks these sums and products on the way, and they wrap. A layout is
      the right one exactly when none of them left a word. */
  lemma ExactWhenItFits(l: SelectionLayout, es: seq<int>)
    requires Leads(l, es)
    ensures IsExact(l, es) <==> FitsWord(l.kind.Contiguous?, es, l.wide)
  {
    SameProduct(Wrap(|es|), |es|, l.narrow);
    SmallStays(|es|);
    if es != [] && l.kind.Contiguous? {
      SmallStays(Offset(es[0], l.wide));
    }
  }

  lemma SameProduct(a: nat, b: nat, size: nat)
    requires size > 0
    ensures Offset(a, size) == Offset(b, size) <==> a == b
  {
    if a < b {
      OffsetMonotone(a + 1, b, size);
      OffsetNext(a, size);
    } else if b < a {
      OffsetMonotone(b + 1, a, size);
      OffsetNext(b, size);
    }
  }

  lemma SmallStays(x: nat)
    ensures Wrap(x) == x <==> x < U64
  {
  }

  /** An array whose bytes a word can count keeps every selection of it in place. */
  lemma ArrayFitsWord(contiguous: bool, es: seq<int>, elems: nat, wide: nat)
    requires |es| < U64 && Within(es, 0, elems) && wide > 0 && Offset(elems, wide) < U64
    ensures FitsWord(contiguous, es, wide)
  {
    hide Offset;
    OffsetAtLeast(elems, wide);
    if es != [] {
      OffsetMonotone(es[0], elems, wide);
    }
  }

  /** The check on the byte count is a true one below 2^64 elements. From there on a
      true one refuses, whatever is left of the count. */
  lemma CountsApart(count: nat, size: nat)
    requires size > 0
    ensures count < U64 ==> Wrap(count) == count
    ensures count >= U64 ==> Offset(count, size) >= U64
  {
    OffsetAtLeast(count, size);
  }

  /** The layout of a key: the error of the key, or a layout that leads where
      `ServesWhereItFits` says. */
  method ResolveLayout(shape: seq<nat>, wide: nat, narrow: nat, indices: seq<Index>)
    returns (r: Result<SelectionLayout, Error>)
    requires IsItemSize(wide) && IsItemSize(narrow)
    ensures Expansion(shape, indices).Err? ==> r == Err(Expansion(shape, indices).error)
    ensures Expansion(shape, indices).Ok? ==>
      var entries := Expansion(shape, indices).value;
      if !Broadcastable(GroupLengths(entries)) then r == Err(NotBroadcastable)
      else
        var sel := SelectionOf(entries);
        && Resolved(sel, entries, shape)
        && (r.Ok? <==>
              && Offset(Wrap(Product(sel.outShape)), narrow) < U64
              && (InOneRun(sel, shape) || Addressable(shape, sel.axes, GroupOf(sel))))
        && (r.Err? ==> r.error == TooLarge)
        && (r.Ok? ==>
              && (r.value.kind.Contiguous? <==> InOneRun(sel, shape))
              && r.value.outShape == sel.outShape && r.value.wide == wide && r.value.narrow == narrow
              && ServesWhereItFits(r.value, SelectedElements(sel, entries, shape), Product(shape)))
  {
    hide SelectionOf, Product, Offset, InOneRun, Addressable, ServesWhereItFits, Describes, Fitting, Broadcastable,
         GroupLengths, Axes, Wrap;
    var resolved := Resolve(shape, indices);
    if resolved.Err? {
      return Err(resolved.error);
    }
    ghost var sel, entries := resolved.value, Expansion(shape, indices).value;
    ExpansionFits(shape, indices);
    OneSelection(sel, entries);
    SelectionResolved(sel, entries, shape);
    var total := Offset(Wrap(Product(resolved.value.outShape)), narrow);
    if total >= U64 {
      return Err(TooLarge);
    }
    var kind := Lay(shape, wide, resolved.value, total, entries);
    if kind.Err? {
      return Err(kind.error);
    }
    r := Ok(SelectionLayout(resolved.value.outShape, narrow, wide, total, kind.value));
    LaidServes(r.value, sel, entries, shape);
  }

  /** What resolving promises: the selected elements modulo 2^64 always, and
      themselves where they fit. */
  ghost predicate ServesWhereItFits(l: SelectionLayout, es: seq<int>, elems: nat) {
    Leads(l, es) && (FitsWord(l.kind.Contiguous?, es, l.wide) ==> Serves(l, es, elems))
  }

  lemma SelectionResolved(sel: ResolvedSelection, entries: seq<Entry>, shape: seq<nat>)
    requires Describes(sel, entries) && Fitting(entries, shape) && |Axes(entries)| == |shape|
    ensures Resolved(sel, entries, shape)
  {
  }

  /** When a selection is served as one run of the source. */
  ghost predicate InOneRun(sel: ResolvedSelection, shape: seq<nat>)
    requires |sel.axes| == |shape|
  {
    && Members(sel.axes, GroupOf(sel)) && WalksIndependently(sel)
    && (Empty(sel.axes)
        || (OneRun(shape, sel.axes) && Ravel(Starts(sel.axes), shape) < U64 && Product(Lengths(sel.axes)) < U64))
  }

  /** Pick the kind of layout: one run if the selection is one, and a walk if not. */
  method Lay(shape: seq<nat>, wide: nat, sel: ResolvedSelection, total: nat, ghost entries: seq<Entry>)
    returns (r: Result<LayoutKind, Error>)
    requires Resolved(sel, entries, shape)
    ensures r.Ok? <==> InOneRun(sel, shape) || Addressable(shape, sel.axes, GroupOf(sel))
    ensures r.Err? ==> r.error == TooLarge
    ensures r.Ok? ==> (r.value.Contiguous? <==> InOneRun(sel, shape))
    ensures r.Ok? ==> Laid(r.value, sel, entries, shape, wide, total)
  {
    GroupSplit(entries, sel.axes, shape, 0);
    ResolvedFacts(sel, entries, shape);
    var run: Option<(nat, nat)> := None;
    if WalksIndependently(sel) {
      run := ContiguousRun(shape, sel.axes);
    }
    if run.Some? {
      r := Ok(Contiguous(Wrap(Offset(run.value.0, wide)), total));
    } else {
      var g := NewGathered(shape, sel, entries);
      r := if g.Ok? then Ok(Gather(g.value)) else Err(g.error);
    }
  }

  /** Either kind was chosen for a reason that names the selection's elements. */
  ghost predicate Laid(kind: LayoutKind, sel: ResolvedSelection, entries: seq<Entry>, shape: seq<nat>,
                       wide: nat, total: nat)
    requires Resolved(sel, entries, shape)
  {
    && Members(sel.axes, GroupOf(sel))
    && match kind
       case Contiguous(srcOffset, len) =>
         && len == total && WalksIndependently(sel)
         && (Empty(sel.axes)
             || (OneRun(shape, sel.axes) && srcOffset == Wrap(Offset(Ravel(Starts(sel.axes), shape), wide))))
       case Gather(g) =>
         PlansWrapped(g, entries, shape, GroupLen(sel), GroupConst(sel.axes, GroupOf(sel), shape))
  }

  lemma LaidServes(l: SelectionLayout, sel: ResolvedSelection, entries: seq<Entry>, shape: seq<nat>)
    requires Resolved(sel, entries, shape) && HasItems(l) && l.outShape == sel.outShape
    requires l.totalBytes == Offset(Wrap(Product(sel.outShape)), l.narrow) && l.totalBytes < U64
    requires Laid(l.kind, sel, entries, shape, l.wide, l.totalBytes)
    ensures ServesWhereItFits(l, SelectedElements(sel, entries, shape), Product(shape))
  {
    hide Offset, Product, Element, PlansWrapped, GroupConst, Fitting, Describes, Empty, OneRun, Ravel, Wrap, GoesToAll,
         Within, Readable, Selected, SelectedElements, Walkable;
    var es := SelectedElements(sel, entries, shape);
    ProductPositive(sel.outShape);
    SelectedWithin(sel, entries, shape);
    SmallStays(|es|);
    match l.kind {
      case Contiguous(srcOffset, len) =>
        if es != [] {
          if Empty(sel.axes) {
            EmptyIsNothing(sel, entries, shape);
          }
          RunServes(sel, entries, shape);
          SmallStays(Offset(es[0], l.wide));
        }
      case Gather(g) =>
        GatherLeads(g, sel, entries, shape);
    }
  }

  /** A walk built in a u64 leads to the selected elements, and serves them if they fit. */
  lemma GatherLeads(g: Gathered, sel: ResolvedSelection, entries: seq<Entry>, shape: seq<nat>)
    requires Resolved(sel, entries, shape) && Members(sel.axes, GroupOf(sel))
    requires PlansWrapped(g, entries, shape, GroupLen(sel), GroupConst(sel.axes, GroupOf(sel), shape))
    ensures Walkable(g)
    ensures var es := SelectedElements(sel, entries, shape);
      es != [] ==>
        && Size(g) == |es| && GoesToAll(g, es)
        && (Within(es, 0, U64) ==> Readable(g, Product(shape)) && es == Selected(g, 0, Size(g)))
  {
    hide Plans, GroupConst, Element, Readable, SelectedElements, Fitting, Describes, At, GoesToAll, Product;
    var c := GroupConst(sel.axes, GroupOf(sel), shape);
    var exact :| Plans(exact, entries, shape, GroupLen(sel), c) && g == Wrapped(exact);
    PlanWalkable(exact, entries, shape, GroupLen(sel), c);
    SameLens(exact.dims);
    WalkableWrapped(exact);
    var es := SelectedElements(sel, entries, shape);
    if es != [] {
      PlanServes(exact, sel, entries, shape);
      assert Size(g) == Size(exact) == |es|;
      AllGoTo(exact, es);
      if Within(es, 0, U64) {
        NamesBelow(exact, es);
        NeverWrapped(exact);
      }
    }
  }

  lemma WalkableWrapped(exact: Gathered)
    requires Walkable(exact)
    ensures Walkable(Wrapped(exact))
  {
    SameLens(exact.dims);
    var dims := Wrapped(exact).dims;
    forall i | 0 <= i < |dims| ensures dims[i].Len() > 1 {
      assert Lens(dims)[i] == Lens(exact.dims)[i];
    }
  }

  lemma AllGoTo(exact: Gathered, es: seq<int>)
    requires Walkable(exact) && es == Selected(exact, 0, Size(exact))
    ensures Walkable(Wrapped(exact)) && GoesToAll(Wrapped(exact), es)
  {
    hide GoesTo, At;
    WalkableWrapped(exact);
    forall n | 0 <= n < |es| ensures GoesTo(Wrapped(exact), n) == Wrap(es[n]) {
      GoesToWrapped(exact, n);
    }
  }

  lemma NamesBelow(g: Gathered, es: seq<int>)
    requires Positive(Lens(g.dims)) && es == Selected(g, 0, Size(g)) && Within(es, 0, U64)
    ensures AllBelow(g, U64)
  {
    hide At;
    forall n | 0 <= n < Size(g) ensures At(g, n) < U64 {
      assert es[n] == At(g, n);
    }
  }

  lemma PlanWalkable(g: Gathered, entries: seq<Entry>, shape: seq<nat>, len: nat, c: int)
    requires Plans(g, entries, shape, len, c)
    ensures Walkable(g)
  {
    assert forall i :: 0 <= i < |g.dims| ==> Lens(g.dims)[i] == g.dims[i].Len();
  }

  lemma SelectedWithin(sel: ResolvedSelection, entries: seq<Entry>, shape: seq<nat>)
    requires Resolved(sel, entries, shape)
    ensures Within(SelectedElements(sel, entries, shape), 0, Product(shape))
  {
    var es := SelectedElements(sel, entries, shape);
    ProductPositive(sel.outShape);
    forall n | 0 <= n < |es| ensures 0 <= es[n] < Product(shape) {
      ElementInside(sel, entries, shape, n);
    }
  }

  lemma RunServes(sel: ResolvedSelection, entries: seq<Entry>, shape: seq<nat>)
    requires Resolved(sel, entries, shape) && Product(sel.outShape) > 0
    requires Members(sel.axes, GroupOf(sel)) && WalksIndependently(sel) && OneRun(shape, sel.axes)
    ensures SelectedElements(sel, entries, shape) == Run(Ravel(Starts(sel.axes), shape), Product(sel.outShape))
  {
    hide Element, Ravel, WholeRows, WalksIndependently, Product, Describes, Fitting;
    var es := SelectedElements(sel, entries, shape);
    ProductPositive(sel.outShape);
    forall n | 0 <= n < |es| ensures es[n] == Ravel(Starts(sel.axes), shape) + n {
      RunIsSelection(sel, entries, shape, n);
    }
  }

  lemma PlanServes(g: Gathered, sel: ResolvedSelection, entries: seq<Entry>, shape: seq<nat>)
    requires Resolved(sel, entries, shape) && Product(sel.outShape) > 0
    requires Members(sel.axes, GroupOf(sel))
    requires Plans(g, entries, shape, GroupLen(sel), GroupConst(sel.axes, GroupOf(sel), shape))
    ensures Readable(g, Product(shape)) && SelectedElements(sel, entries, shape) == Selected(g, 0, Size(g))
  {
    hide Plans, GroupConst, At, Element, Readable;
    ProductPositive(sel.outShape);
    PlanReadable(g, sel, entries, shape);
    ReadablePositive(g, Product(shape));
    var es := SelectedElements(sel, entries, shape);
    forall n | 0 <= n < |es| ensures es[n] == At(g, n) {
      PlanIsSelection(g, sel, entries, shape, n);
    }
  }

  lemma ReadablePositive(g: Gathered, elems: nat)
    requires Readable(g, elems)
    ensures Positive(Lens(g.dims)) && Walkable(g)
  {
  }

  /** A narrowing of one element, as a quality the server agrees to does it. */
  ghost predicate Narrows(cast: seq<byte> -> seq<byte>, wide: nat, narrow: nat) {
    forall b: seq<byte> :: |b| == wide ==> |cast(b)| == narrow
  }

  /** Source elements, each narrowed, one after the other. */
  ghost function Narrowed(cast: seq<byte> -> seq<byte>, src: seq<byte>, wide: nat, es: seq<int>): seq<byte> {
    if es == [] then []
    else Narrowed(cast, src, wide, es[..|es| - 1]) + cast(ItemBytes(src, wide, es[|es| - 1]))
  }

  lemma {:induction false} NarrowedLength(cast: seq<byte> -> seq<byte>, src: seq<byte>, wide: nat, narrow: nat,
      es: seq<int>)
    requires Narrows(cast, wide, narrow)
    ensures |Narrowed(cast, src, wide, es)| == Offset(|es|, narrow)
    decreases |es|
  {
    hide Offset, ItemBytes;
    if es == [] {
      OffsetNext(0, narrow);
    } else {
      NarrowedLength(cast, src, wide, narrow, es[..|es| - 1]);
      OffsetNext(|es| - 1, narrow);
    }
  }

  lemma {:induction false} NarrowedConcat(cast: seq<byte> -> seq<byte>, src: seq<byte>, wide: nat, a: seq<int>,
      b: seq<int>)
    ensures Narrowed(cast, src, wide, a + b) == Narrowed(cast, src, wide, a) + Narrowed(cast, src, wide, b)
    decreases |b|
  {
    hide ItemBytes;
    if b == [] {
      assert a + b == a;
    } else {
      NarrowedConcat(cast, src, wide, a, b[..|b| - 1]);
      assert (a + b)[..|a + b| - 1] == a + b[..|b| - 1];
    }
  }

  /** What a client is to receive: the selected elements' bytes, each narrowed under a cast. */
  ghost function LogicalStream(l: SelectionLayout, es: seq<int>, src: seq<byte>,
      cast: Option<seq<byte> -> seq<byte>>): seq<byte> {
    match cast
    case None => Bytes(src, l.wide, es)
    case Some(f) => Narrowed(f, src, l.wide, es)
  }

  /** Its length is what the layout counted. */
  lemma StreamIsWhole(l: SelectionLayout, es: seq<int>, src: seq<byte>, elems: nat,
      cast: Option<seq<byte> -> seq<byte>>)
    requires Backs(l, es, src, elems)
    requires if cast.Some? then Narrows(cast.value, l.wide, l.narrow) else l.wide == l.narrow
    ensures |LogicalStream(l, es, src, cast)| == l.totalBytes
  {
    hide Offset, Bytes, ItemBytes, Narrowed;
    if cast.Some? {
      NarrowedLength(cast.value, src, l.wide, l.narrow, es);
    } else {
      BytesLength(src, l.wide, es);
    }
  }

  /** The array behind a layout. */
  ghost predicate Backs(l: SelectionLayout, es: seq<int>, src: seq<byte>, elems: nat) {
    Serves(l, es, elems) && |src| == Offset(elems, l.wide) && |src| < U64
  }

  /** An array whose bytes no word can count is read through the part of it that the
      selection lies in, if a word can count that. */
  lemma FrontBacks(l: SelectionLayout, es: seq<int>, src: seq<byte>, elems: nat, bound: nat,
                   cast: Option<seq<byte> -> seq<byte>>)
    requires Serves(l, es, elems) && |src| == Offset(elems, l.wide)
    requires bound <= elems && Within(es, 0, bound) && Offset(bound, l.wide) < U64
    ensures Offset(bound, l.wide) <= |src| && Backs(l, es, src[..Offset(bound, l.wide)], bound)
    ensures LogicalStream(l, es, src[..Offset(bound, l.wide)], cast) == LogicalStream(l, es, src, cast)
  {
    hide Offset, Bytes, Narrowed, At;
    OffsetMonotone(bound, elems, l.wide);
    if l.kind.Gather? && es != [] {
      FrontReadable(l.kind.g, es, elems, bound);
    }
    FrontBytes(src, bound, l.wide, es, if cast.Some? then cast.value else x => x);
  }

  lemma FrontReadable(g: Gathered, es: seq<int>, elems: nat, bound: nat)
    requires Readable(g, elems) && es == Selected(g, 0, Size(g)) && Within(es, 0, bound)
    ensures Readable(g, bound)
  {
    hide At;
    forall n | 0 <= n < Size(g) ensures 0 <= At(g, n) < bound {
      assert es[n] == At(g, n);
    }
  }

  lemma {:induction false} FrontBytes(src: seq<byte>, bound: nat, wide: nat, es: seq<int>, cast: seq<byte> -> seq<byte>)
    requires Offset(bound, wide) <= |src| && Within(es, 0, bound)
    ensures Bytes(src[..Offset(bound, wide)], wide, es) == Bytes(src, wide, es)
    ensures Narrowed(cast, src[..Offset(bound, wide)], wide, es) == Narrowed(cast, src, wide, es)
    decreases |es|
  {
    hide ItemBytes, Offset;
    if es != [] {
      var n := |es| - 1;
      FrontBytes(src, bound, wide, es[..n], cast);
      FrontItem(src, bound, wide, es[n]);
    }
  }

  lemma FrontItem(src: seq<byte>, bound: nat, wide: nat, e: int)
    requires Offset(bound, wide) <= |src| && 0 <= e < bound
    ensures ItemBytes(src[..Offset(bound, wide)], wide, e) == ItemBytes(src, wide, e)
  {
    hide Offset;
    OffsetNext(e, wide);
    OffsetMonotone(e + 1, bound, wide);
  }

  /** The layout's elements in the array's own type: `[offset, offset + dst.Length)`
      of their bytes, whichever kind of layout it is. */
  method ReadElements(l: SelectionLayout, offset: nat, dst: array<byte>, read: Reader, elems: nat, scratch: array<byte>,
                      ghost src: seq<byte>, ghost es: seq<int>)
    returns (done: Result<(), string>)
    requires Answers(read, src)
    requires Backs(l, es, src, elems) && dst != scratch
    requires offset + dst.Length <= Offset(|es|, l.wide)
    modifies dst, scratch
    ensures |Bytes(src, l.wide, es)| == Offset(|es|, l.wide)
    ensures done.Ok? ==> dst[..] == Bytes(src, l.wide, es)[offset..offset + dst.Length]
    ensures done.Err? ==> Gave(read, src, done.error)
  {
    hide Bytes, Offset, Selected, Positive, Answers, Gave;
    done := Ok(());
    BytesLength(src, l.wide, es);
    match l.kind {
      case Contiguous(srcOffset, len) =>
        if dst.Length > 0 {
          SpansARun(l, es, src, elems, offset, dst.Length);
          done := ReadSource(read, srcOffset + offset, dst, 0, dst.Length, src);
          assert dst[..] == dst[..dst.Length];
        }
      case Gather(g) =>
        SameSize(l, es, elems, g);
        done := Read(g, l.wide, offset, dst, read, elems, scratch, src);
    }
  }

  lemma SameSize(l: SelectionLayout, es: seq<int>, elems: nat, g: Gathered)
    requires Serves(l, es, elems) && l.kind == Gather(g)
    ensures Positive(Lens(g.dims))
    ensures es != [] ==> Size(g) == |es| && es == Selected(g, 0, Size(g))
    ensures es == [] ==> Offset(|es|, l.wide) == 0
  {
  }

  /** A run of elements is a slice of the source. */
  lemma SpansARun(l: SelectionLayout, es: seq<int>, src: seq<byte>, elems: nat, offset: nat, len: nat)
    requires Backs(l, es, src, elems) && l.kind.Contiguous? && len > 0
    requires offset + len <= Offset(|es|, l.wide)
    ensures l.kind.srcOffset + offset + len <= |src|
    ensures |Bytes(src, l.wide, es)| == Offset(|es|, l.wide)
    ensures src[l.kind.srcOffset + offset..l.kind.srcOffset + offset + len]
      == Bytes(src, l.wide, es)[offset..offset + len]
  {
    hide Offset, Bytes, ItemBytes;
    BytesLength(src, l.wide, es);
    if es == [] {
      OffsetNext(0, l.wide);
    }
    var at := es[0];
    assert es[|es| - 1] == at + |es| - 1;
    OffsetMonotone(at + |es|, elems, l.wide);
    OffsetAdd(at, |es|, l.wide);
    BytesOfRun(src, l.wide, at, |es|);
    SliceOfSlice(src, Offset(at, l.wide), Offset(at + |es|, l.wide), offset, len);
  }

  /** The range is inside the stream, and a word can hold its end. */
  predicate InRange(l: SelectionLayout, offset: nat, len: nat) {
    offset + len < U64 && offset + len <= l.totalBytes
  }

  /** Why a read fails: the range was refused, or storage gave an error. */
  datatype ReadError = OutOfRange | Storage(error: string)

  /** Under a cast reading starts at element `at` of the selection: the product of
      `first` and the item size wraps. */
  ghost predicate StartsAt(at: nat, first: nat, wide: nat) {
    Offset(at, wide) == Wrap(Offset(first, wide))
  }

  /** It starts at the element it should exactly when the product fits a word. */
  lemma StartsExactly(at: nat, first: nat, wide: nat)
    requires wide > 0 && StartsAt(at, first, wide)
    ensures at == first <==> Offset(first, wide) < U64
  {
    hide Wrap, Offset;
    SmallStays(Offset(first, wide));
    SameProduct(at, first, wide);
  }

  /** There is such an element, since item sizes divide 2^64. */
  lemma StartsSomewhere(first: nat, wide: nat) returns (at: nat)
    requires IsItemSize(wide)
    ensures StartsAt(at, first, wide) && at <= first
  {
    var q: nat := if wide == 1 then U64 else if wide == 2 then U64 / 2 else if wide == 4 then U64 / 4
                  else if wide == 8 then U64 / 8 else U64 / 16;
    at := StartsWithin(first, wide, q);
  }

  lemma StartsWithin(first: nat, wide: nat, q: nat) returns (at: nat)
    requires q > 0 && wide * q == U64
    ensures StartsAt(at, first, wide) && at <= first
  {
    hide Wrap, Offset;
    var k: nat;
    k, at := Divided(first, q);
    Spread(first, k, at, wide, q);
    OffsetBelow(at, q, wide);
    SmallStays(Offset(at, wide));
    WrapMultiple(Offset(at, wide), k);
  }

  lemma Divided(n: nat, d: nat) returns (q: nat, r: nat)
    requires d > 0
    ensures n == q * d + r && r < d && r <= n
  {
    q, r := n / d, n % d;
  }

  lemma OffsetBelow(x: nat, q: nat, wide: nat)
    requires x < q
    ensures Offset(x, wide) <= wide * q && (wide > 0 ==> Offset(x, wide) < wide * q)
  {
    MulLe(x + 1, q, wide);
  }

  lemma Spread(first: nat, k: nat, rest: nat, wide: nat, q: nat)
    requires first == k * q + rest
    ensures Offset(first, wide) == Offset(rest, wide) + k * (wide * q)
  {
  }

  lemma StartOffset(at: nat, first: nat, wide: nat)
    requires StartsAt(at, first, wide)
    ensures Offset(at, wide) == Wrap(Offset(first, wide))
  {
  }

  /** A read of the stream from `offset` starts at the element it should. */
  predicate CastFits(l: SelectionLayout, cast: bool, offset: nat)
    requires l.narrow > 0
  {
    cast ==> Offset(offset / l.narrow, l.wide) < U64
  }

  /** It always does if a word can count the selection's bytes before the cast. */
  lemma CastAlwaysFits(l: SelectionLayout, es: seq<int>, cast: bool, offset: nat)
    requires HasItems(l) && offset <= Offset(|es|, l.narrow) && Offset(|es|, l.wide) < U64
    ensures CastFits(l, cast, offset)
  {
    Covering(offset, offset, |es|, l.narrow);
    OffsetMonotone(offset / l.narrow, |es|, l.wide);
  }

  /** Any range of what the client is to receive; nothing is written for one outside it. */
  method ReadWith(l: SelectionLayout, offset: nat, dst: array<byte>, read: Reader, elems: nat,
                  cast: Option<seq<byte> -> seq<byte>>, scratch: array<byte>, ghost src: seq<byte>, ghost es: seq<int>)
    returns (r: Result<(), ReadError>)
    requires Backs(l, es, src, elems) && Answers(read, src) && dst != scratch
    requires if cast.Some? then Narrows(cast.value, l.wide, l.narrow) else l.wide == l.narrow
    modifies dst, scratch
    ensures r == Err(OutOfRange) <==> offset + dst.Length > l.totalBytes
    ensures r == Err(OutOfRange) ==> dst[..] == old(dst[..])
    ensures r.Err? && r.error.Storage? ==> Gave(read, src, r.error.error)
    ensures |LogicalStream(l, es, src, cast)| == l.totalBytes
    ensures r.Ok? && CastFits(l, cast.Some?, offset) ==>
      dst[..] == LogicalStream(l, es, src, cast)[offset..offset + dst.Length]
  {
    hide Offset, Bytes, ItemBytes, Narrowed, Answers, Gave, NarrowedFrom;
    StreamIsWhole(l, es, src, elems, cast);
    if !InRange(l, offset, dst.Length) {
      return Err(OutOfRange);
    }
    var done;
    if cast.None? {
      done := ReadElements(l, offset, dst, read, elems, scratch, src, es);
    } else {
      done := ReadCast(l, offset, dst, read, elems, cast.value, scratch, src, es);
    }
    r := if done.Ok? then Ok(()) else Err(Storage(done.error));
  }

  /** Bytes from the `count` elements at `at`, narrowed, `skip` of them left out. */
  ghost predicate NarrowedFrom(cast: seq<byte> -> seq<byte>, src: seq<byte>, wide: nat, es: seq<int>,
                               at: nat, count: nat, skip: nat, bytes: seq<byte>) {
    && at + count <= |es| && skip + |bytes| <= |Narrowed(cast, src, wide, es[at..at + count])|
    && bytes == Narrowed(cast, src, wide, es[at..at + count])[skip..skip + |bytes|]
  }

  /** The elements a range of the narrowed stream touches are read whole, narrowed
      aside, and the range cut out, wherever in an element it starts or ends. */
  method ReadCast(l: SelectionLayout, offset: nat, dst: array<byte>, read: Reader, elems: nat,
                  cast: seq<byte> -> seq<byte>, scratch: array<byte>, ghost src: seq<byte>, ghost es: seq<int>)
    returns (done: Result<(), string>)
    requires Backs(l, es, src, elems) && Answers(read, src) && dst != scratch && Narrows(cast, l.wide, l.narrow)
    requires offset + dst.Length <= Offset(|es|, l.narrow)
    modifies dst, scratch
    ensures |Narrowed(cast, src, l.wide, es)| == Offset(|es|, l.narrow)
    ensures done.Ok? ==> exists at, count ::
      && StartsAt(at, offset / l.narrow, l.wide)
      && NarrowedFrom(cast, src, l.wide, es, at, count, offset % l.narrow, dst[..])
    ensures done.Ok? && CastFits(l, true, offset) ==>
      dst[..] == Narrowed(cast, src, l.wide, es)[offset..offset + dst.Length]
    ensures done.Err? ==> Gave(read, src, done.error)
  {
    hide Offset, Bytes, ItemBytes, Narrowed, Answers, Gave, StartsAt, Wrap;
    var first, count, skip, aligned := Cover(offset, offset + dst.Length, l.narrow, |es|);
    ghost var at := StartsSomewhere(first, l.wide);
    StartsExactly(at, first, l.wide);
    StartOffset(at, first, l.wide);
    ElementsOf(l, src, es, at, count);
    NarrowedLength(cast, src, l.wide, l.narrow, es);
    var source := new byte[Offset(count, l.wide)](_ => 0);
    done := ReadElements(l, Wrap(Offset(first, l.wide)), source, read, elems, scratch, src, es);
    if done.Err? {
      return;
    }
    ghost var some := es[at..at + count];
    var narrowed := new byte[Offset(count, l.narrow)](_ => 0);
    CastInto(cast, l.wide, l.narrow, source, narrowed, count, src, some);
    CutFrom(narrowed, skip, dst);
    assert NarrowedFrom(cast, src, l.wide, es, at, count, skip, dst[..]);
    if CastFits(l, true, offset) {
      NarrowedCut(cast, src, l.wide, l.narrow, es, first, count, skip, dst.Length);
    }
  }

  /** The elements a cut of the stream needs are a cut of the elements' bytes. */
  lemma ElementsOf(l: SelectionLayout, src: seq<byte>, es: seq<int>, first: nat, count: nat)
    requires first + count <= |es|
    ensures Offset(first, l.wide) + Offset(count, l.wide) <= Offset(|es|, l.wide) == |Bytes(src, l.wide, es)|
    ensures Bytes(src, l.wide, es)[Offset(first, l.wide)..Offset(first, l.wide) + Offset(count, l.wide)]
         == Bytes(src, l.wide, es[first..first + count])
  {
    hide Offset, Bytes, ItemBytes;
    var a, b, c := es[..first], es[first..first + count], es[first + count..];
    assert es == a + b + c;
    BytesConcat(src, l.wide, a, b);
    BytesConcat(src, l.wide, a + b, c);
    BytesLength(src, l.wide, a);
    BytesLength(src, l.wide, b);
    BytesLength(src, l.wide, es);
    OffsetAdd(first, count, l.wide);
    OffsetMonotone(first + count, |es|, l.wide);
  }

  lemma NarrowedCut(cast: seq<byte> -> seq<byte>, src: seq<byte>, wide: nat, narrow: nat, es: seq<int>,
                    first: nat, count: nat, skip: nat, len: nat)
    requires Narrows(cast, wide, narrow) && first + count <= |es| && skip + len <= Offset(count, narrow)
    ensures |Narrowed(cast, src, wide, es[first..first + count])| == Offset(count, narrow)
    ensures Offset(first, narrow) + skip + len <= |Narrowed(cast, src, wide, es)| == Offset(|es|, narrow)
    ensures Narrowed(cast, src, wide, es[first..first + count])[skip..skip + len]
         == Narrowed(cast, src, wide, es)[Offset(first, narrow) + skip..Offset(first, narrow) + skip + len]
  {
    hide Offset, ItemBytes, Narrowed, Narrows;
    var a, b, c := es[..first], es[first..first + count], es[first + count..];
    assert es == a + b + c;
    NarrowedConcat(cast, src, wide, a, b);
    NarrowedConcat(cast, src, wide, a + b, c);
    NarrowedLength(cast, src, wide, narrow, a);
    NarrowedLength(cast, src, wide, narrow, b);
    NarrowedLength(cast, src, wide, narrow, es);
    OffsetAdd(first, count, narrow);
    OffsetMonotone(first + count, |es|, narrow);
    var all := Narrowed(cast, src, wide, es);
    assert all[Offset(first, narrow)..Offset(first, narrow) + Offset(count, narrow)] == Narrowed(cast, src, wide, b);
    SliceOfSlice(all, Offset(first, narrow), Offset(first, narrow) + Offset(count, narrow), skip, len);
  }

  /** Narrow every element of `source` into `out`. */
  method CastInto(cast: seq<byte> -> seq<byte>, wide: nat, narrow: nat, source: array<byte>, out: array<byte>,
      count: nat,
                  ghost src: seq<byte>, ghost es: seq<int>)
    requires source != out && Narrows(cast, wide, narrow) && |es| == count
    requires source.Length == Offset(count, wide) && out.Length == Offset(count, narrow)
    requires source[..] == Bytes(src, wide, es)
    modifies out
    ensures out[..] == Narrowed(cast, src, wide, es)
  {
    hide Offset, Bytes, ItemBytes, Narrowed, Narrows;
    CastStart(src, wide, narrow, cast);
    ghost var bytes := source[..];
    for i := 0 to count
      invariant source[..] == bytes && Offset(i, narrow) <= out.Length
      invariant out[..Offset(i, narrow)] == Narrowed(cast, src, wide, es[..i])
    {
      OffsetMonotone(i + 1, count, narrow);
      OffsetMonotone(i + 1, count, wide);
      OffsetNext(i, narrow);
      OffsetNext(i, wide);
      NarrowedSnoc(cast, src, wide, narrow, es, i);
      NthItem(src, wide, es, i);
      var item := cast(source[Offset(i, wide)..Offset(i + 1, wide)]);
      Place(item, out, Offset(i, narrow));
    }
    assert es[..count] == es && out[..out.Length] == out[..];
  }

  lemma CastStart(src: seq<byte>, wide: nat, narrow: nat, cast: seq<byte> -> seq<byte>)
    ensures Offset(0, narrow) == 0 && Narrowed(cast, src, wide, []) == []
  {
  }

  method Place(item: seq<byte>, out: array<byte>, at: nat)
    requires at + |item| <= out.Length
    modifies out
    ensures out[..at + |item|] == old(out[..at]) + item
  {
    forall k | 0 <= k < |item| {
      out[at + k] := item[k];
    }
    assert out[at..at + |item|] == item;
    assert out[..at + |item|] == out[..at] + out[at..at + |item|];
  }

  lemma NarrowedSnoc(cast: seq<byte> -> seq<byte>, src: seq<byte>, wide: nat, narrow: nat, es: seq<int>, i: nat)
    requires i < |es| && Narrows(cast, wide, narrow)
    ensures Narrowed(cast, src, wide, es[..i + 1])
      == Narrowed(cast, src, wide, es[..i]) + cast(ItemBytes(src, wide, es[i]))
    ensures |cast(ItemBytes(src, wide, es[i]))| == narrow
  {
    assert es[..i + 1][..i] == es[..i];
  }

  /** The bytes of the `i`-th of a list of elements. */
  lemma NthItem(src: seq<byte>, wide: nat, es: seq<int>, i: nat)
    requires i < |es|
    ensures Offset(i, wide) <= Offset(i + 1, wide) <= |Bytes(src, wide, es)|
    ensures Bytes(src, wide, es)[Offset(i, wide)..Offset(i + 1, wide)] == ItemBytes(src, wide, es[i])
  {
    hide Offset, Bytes, ItemBytes;
    var a, c := es[..i], es[i + 1..];
    assert es == es[..i + 1] + c;
    BytesSnoc(src, wide, es, i);
    BytesConcat(src, wide, es[..i + 1], c);
    BytesLength(src, wide, a);
    BytesLength(src, wide, es[..i + 1]);
    OffsetNext(i, wide);
  }

  /** The bytes of the array to ask for ahead of a read, for a contiguous layout. What
      the range has past the end does not count. */
  function SourceRun(l: SelectionLayout, offset: nat, len: nat): Option<(nat, nat)>
    requires l.narrow > 0
  {
    if l.kind.Gather? || offset > l.totalBytes then None
    else
      var clipped := Min(len, l.totalBytes - offset);
      if clipped == 0 then None
      else
        var first := offset / l.narrow;
        QuotientMonotone(offset, offset + clipped, l.narrow);
        var count := DivCeil(offset + clipped, l.narrow) - first;
        Some((l.kind.srcOffset + Offset(first, l.wide), Offset(count, l.wide)))
  }

  /** The run asked for ahead of time is inside the array, and is exactly the
      source elements behind the stream elements the clipped range touches. */
  lemma SourceRunCovers(l: SelectionLayout, es: seq<int>, src: seq<byte>, elems: nat, offset: nat, len: nat)
    returns (first: nat, count: nat)
    requires Backs(l, es, src, elems)
    ensures SourceRun(l, offset, len).Some? <==> l.kind.Contiguous? && len > 0 && offset < l.totalBytes
    ensures SourceRun(l, offset, len).Some? ==>
      var (at, n) := SourceRun(l, offset, len).value;
      && first + count <= |es| && at + n <= |src|
      && src[at..at + n] == Bytes(src, l.wide, es[first..first + count])
      && AreTouched(first, count, |es|, offset, offset + Min(len, l.totalBytes - offset), l.narrow)
  {
    hide Offset, Bytes, ItemBytes, DivCeil, Backs, AreTouched;
    first, count := 0, 0;
    BackedSize(l, es, src, elems);
    if SourceRun(l, offset, len).Some? {
      var end := offset + Min(len, l.totalBytes - offset);
      Covering(offset, end, |es|, l.narrow);
      first := offset / l.narrow;
      count := DivCeil(end, l.narrow) - first;
      RunBytes(l, es, src, elems, first, count);
      TouchedOnes(first, count, |es|, offset, end, l.narrow);
    }
  }

  lemma BackedSize(l: SelectionLayout, es: seq<int>, src: seq<byte>, elems: nat)
    requires Backs(l, es, src, elems)
    ensures l.narrow > 0 && l.totalBytes == Offset(|es|, l.narrow)
    ensures l.totalBytes > 0 ==> es != []
  {
    OffsetNext(0, l.narrow);
  }

  lemma TouchedOnes(first: nat, count: nat, total: nat, offset: nat, end: nat, narrow: nat)
    requires narrow > 0 && offset <= end && first == offset / narrow && first + count == DivCeil(end, narrow)
    ensures AreTouched(first, count, total, offset, end, narrow)
  {
    hide DivCeil, Offset;
    forall e | 0 <= e < total ensures first <= e < first + count <==> Touches(e, offset, end, narrow) {
      TouchedBy(e, offset, end, narrow);
    }
  }

  /** Stream element `e` has a byte in `[offset, end)`. */
  ghost predicate Touches(e: nat, offset: nat, end: nat, narrow: nat) {
    Offset(e, narrow) < end && offset < Offset(e + 1, narrow)
  }

  /** Elements `[first, first + count)` of `total` are those the range touches. */
  ghost predicate AreTouched(first: nat, count: nat, total: nat, offset: nat, end: nat, narrow: nat) {
    forall e :: 0 <= e < total ==> (first <= e < first + count <==> Touches(e, offset, end, narrow))
  }

  lemma TouchedBy(e: nat, offset: nat, end: nat, narrow: nat)
    requires narrow > 0 && offset <= end
    ensures offset / narrow <= e < DivCeil(end, narrow) <==> Touches(e, offset, end, narrow)
  {
    hide DivCeil;
    CeilAbove(e, end, narrow);
    FloorBelow(e, offset, narrow);
  }

  lemma CeilAbove(e: nat, end: nat, d: nat)
    requires d > 0
    ensures e < DivCeil(end, d) <==> Offset(e, d) < end
  {
    var q := end / d;
    assert end == q * d + end % d;
    if e < q {
      MulLe(e + 1, q, d);
    } else if e > q {
      MulLe(q + 1, e, d);
    }
  }

  lemma FloorBelow(e: nat, offset: nat, d: nat)
    requires d > 0
    ensures offset / d <= e <==> offset < Offset(e + 1, d)
  {
    var q := offset / d;
    assert offset == q * d + offset % d;
    if q <= e {
      MulLe(q + 1, e + 1, d);
    } else {
      MulLe(e + 1, q, d);
    }
  }

  lemma RunBytes(l: SelectionLayout, es: seq<int>, src: seq<byte>, elems: nat, first: nat, count: nat)
    requires Backs(l, es, src, elems) && l.kind.Contiguous? && first + count <= |es| && es != []
    ensures var at := l.kind.srcOffset + Offset(first, l.wide);
      && at + Offset(count, l.wide) <= |src|
      && src[at..at + Offset(count, l.wide)] == Bytes(src, l.wide, es[first..first + count])
  {
    hide Offset, Bytes, ItemBytes, Run, Within, Backs;
    BackedRun(l, es, src, elems);
    var base := es[0];
    RunSlice(es, first, count, elems);
    OffsetAdd(base, first, l.wide);
    OffsetAdd(base + first, count, l.wide);
    OffsetMonotone(base + first + count, elems, l.wide);
    BytesOfRun(src, l.wide, base + first, count);
  }

  lemma BackedRun(l: SelectionLayout, es: seq<int>, src: seq<byte>, elems: nat)
    requires Backs(l, es, src, elems) && l.kind.Contiguous? && es != []
    ensures es == Run(es[0], |es|) && Within(es, 0, elems) && 0 <= es[0]
    ensures l.kind.srcOffset == Offset(es[0], l.wide) && |src| == Offset(elems, l.wide)
  {
    hide Offset, Run;
  }

  lemma RunSlice(es: seq<int>, first: nat, count: nat, elems: nat)
    requires es != [] && first + count <= |es| && es == Run(es[0], |es|) && Within(es, 0, elems)
    ensures es[first..first + count] == Run(es[0] + first, count)
    ensures es[0] >= 0 && es[0] + first + count <= elems
  {
    assert es[|es| - 1] == es[0] + |es| - 1;
  }
}
