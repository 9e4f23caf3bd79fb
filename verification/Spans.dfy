/** Stretches of source elements, and the reader that joins them into spans.

    A gathered selection names its source elements in output order as a list of
    stretches. What a list of stretches means is
    only the list of elements it names, however they are fetched. */
module Spans {
  import opened Words
  import opened Radix

  /** Spans with more bytes than this between them are not joined. */
  const SPAN_GAP_BYTES: nat := 4096

  /** No joined span, and so no scratch buffer, has more bytes than this. */
  const SPAN_MAX_BYTES: nat := 0x10_0000

  /** `count` source elements from `src` on, `step` apart. */
  datatype Stretch = Stretch(src: nat, step: i64, count: nat) {

    /** Bounds of its elements, computed as a u64 does; `ExtentExact` says they are right. */
    function Extent(): (nat, nat)
      requires count > 0
    {
      var last := Wrap(src + Wrap((count - 1) * Wrap(step)));
      (Min(src, last), Max(src, last) + 1)
    }

    ghost function Elements(): seq<int> {
      seq(count, i => src + i * step)
    }

    /** How far its last element lies from its first. */
    ghost function Reach(): nat
      requires count > 0
    {
      Offset(count - 1, Abs(step))
    }

    /** Small enough for the scratch buffer, or never read through it. */
    ghost predicate Fits(itemsize: nat) {
      count > 0 && (step == 1 || Offset(Reach() + 1, itemsize) <= SPAN_MAX_BYTES)
    }
  }

  /** Bounds in the source, and the part of the output whose elements lie between them. */
  datatype Span = Span(lo: nat, hi: nat, outAt: nat, outCount: nat) {

    /** The span over both, unless the gap or the whole would be too large. */
    function Join(lo': nat, hi': nat, count: nat, itemsize: nat): Option<Span>
      requires itemsize > 0 && lo <= hi
    {
      var gap := SPAN_GAP_BYTES / itemsize;
      var (newLo, newHi) := (Min(lo, lo'), Max(hi, hi'));
      var near := Wrap(hi' + gap) >= lo && lo' <= Wrap(hi + gap);
      if !near || (newHi - newLo) * itemsize > SPAN_MAX_BYTES then None
      else Some(Span(newLo, newHi, outAt, outCount + count))
    }
  }

  lemma SingleElement(s: Stretch)
    requires s.count == 1
    ensures Stretch(s.src, 1, 1).Elements() == s.Elements()
  {
  }

  lemma MergeRuns(p: Stretch, s: Stretch)
    requires p.step == 1 && s.step == 1 && p.src + p.count == s.src
    ensures Stretch(p.src, 1, p.count + s.count).Elements() == p.Elements() + s.Elements()
  {
  }

  ghost function AllElements(ss: seq<Stretch>): seq<int> {
    if ss == [] then [] else AllElements(ss[..|ss| - 1]) + ss[|ss| - 1].Elements()
  }

  ghost predicate Within(es: seq<int>, lo: int, hi: int) {
    forall i :: 0 <= i < |es| ==> lo <= es[i] < hi
  }

  /** The bytes of source element `e`. Zeros where there is no such element. */
  ghost function ItemBytes(src: seq<byte>, itemsize: nat, e: int): (b: seq<byte>)
    ensures |b| == itemsize
  {
    if e >= 0 && Offset(e, itemsize) + itemsize <= |src|
    then src[Offset(e, itemsize)..Offset(e, itemsize) + itemsize]
    else seq(itemsize, _ => 0)
  }

  /** The bytes of a list of source elements, one after the other. */
  ghost function Bytes(src: seq<byte>, itemsize: nat, es: seq<int>): seq<byte> {
    if es == [] then []
    else Bytes(src, itemsize, es[..|es| - 1]) + ItemBytes(src, itemsize, es[|es| - 1])
  }

  lemma {:induction false} BytesLength(src: seq<byte>, itemsize: nat, es: seq<int>)
    ensures |Bytes(src, itemsize, es)| == Offset(|es|, itemsize)
    decreases |es|
  {
    hide Offset;
    if es == [] {
      OffsetNext(0, itemsize);
    } else {
      BytesLength(src, itemsize, es[..|es| - 1]);
      OffsetNext(|es| - 1, itemsize);
    }
  }

  lemma {:induction false} BytesConcat(src: seq<byte>, itemsize: nat, a: seq<int>, b: seq<int>)
    ensures Bytes(src, itemsize, a + b) == Bytes(src, itemsize, a) + Bytes(src, itemsize, b)
    decreases |b|
  {
    hide Offset, ItemBytes;
    if b == [] {
      assert a + b == a;
    } else {
      BytesConcat(src, itemsize, a, b[..|b| - 1]);
      assert (a + b)[..|a + b| - 1] == a + b[..|b| - 1];
    }
  }

  lemma BytesSnoc(src: seq<byte>, itemsize: nat, es: seq<int>, i: nat)
    requires i < |es|
    ensures Bytes(src, itemsize, es[..i + 1]) == Bytes(src, itemsize, es[..i]) + ItemBytes(src, itemsize, es[i])
  {
    assert es[..i + 1][..i] == es[..i];
  }

  /** The bytes of one more element, put after what is there. */
  lemma BytesAfter(src: seq<byte>, itemsize: nat, es: seq<int>, i: nat, base: seq<byte>, before: seq<byte>,
      item: seq<byte>)
    requires i < |es|
    requires before == base + Bytes(src, itemsize, es[..i]) && item == ItemBytes(src, itemsize, es[i])
    ensures before + item == base + Bytes(src, itemsize, es[..i + 1])
  {
    hide *;
    BytesSnoc(src, itemsize, es, i);
  }

  ghost function Run(lo: int, n: nat): seq<int> {
    seq(n, i => lo + i)
  }

  /** Consecutive elements are one slice of the source. */
  lemma {:induction false} BytesOfRun(src: seq<byte>, itemsize: nat, lo: nat, n: nat)
    requires Offset(lo + n, itemsize) <= |src|
    ensures Offset(lo, itemsize) <= Offset(lo + n, itemsize)
    ensures Bytes(src, itemsize, Run(lo, n)) == src[Offset(lo, itemsize)..Offset(lo + n, itemsize)]
    decreases n
  {
    hide Offset, ItemBytes;
    if n == 0 {
      assert Run(lo, n) == [];
    } else {
      OffsetNext(lo + n - 1, itemsize);
      BytesOfRun(src, itemsize, lo, n - 1);
      RunSnoc(lo, n - 1);
      BytesGrow(src, itemsize, Run(lo, n - 1), lo + n - 1);
      ItemAt(src, itemsize, lo + n - 1);
    }
  }

  lemma RunSnoc(lo: nat, n: nat)
    ensures Run(lo, n + 1) == Run(lo, n) + [lo + n]
  {
  }

  lemma BytesGrow(src: seq<byte>, itemsize: nat, es: seq<int>, e: int)
    ensures Bytes(src, itemsize, es + [e]) == Bytes(src, itemsize, es) + ItemBytes(src, itemsize, e)
  {
    assert (es + [e])[..|es|] == es;
  }

  lemma ItemAt(src: seq<byte>, itemsize: nat, e: nat)
    requires Offset(e + 1, itemsize) <= |src|
    ensures Offset(e, itemsize) <= Offset(e + 1, itemsize)
    ensures ItemBytes(src, itemsize, e) == src[Offset(e, itemsize)..Offset(e + 1, itemsize)]
  {
    OffsetNext(e, itemsize);
  }
}
