/** The sink of a gathered read: stretches go in, in output order, and their
    bytes come out in the output buffer. */
module SpanReading {
  import opened Words
  import opened Radix
  import opened Spans

  lemma StepBetween(i: nat, n: nat, step: int)
    requires i <= n
    ensures if step >= 0 then 0 <= i * step <= Offset(n, Abs(step)) else 0 - Offset(n, Abs(step)) <= i * step <= 0
    ensures n * step == if step >= 0 then Offset(n, Abs(step)) else 0 - Offset(n, Abs(step))
  {
  }

  /** The wrapping extent is the true one, and covers every element. */
  lemma ExtentExact(s: Stretch, elems: nat)
    requires s.count > 0 && elems <= U64
    requires Within(s.Elements(), 0, elems)
    ensures s.Extent().0 < s.Extent().1 <= elems
    ensures Within(s.Elements(), s.Extent().0, s.Extent().1)
    ensures s.Extent().1 - s.Extent().0 == s.Reach() + 1
    ensures s.step == 1 ==> s.Extent().0 == s.src && s.Extent().1 == s.src + s.count
  {
    var n := s.count - 1;
    assert s.Elements()[0] == s.src && s.Elements()[n] == s.src + n * s.step;
    StepBetween(0, n, s.step);
    ExtentWraps(s);
    hide Offset, Wrap;
    forall i | 0 <= i < s.count
      ensures s.Extent().0 <= s.Elements()[i] < s.Extent().1
    {
      StepBetween(i, n, s.step);
      assert s.Elements()[i] == s.src + i * s.step;
    }
    if s.step == 1 {
      OffsetOne(n);
    }
  }

  lemma OffsetOne(n: nat)
    ensures Offset(n, 1) == n
  {
  }

  lemma ExtentWraps(s: Stretch)
    requires s.count > 0 && 0 <= s.src < U64 && 0 <= s.src + (s.count - 1) * s.step < U64
    ensures s.Extent() == (Min(s.src, s.src + (s.count - 1) * s.step), Max(s.src, s.src + (s.count - 1) * s.step) + 1)
  {
    var n := s.count - 1;
    WrapMul(n, s.step);
    WrapAdd(n * s.step, s.src);
  }

  /** An element of a span, found in the bytes read for the span. */
  lemma ElementInSpan(src: seq<byte>, itemsize: nat, lo: nat, hi: nat, e: nat, bytes: seq<byte>)
    requires lo <= e < hi
    requires Offset(lo, itemsize) <= Offset(hi, itemsize) <= |src|
    requires bytes == src[Offset(lo, itemsize)..Offset(hi, itemsize)]
    ensures Offset(e - lo, itemsize) + itemsize <= |bytes|
    ensures ItemBytes(src, itemsize, e) == bytes[Offset(e - lo, itemsize)..Offset(e - lo, itemsize) + itemsize]
  {
    hide Offset;
    OffsetAdd(lo, e - lo, itemsize);
    OffsetNext(e, itemsize);
    OffsetMonotone(e + 1, hi, itemsize);
    SliceOfSlice(src, Offset(lo, itemsize), Offset(hi, itemsize), Offset(e - lo, itemsize), itemsize);
  }

  /** Storage: the bytes at an offset, or why they cannot be had. */
  type Reader = (nat, nat) -> Result<seq<byte>, string>

  /** What storage answers is the source; it may still fail. */
  ghost predicate Answers(read: Reader, src: seq<byte>) {
    forall at: nat, n: nat :: at + n <= |src| && read(at, n).Ok? ==> read(at, n).value == src[at..at + n]
  }

  /** The error is one storage gave for a range of the source. */
  ghost predicate Gave(read: Reader, src: seq<byte>, error: string) {
    exists at: nat, n: nat :: at + n <= |src| && read(at, n) == Err(error)
  }

  /** Read `hi - lo` source bytes from byte `at` into `out[lo..hi]`. */
  method ReadSource(read: Reader, at: nat, out: array<byte>, lo: nat, hi: nat, ghost src: seq<byte>)
    returns (done: Result<(), string>)
    requires lo <= hi <= out.Length && at + (hi - lo) <= |src| && Answers(read, src)
    modifies out
    ensures done.Ok? ==> out[..hi] == old(out[..lo]) + src[at..at + (hi - lo)]
    ensures done.Err? ==> Gave(read, src, done.error)
    ensures out[hi..] == old(out[hi..])
  {
    var bytes := read(at, hi - lo);
    if bytes.Err? {
      return Err(bytes.error);
    }
    forall i | lo <= i < hi {
      out[i] := bytes.value[i - lo];
    }
    assert out[lo..hi] == src[at..at + (hi - lo)];
    assert out[..hi] == out[..lo] + out[lo..hi];
    done := Ok(());
  }

  /** Copy `from[at..at + hi - lo]` to `out[lo..hi]`. */
  method CopySlice(from: array<byte>, at: nat, out: array<byte>, lo: nat, hi: nat)
    requires from != out && lo <= hi <= out.Length && at + (hi - lo) <= from.Length
    modifies out
    ensures out[..hi] == old(out[..lo]) + from[at..at + (hi - lo)]
    ensures out[hi..] == old(out[hi..])
  {
    forall i | lo <= i < hi {
      out[i] := from[at + (i - lo)];
    }
    assert out[lo..hi] == from[at..at + (hi - lo)];
    assert out[..hi] == out[..lo] + out[lo..hi];
  }

  lemma StridedOffset(a: nat, b: nat, i: nat, step: int, itemsize: nat)
    requires b == a + i * step
    ensures Offset(a, itemsize) + i * (step * itemsize) == Offset(b, itemsize)
  {
    assert i * (step * itemsize) == (i * step) * itemsize;
    assert (a + i * step) * itemsize == a * itemsize + (i * step) * itemsize;
  }

  lemma SliceOfPrefix(s: seq<byte>, m: nat, from: nat, n: nat)
    requires m <= |s| && from + n <= m
    ensures s[..m][from..from + n] == s[from..from + n]
  {
  }

  /** `i` signed strides past byte `from`, as `wrapping_add_signed` goes. */
  function StridedAt(from: nat, i: nat, step: int, itemsize: nat): nat {
    Wrap(from + i * (step * itemsize))
  }

  /** Where the `i`-th element of a stretch lies in the scratch buffer: wrapping
      signed steps from the first one land exactly on it. */
  lemma StridedElement(s: Stretch, lo: nat, hi: nat, i: nat, itemsize: nat, src: seq<byte>, bytes: seq<byte>)
    requires i < s.count && Within(s.Elements(), lo, hi) && lo <= s.src
    requires Offset(lo, itemsize) <= Offset(hi, itemsize) <= |src| < U64
    requires bytes == src[Offset(lo, itemsize)..Offset(hi, itemsize)]
    ensures var at := StridedAt(Offset(s.src - lo, itemsize), i, s.step, itemsize);
      at + itemsize <= |bytes| && bytes[at..at + itemsize] == ItemBytes(src, itemsize, s.Elements()[i])
  {
    var e := s.Elements()[i];
    assert e == s.src + i * s.step;
    ElementInSpan(src, itemsize, lo, hi, e, bytes);
    StridedOffset(s.src - lo, e - lo, i, s.step, itemsize);
  }

  /** The elements of a strided stretch, found one by one in the scratch buffer. */
  method TakeStrided(s: Stretch, lo: nat, hi: nat, scratch: array<byte>, out: array<byte>, pos: nat,
                     itemsize: nat, ghost src: seq<byte>)
    requires scratch != out && lo < hi && Within(s.Elements(), lo, hi) && s.count > 0
    requires Offset(lo, itemsize) <= Offset(hi, itemsize) <= |src| < U64
    requires Offset(hi, itemsize) - Offset(lo, itemsize) <= scratch.Length
    requires scratch[..Offset(hi, itemsize) - Offset(lo, itemsize)] == src[Offset(lo, itemsize)..Offset(hi, itemsize)]
    requires pos + Offset(s.count, itemsize) <= out.Length
    modifies out
    ensures out[..pos + Offset(s.count, itemsize)] == old(out[..pos]) + Bytes(src, itemsize, s.Elements())
  {
    hide Offset, ItemBytes, Bytes, StridedAt;
    assert s.Elements()[0] == s.src;
    var from := Offset(s.src - lo, itemsize);
    OffsetNext(0, itemsize);
    NoBytes(src, itemsize, s.Elements());
    ghost var bytes := scratch[..Offset(hi, itemsize) - Offset(lo, itemsize)];
    for i := 0 to s.count
      invariant pos + Offset(i, itemsize) <= out.Length
      invariant scratch[..|bytes|] == bytes
      invariant out[..pos + Offset(i, itemsize)] == old(out[..pos]) + Bytes(src, itemsize, s.Elements()[..i])
    {
      StridedElement(s, lo, hi, i, itemsize, src, bytes);
      OffsetNext(i, itemsize);
      OffsetMonotone(i + 1, s.count, itemsize);
      var at := StridedAt(from, i, s.step, itemsize);
      SliceOfPrefix(scratch[..], |bytes|, at, itemsize);
      BytesAfter(src, itemsize, s.Elements(), i, old(out[..pos]), out[..pos + Offset(i, itemsize)],
          scratch[at..at + itemsize]);
      CopySlice(scratch, at, out, pos + Offset(i, itemsize), pos + Offset(i, itemsize) + itemsize);
    }
    assert s.Elements()[..s.count] == s.Elements();
  }

  lemma NoBytes(src: seq<byte>, itemsize: nat, es: seq<int>)
    ensures Bytes(src, itemsize, es[..0]) == []
  {
  }

  /** A run of a span, found in the bytes read for the span. */
  lemma RunInSpan(s: Stretch, lo: nat, hi: nat, itemsize: nat, src: seq<byte>, bytes: seq<byte>)
    requires s.step == 1 && lo <= s.src && s.src + s.count <= hi
    requires Offset(lo, itemsize) <= Offset(hi, itemsize) <= |src|
    requires bytes == src[Offset(lo, itemsize)..Offset(hi, itemsize)]
    ensures Offset(s.src - lo, itemsize) + Offset(s.count, itemsize) <= |bytes|
    ensures bytes[Offset(s.src - lo, itemsize)..Offset(s.src - lo, itemsize) + Offset(s.count, itemsize)]
         == Bytes(src, itemsize, s.Elements())
  {
    hide Offset, ItemBytes, Bytes;
    OffsetAdd(lo, s.src - lo, itemsize);
    OffsetAdd(s.src, s.count, itemsize);
    OffsetMonotone(s.src + s.count, hi, itemsize);
    BytesOfRun(src, itemsize, s.src, s.count);
    assert s.Elements() == Run(s.src, s.count);
    SliceOfSlice(src, Offset(lo, itemsize), Offset(hi, itemsize), Offset(s.src - lo, itemsize),
        Offset(s.count, itemsize));
  }

  /** Cut one stretch out of the bytes of its span. */
  method CutOut(s: Stretch, w: Span, scratch: array<byte>, out: array<byte>, pos: nat,
                itemsize: nat, ghost src: seq<byte>)
    requires scratch != out && s.count > 0 && w.lo < w.hi && Within(s.Elements(), w.lo, w.hi)
    requires Offset(w.lo, itemsize) <= Offset(w.hi, itemsize) <= |src| < U64
    requires Offset(w.hi, itemsize) - Offset(w.lo, itemsize) <= scratch.Length
    requires scratch[..Offset(w.hi, itemsize) - Offset(w.lo, itemsize)]
          == src[Offset(w.lo, itemsize)..Offset(w.hi, itemsize)]
    requires pos + Offset(s.count, itemsize) <= out.Length
    modifies out
    ensures out[..pos + Offset(s.count, itemsize)] == old(out[..pos]) + Bytes(src, itemsize, s.Elements())
  {
    hide Offset, ItemBytes, Bytes;
    assert s.Elements()[0] == s.src;
    if s.step == 1 {
      assert s.Elements()[s.count - 1] == s.src + s.count - 1;
      ghost var bytes := scratch[..Offset(w.hi, itemsize) - Offset(w.lo, itemsize)];
      RunInSpan(s, w.lo, w.hi, itemsize, src, bytes);
      var from, n := Offset(s.src - w.lo, itemsize), Offset(s.count, itemsize);
      SliceOfPrefix(scratch[..], |bytes|, from, n);
      CopySlice(scratch, from, out, pos, pos + n);
    } else {
      TakeStrided(s, w.lo, w.hi, scratch, out, pos, itemsize, src);
    }
  }

  lemma JoinFits(w: Span, lo: nat, hi: nat, count: nat, itemsize: nat)
    requires itemsize > 0 && w.lo <= w.hi && lo <= hi
    ensures var j := w.Join(lo, hi, count, itemsize);
      j.Some? ==>
        && j.value == Span(Min(w.lo, lo), Max(w.hi, hi), w.outAt, w.outCount + count)
        && Offset(j.value.hi - j.value.lo, itemsize) <= SPAN_MAX_BYTES
  {
  }

  /** Elements between two ranges of them. */
  function Between(lo: nat, hi: nat, lo': nat, hi': nat): nat {
    if hi' < lo then lo - hi' else if hi < lo' then lo' - hi else 0
  }

  /** A stretch joins a span exactly if the elements between them are few enough, before
      it or behind it, and the two together are not too many bytes. */
  lemma JoinsIfNear(w: Span, lo: nat, hi: nat, count: nat, itemsize: nat)
    requires itemsize > 0 && w.lo <= w.hi && lo <= hi
    requires w.hi + SPAN_GAP_BYTES < U64 && hi + SPAN_GAP_BYTES < U64
    ensures w.Join(lo, hi, count, itemsize).Some? <==>
      && Between(w.lo, w.hi, lo, hi) <= SPAN_GAP_BYTES / itemsize
      && Offset((if w.hi < hi then hi else w.hi) - (if lo < w.lo then lo else w.lo), itemsize) <= SPAN_MAX_BYTES
  {
    hide Wrap, Between;
    GapFits(SPAN_GAP_BYTES, itemsize);
    NearIs(w.lo, w.hi, lo, hi, SPAN_GAP_BYTES / itemsize);
    JoinIs(w, lo, hi, count, itemsize, SPAN_GAP_BYTES / itemsize);
  }

  lemma NearIs(lo: nat, hi: nat, lo': nat, hi': nat, gap: nat)
    requires lo <= hi && lo' <= hi' && hi + gap < U64 && hi' + gap < U64
    ensures Wrap(hi' + gap) >= lo && lo' <= Wrap(hi + gap) <==> Between(lo, hi, lo', hi') <= gap
  {
  }

  lemma JoinIs(w: Span, lo: nat, hi: nat, count: nat, itemsize: nat, gap: nat)
    requires itemsize > 0 && w.lo <= w.hi && gap == SPAN_GAP_BYTES / itemsize
    ensures w.Join(lo, hi, count, itemsize).Some? <==>
      && Wrap(hi + gap) >= w.lo && lo <= Wrap(w.hi + gap)
      && Offset((if w.hi < hi then hi else w.hi) - (if lo < w.lo then lo else w.lo), itemsize) <= SPAN_MAX_BYTES
  {
    hide Wrap;
  }

  lemma GapFits(n: nat, d: nat)
    requires d > 0
    ensures n / d <= n
  {
    assert n == n / d * d + n % d;
    MulLe(1, d, n / d);
  }

  lemma WithinWider(es: seq<int>, lo: nat, hi: nat, lo': nat, hi': nat)
    requires Within(es, lo, hi) && lo' <= lo && hi <= hi'
    ensures Within(es, lo', hi')
  {
  }

  lemma WithinBoth(a: seq<int>, b: seq<int>, lo: nat, hi: nat)
    requires Within(a, lo, hi) && Within(b, lo, hi)
    ensures Within(a + b, lo, hi)
  {
  }

  class SpanReader {
    const read: Reader
    ghost const src: seq<byte>
    const elems: nat
    const itemsize: nat
    const out: array<byte>
    /** Reused from span to span, and replaced by a longer one when too short. */
    var scratch: array<byte>
    var held: seq<Stretch>
    var span: Option<Span>
    var outAt: nat
    /** The source elements taken in so far, in order. */
    ghost var fed: seq<int>

    ghost predicate Fixed()
      reads this`scratch, this`outAt, this`fed
    {
      && 0 < itemsize <= SPAN_GAP_BYTES
      && |src| == Offset(elems, itemsize) && |src| < U64 && Answers(read, src)
      && scratch != out
      && outAt == |fed| && Offset(outAt, itemsize) <= out.Length
      && Within(fed, 0, elems)
    }

    /** What is held back: the stretches of the open span, all inside it. */
    ghost predicate Holding(w: Span)
      reads this`held, this`outAt, this`fed
    {
      && w.outAt + w.outCount == outAt == |fed|
      && AllElements(held) == fed[w.outAt..]
      && held != [] && w.lo < w.hi <= elems
      && (forall i :: 0 <= i < |held| ==> held[i].count > 0 && Within(held[i].Elements(), w.lo, w.hi))
      && (if |held| == 1 && held[0].step == 1
          then w.lo == held[0].src && w.outCount == held[0].count
          else Offset(w.hi - w.lo, itemsize) <= SPAN_MAX_BYTES)
    }

    ghost predicate Valid()
      reads this, out
    {
      && Fixed()
      && match span
         case None => held == [] && out[..Offset(outAt, itemsize)] == Bytes(src, itemsize, fed)
         case Some(w) =>
           && Holding(w)
           && Offset(w.outAt, itemsize) <= out.Length
           && out[..Offset(w.outAt, itemsize)] == Bytes(src, itemsize, fed[..w.outAt])
    }

    constructor (read: Reader, elems: nat, itemsize: nat, out: array<byte>, scratch: array<byte>, ghost src: seq<byte>)
      requires 0 < itemsize <= SPAN_GAP_BYTES && |src| == Offset(elems, itemsize) && |src| < U64
      requires scratch != out && Answers(read, src)
      ensures Valid() && fed == []
      ensures this.read == read && this.src == src && this.elems == elems && this.itemsize == itemsize
      ensures this.out == out && this.scratch == scratch
    {
      this.read, this.src := read, src;
      this.elems, this.itemsize, this.out, this.scratch := elems, itemsize, out, scratch;
      held, span, outAt, fed := [], None, 0, [];
    }

    /** Room for `len` bytes in the scratch buffer, which is never over the ceiling. */
    method Reserve(len: nat)
      requires len <= SPAN_MAX_BYTES && scratch != out
      modifies this`scratch
      ensures scratch.Length >= len && scratch != out
      ensures scratch == old(scratch) || fresh(scratch)
    {
      if scratch.Length < len {
        scratch := new byte[len](_ => 0);
      }
    }

    /** Add a stretch to those taken in. What cannot join the open span opens a new one. */
    method Take(s: Stretch) returns (done: Result<(), string>)
      requires Valid() && s.Fits(itemsize) && Within(s.Elements(), 0, elems)
      requires Offset(outAt + s.count, itemsize) <= out.Length
      modifies this, scratch, out
      ensures done.Ok? ==> Valid() && fed == old(fed) + s.Elements() && span.Some?
      ensures done.Err? ==> Gave(read, src, done.error)
      ensures scratch == old(scratch) || fresh(scratch)
    {
      hide Offset, ItemBytes, Bytes, Within, AllElements, Stretch.Elements, Stretch.Fits, Stretch.Extent, Span.Join,
          Valid;
      ExtentFacts(s);
      var (lo, hi) := s.Extent();
      var joined := if span.Some? then span.value.Join(lo, hi, s.count, itemsize) else None;
      if joined.Some? {
        Absorb(s, lo, hi, joined.value);
      } else {
        if span.Some? {
          done := CopySpan();
          if done.Err? {
            return;
          }
        }
        Open(s, lo, hi);
      }
      done := Ok(());
    }

    lemma ExtentFacts(s: Stretch)
      requires Valid() && s.Fits(itemsize) && Within(s.Elements(), 0, elems)
      ensures s.count > 0 && itemsize > 0 && (span.Some? ==> span.value.lo <= span.value.hi)
      ensures var (lo, hi) := s.Extent();
        && lo < hi <= elems && Within(s.Elements(), lo, hi)
        && if s.step == 1 then lo == s.src else Offset(hi - lo, itemsize) <= SPAN_MAX_BYTES
    {
      hide Offset, AllElements, Bytes;
      OffsetAtLeast(elems, itemsize);
      ExtentExact(s, elems);
    }

    method Absorb(s: Stretch, lo: nat, hi: nat, w: Span)
      requires Valid() && span.Some? && s.count > 0 && lo < hi <= elems
      requires Within(s.Elements(), lo, hi)
      requires span.value.Join(lo, hi, s.count, itemsize) == Some(w)
      requires Offset(outAt + s.count, itemsize) <= out.Length
      modifies this`span, this`held, this`outAt, this`fed
      ensures Valid() && fed == old(fed) + s.Elements() && span.Some?
    {
      hide Offset, Bytes, ItemBytes, Span.Join, Within, AllElements, Answers;
      ghost var from, open, more := w.outAt, span.value, held + [s];
      JoinFits(open, lo, hi, s.count, itemsize);
      WithinWider(s.Elements(), lo, hi, w.lo, w.hi);
      WithinWider(s.Elements(), lo, hi, 0, elems);
      WithinBoth(fed, s.Elements(), 0, elems);
      HeldNext(more, |held|);
      assert more[..|held| + 1] == more && more[..|held|] == held;
      forall i | 0 <= i < |more| ensures more[i].count > 0 && Within(more[i].Elements(), w.lo, w.hi) {
        if i < |held| {
          WithinWider(held[i].Elements(), open.lo, open.hi, w.lo, w.hi);
        }
      }
      span, held, outAt, fed := Some(w), held + [s], outAt + s.count, fed + s.Elements();
      assert fed[..from] == old(fed)[..from] && fed[from..] == old(fed)[from..] + s.Elements();
    }

    method Open(s: Stretch, lo: nat, hi: nat)
      requires Valid() && span.None? && s.count > 0
      requires lo < hi <= elems && Within(s.Elements(), lo, hi)
      requires if s.step == 1 then lo == s.src else Offset(hi - lo, itemsize) <= SPAN_MAX_BYTES
      requires Offset(outAt + s.count, itemsize) <= out.Length
      modifies this`span, this`held, this`outAt, this`fed
      ensures Valid() && fed == old(fed) + s.Elements() && span.Some?
    {
      hide Offset, Bytes, ItemBytes;
      ghost var from := outAt;
      span, held, outAt, fed := Some(Span(lo, hi, outAt, s.count)), [s], outAt + s.count, fed + s.Elements();
      assert fed[..from] == old(fed) && fed[from..] == s.Elements();
      assert AllElements([s]) == s.Elements() by {
        assert [s][..0] == [];
        assert [] + s.Elements() == s.Elements();
      }
    }

    /** Copy out whatever is still held back. */
    method Finish() returns (done: Result<(), string>)
      requires Valid()
      modifies this, scratch, out
      ensures done.Ok? ==> Valid() && fed == old(fed) && out[..Offset(|fed|, itemsize)] == Bytes(src, itemsize, fed)
      ensures done.Err? ==> Gave(read, src, done.error)
    {
      done := Ok(());
      if span.Some? {
        done := CopySpan();
      }
    }

    /** Close the open span: its elements' bytes go to `out`. */
    method CopySpan() returns (done: Result<(), string>)
      requires Valid() && span.Some?
      modifies this`span, this`held, this`scratch, scratch, out
      ensures done.Ok? ==> Valid() && span.None? && fed == old(fed)
      ensures done.Err? ==> Gave(read, src, done.error)
      ensures scratch == old(scratch) || fresh(scratch)
    {
      hide Offset, ItemBytes, Bytes, Within, AllElements, Stretch.Elements, Holding, Fixed;
      var w := span.value;
      SpanHeld(w);
      if |held| == 1 && held[0].step == 1 {
        done := CopyRun(w);
      } else {
        done := CopyCut(w);
      }
      if done.Err? {
        return;
      }
      assert fed == fed[..w.outAt] + fed[w.outAt..];
      span, held := None, [];
    }

    lemma SpanHeld(w: Span)
      requires Fixed() && Holding(w)
      ensures w.outAt <= outAt == |fed|
      ensures (|held| == 1 && held[0].step == 1) || Offset(w.hi - w.lo, itemsize) <= SPAN_MAX_BYTES
    {
      hide Offset, Within, AllElements;
    }

    /** A span that is a single run goes to `out` without the scratch buffer. */
    method CopyRun(w: Span) returns (done: Result<(), string>)
      requires Fixed() && Holding(w) && |held| == 1 && held[0].step == 1
      requires Offset(w.outAt, itemsize) <= out.Length
      requires out[..Offset(w.outAt, itemsize)] == Bytes(src, itemsize, fed[..w.outAt])
      modifies out
      ensures done.Ok? ==> out[..Offset(outAt, itemsize)] == Bytes(src, itemsize, fed)
      ensures done.Err? ==> Gave(read, src, done.error)
    {
      hide Offset, ItemBytes, Bytes, Within, AllElements, Holding, Fixed, Answers, Gave;
      HeldRun(w);
      done := ReadSource(read, Offset(w.lo, itemsize), out, Offset(w.outAt, itemsize), Offset(outAt, itemsize), src);
    }

    lemma HeldRun(w: Span)
      requires Fixed() && Holding(w) && |held| == 1 && held[0].step == 1
      ensures w.outAt <= |fed| && w.outAt <= outAt && Answers(read, src)
      ensures Offset(w.outAt, itemsize) <= Offset(outAt, itemsize) <= out.Length
      ensures var n := Offset(outAt, itemsize) - Offset(w.outAt, itemsize);
        && Offset(w.lo, itemsize) + n <= |src|
        && Bytes(src, itemsize, fed[..w.outAt]) + src[Offset(w.lo, itemsize)..Offset(w.lo, itemsize) + n]
           == Bytes(src, itemsize, fed)
    {
      hide Offset, ItemBytes, Bytes, Within, Stretch.Elements, AllElements;
      var s := held[0];
      RunInside(s, w.lo, w.hi);
      OneHeld(held);
      OffsetMonotone(s.src + s.count, elems, itemsize);
      OffsetAdd(s.src, s.count, itemsize);
      OffsetAdd(w.outAt, s.count, itemsize);
      BytesOfRun(src, itemsize, s.src, s.count);
      BytesConcat(src, itemsize, fed[..w.outAt], fed[w.outAt..]);
      assert fed == fed[..w.outAt] + fed[w.outAt..];
    }

    method CopyCut(w: Span) returns (done: Result<(), string>)
      requires Fixed() && Holding(w) && Offset(w.hi - w.lo, itemsize) <= SPAN_MAX_BYTES
      requires Offset(w.outAt, itemsize) <= out.Length
      requires out[..Offset(w.outAt, itemsize)] == Bytes(src, itemsize, fed[..w.outAt])
      modifies this`scratch, scratch, out
      ensures done.Ok? ==> Fixed() && out[..Offset(outAt, itemsize)] == Bytes(src, itemsize, fed)
      ensures done.Err? ==> Gave(read, src, done.error)
      ensures scratch == old(scratch) || fresh(scratch)
    {
      hide Offset, ItemBytes, Bytes, Answers, Gave;
      var len := Offset(w.hi - w.lo, itemsize);
      OffsetAdd(w.lo, w.hi - w.lo, itemsize);
      Reserve(len);
      OffsetMonotone(w.hi, elems, itemsize);
      done := ReadSource(read, Offset(w.lo, itemsize), scratch, 0, len, src);
      if done.Ok? {
        CutAll(w, len);
      }
    }

    method CutAll(w: Span, len: nat)
      requires Fixed() && Holding(w)
      requires Offset(w.outAt, itemsize) <= out.Length
      requires out[..Offset(w.outAt, itemsize)] == Bytes(src, itemsize, fed[..w.outAt])
      requires Offset(w.lo, itemsize) + len == Offset(w.hi, itemsize) <= |src| && len <= scratch.Length
      requires scratch[..len] == src[Offset(w.lo, itemsize)..Offset(w.hi, itemsize)]
      modifies out
      ensures out[..Offset(outAt, itemsize)] == Bytes(src, itemsize, fed)
    {
      hide Offset, ItemBytes, Bytes;
      var pos := Offset(w.outAt, itemsize);
      ghost var done := fed[..w.outAt];
      for i := 0 to |held|
        invariant done == fed[..w.outAt] + AllElements(held[..i]) && done <= fed
        invariant pos == Offset(|done|, itemsize) <= out.Length
        invariant scratch[..len] == src[Offset(w.lo, itemsize)..Offset(w.hi, itemsize)]
        invariant out[..pos] == Bytes(src, itemsize, done)
      {
        var s := held[i];
        ghost var done' := done + s.Elements();
        NextHeld(fed, w.outAt, held, i, done);
        BytesConcat(src, itemsize, done, s.Elements());
        OffsetAdd(|done|, s.count, itemsize);
        OffsetMonotone(|done'|, outAt, itemsize);
        CutOut(s, w, scratch, out, pos, itemsize, src);
        pos := pos + Offset(s.count, itemsize);
        done := done';
      }
      assert held[..|held|] == held;
      assert done == fed;
    }
  }

  lemma NextHeld(fed: seq<int>, from: nat, held: seq<Stretch>, i: nat, done: seq<int>)
    requires from <= |fed| && i < |held|
    requires AllElements(held) == fed[from..] && done == fed[..from] + AllElements(held[..i])
    ensures done + held[i].Elements() == fed[..from] + AllElements(held[..i + 1])
    ensures done + held[i].Elements() <= fed
  {
    hide AllElements, Stretch.Elements;
    HeldNext(held, i);
    PrefixOfHeld(held, i + 1);
    Associate(fed[..from], AllElements(held[..i]), held[i].Elements());
    PrefixLift(fed, from, AllElements(held[..i + 1]));
  }

  lemma Associate(a: seq<int>, b: seq<int>, c: seq<int>)
    ensures (a + b) + c == a + (b + c)
  {
  }

  lemma PrefixLift(s: seq<int>, from: nat, p: seq<int>)
    requires from <= |s| && p <= s[from..]
    ensures s[..from] + p <= s
  {
    assert s == s[..from] + s[from..];
  }

  lemma HeldNext(held: seq<Stretch>, i: nat)
    requires i < |held|
    ensures AllElements(held[..i + 1]) == AllElements(held[..i]) + held[i].Elements()
  {
    hide Stretch.Elements;
    assert held[..i + 1][..i] == held[..i];
  }

  lemma {:induction false} PrefixOfHeld(held: seq<Stretch>, i: nat)
    requires i <= |held|
    ensures AllElements(held[..i]) <= AllElements(held)
    decreases |held|
  {
    hide AllElements, Stretch.Elements;
    if i == |held| {
      assert held[..i] == held;
    } else {
      var n := |held| - 1;
      PrefixOfHeld(held[..n], i);
      assert held[..n][..i] == held[..i] && held[..n + 1] == held;
      HeldNext(held, n);
    }
  }

  lemma OneHeld(held: seq<Stretch>)
    requires |held| == 1
    ensures AllElements(held) == held[0].Elements()
  {
    assert held[..0] == [];
  }

  lemma RunInside(s: Stretch, lo: nat, hi: nat)
    requires s.step == 1 && s.count > 0 && Within(s.Elements(), lo, hi)
    ensures s.Elements() == Run(s.src, s.count) && lo <= s.src && s.src + s.count <= hi
  {
    assert s.Elements()[0] == s.src && s.Elements()[s.count - 1] == s.src + s.count - 1;
  }
}
