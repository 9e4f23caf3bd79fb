/** Resolving a numpy-style selection against a shape.

    The rule the code implements is stated first, on the key as it was spelled:
    which axis each index consumes, and which of them form the advanced group.
    The methods after it are the code's loops, proved to compute that. */
module Selecting {
  import opened Words
  import opened Radix

  datatype Error =
    | TwoEllipses
    | TooManyIndices
    | AxisTooLong
    | OutOfBounds
    | ZeroStep
    | NotBroadcastable
    | TooLarge

  /** One entry of a key. */
  datatype Index =
    | Single(i: i64)
    | Slice(start: Option<i64>, stop: Option<i64>, step: Option<i64>)
    | Fancy(list: seq<i64>)
    | Ellipsis
    | NewAxis
  {
    predicate ConsumesAxis() { !Ellipsis? && !NewAxis? }
  }

  /** The positions of one axis that are selected, all of them valid. */
  datatype AxisSel = Point(index: nat) | Range(start: nat, len: nat, step: i64) | Indices(list: seq<nat>) {

    function Len(): nat {
      match this
      case Point(_) => 1
      case Range(_, len, _) => len
      case Indices(list) => |list|
    }

    /** Every index it names is a position on an axis of `dim` elements. */
    ghost predicate OnAxis(dim: nat) {
      match this
      case Point(index) => index < dim
      case Range(start, len, step) =>
        step != 0 && (len > 0 ==> start < dim && 0 <= start + (len - 1) * step < dim)
      case Indices(list) => forall k :: 0 <= k < |list| ==> list[k] < dim
    }
  }

  datatype Entry = Axis(sel: AxisSel, advanced: bool) | New

  /** The position an integer names, counted from the end if it is negative. */
  function NormalizeIndex(i: i64, dim: nat): (r: Result<nat, Error>)
    requires dim <= I64_MAX
    ensures r.Ok? <==> 0 <= i + dim && i < dim
    ensures r.Ok? ==> r.value < dim && (r.value == i || r.value == i + dim)
  {
    var folded := if i < 0 then SaturatingAdd(i, dim) else i;
    if folded < 0 || folded >= dim then Err(OutOfBounds) else Ok(folded)
  }

  function Clamp(x: int, lower: int, upper: int): int {
    if x < lower then lower else if x > upper then upper else x
  }

  /** Where a slice bound lands, out-of-range bounds clamping. */
  function SliceBound(bound: Option<i64>, dim: nat, step: i64, missing: int): int {
    match bound
    case None => missing
    case Some(b) =>
      var folded := if b < 0 then SaturatingAdd(b, dim) else b;
      if step > 0 then Clamp(folded, 0, dim) else Clamp(folded, -1, dim - 1)
  }

  function SliceStart(start: Option<i64>, dim: nat, step: i64): int {
    SliceBound(start, dim, step, if step > 0 then 0 else dim - 1)
  }

  function SliceStop(stop: Option<i64>, dim: nat, step: i64): int {
    SliceBound(stop, dim, step, if step > 0 then dim else -1)
  }

  function StepOf(step: Option<i64>): i64 {
    if step.Some? then step.value else 1
  }

  /** A slice as a start, a length and a step; `SliceSelects` says which positions. */
  function ResolveSlice(start: Option<i64>, stop: Option<i64>, step: Option<i64>, dim: nat): (r: Result<AxisSel, Error>)
    requires dim <= I64_MAX
  {
    var step := StepOf(step);
    if step == 0 then Err(ZeroStep)
    else
      var first, last := SliceStart(start, dim, step), SliceStop(stop, dim, step);
      var distance := if step > 0 then last - first else first - last;
      var len := if distance > 0 then 1 + (distance - 1) / Abs(step) else 0;
      if len == 0 then Ok(Range(0, 0, step)) else Ok(Range(first, len, step))
  }

  /** The indices of a walk from `first` to `stop`, a whole number of steps apart. */
  lemma WalkLength(first: int, stop: int, step: int, x: int)
    requires step != 0
    ensures var distance := if step > 0 then stop - first else first - stop;
      var len := if distance > 0 then 1 + (distance - 1) / Abs(step) else 0;
      (exists k :: 0 <= k < len && x == first + k * step)
      <==> (if step > 0 then first <= x < stop else stop < x <= first) && (x - first) % Abs(step) == 0
  {
    var s := Abs(step);
    var distance := if step > 0 then stop - first else first - stop;
    var len := if distance > 0 then 1 + (distance - 1) / s else 0;
    var d := if step > 0 then x - first else first - x;
    if 0 <= d < distance && (x - first) % s == 0 {
      MultipleOf(x - first, s);
      MultipleOf(d, s);
      var k := d / s;
      StepsWithin(d, distance, s, k);
      Signed(k, step);
      assert x == first + k * step && 0 <= k < len;
    }
    if k :| 0 <= k < len && x == first + k * step {
      Signed(k, step);
      assert d == k * s;
      StepsReach(k, distance, s);
      MultipleModulo(k, s);
      MultipleModulo(-k, s);
    }
  }

  lemma Signed(k: int, step: int)
    ensures k * step == if step > 0 then k * Abs(step) else -(k * Abs(step))
  {
  }

  lemma MultipleModulo(k: int, s: int)
    requires s > 0
    ensures (k * s) % s == 0 && (-(k * s)) % s == 0
  {
    NoRemainder(k, s);
    NoRemainder(-k, s);
    assert -(k * s) == (-k) * s;
  }

  lemma NoRemainder(k: int, s: int)
    requires s > 0
    ensures (k * s) % s == 0
  {
    var n := k * s;
    assert n == n / s * s + n % s;
    assert 0 == (n / s - k) * s + n % s;
    RemainderUnique(n / s - k, n % s, 0, s);
  }

  lemma MultipleOf(d: int, s: int)
    requires s > 0
    ensures d % s == 0 <==> (-d) % s == 0
    ensures d % s == 0 ==> d == d / s * s
  {
    assert d == d / s * s + d % s;
    if d % s == 0 {
      MultipleModulo(d / s, s);
    }
    if (-d) % s == 0 {
      assert -d == (-d) / s * s;
      MultipleModulo((-d) / s, s);
    }
  }

  lemma StepsWithin(d: int, distance: int, s: int, k: int)
    requires s > 0 && 0 <= d < distance && d == k * s
    ensures 0 <= k <= (distance - 1) / s
  {
    var q := (distance - 1) / s;
    assert distance - 1 == q * s + (distance - 1) % s;
    assert k * s < (q + 1) * s;
    assert k >= 0;
  }

  lemma StepsReach(k: int, distance: int, s: int)
    requires s > 0 && distance > 0 && 0 <= k <= (distance - 1) / s
    ensures 0 <= k * s < distance
  {
    var q := (distance - 1) / s;
    assert distance - 1 == q * s + (distance - 1) % s;
    assert k * s <= q * s;
  }

  /** The position Python starts a slice from: an end of the axis, or the start
      given, counted from the end if negative and brought next to the axis. */
  ghost function PythonStart(start: Option<i64>, dim: nat, step: i64): int {
    if start.None? then (if step > 0 then 0 else dim - 1)
    else
      var counted := if start.value < 0 then start.value + dim else start.value;
      if step > 0 then (if counted < 0 then 0 else if counted > dim then dim else counted)
      else (if counted < 0 then -1 else if counted >= dim then dim - 1 else counted)
  }

  /** Python's rule for what a slice takes: whole steps on from where it starts,
      staying on the axis and short of the stop. */
  ghost predicate SliceTakes(start: Option<i64>, stop: Option<i64>, step: i64, dim: nat, x: int)
    requires step != 0
  {
    var first := PythonStart(start, dim, step);
    var past := if stop.None? then 0 else if stop.value < 0 then stop.value + dim else stop.value;
    && 0 <= x < dim
    && (x - first) % Abs(step) == 0
    && (if step > 0 then first <= x && (stop.Some? ==> x < past)
        else x <= first && (stop.Some? ==> past < x))
  }

  /** Folding with saturation and clamping lands where Python starts. */
  lemma StartIsPythons(start: Option<i64>, dim: nat, step: i64)
    requires dim <= I64_MAX && step != 0
    ensures SliceStart(start, dim, step) == PythonStart(start, dim, step)
  {
  }

  /** The range a slice resolves to takes exactly the positions Python takes,
      from where Python starts, in the order of its step, and fails exactly when
      the step is 0. */
  lemma SliceSelects(start: Option<i64>, stop: Option<i64>, step: Option<i64>, dim: nat)
    requires dim <= I64_MAX
    ensures var r := ResolveSlice(start, stop, step, dim);
      if step == Some(0) then r == Err(ZeroStep)
      else
        var pace := if step.None? then 1 else step.value;
        && r.Ok? && r.value.Range? && r.value.step == pace && r.value.OnAxis(dim)
        && (r.value.len > 0 ==> r.value.start == PythonStart(start, dim, pace))
        && forall x :: SliceTakes(start, stop, pace, dim, x)
                  <==> exists k :: 0 <= k < r.value.len && x == r.value.start + k * pace
  {
    if step != Some(0) {
      var pace := StepOf(step);
      var sel := ResolveSlice(start, stop, step, dim).value;
      StartIsPythons(start, dim, pace);
      forall x
        ensures SliceTakes(start, stop, pace, dim, x) <==> exists k :: 0 <= k < sel.len && x == sel.start + k * pace
      {
        SliceMember(start, stop, step, dim, x);
      }
      if sel.len > 0 {
        SliceEnd(start, stop, step, dim, 0);
        SliceEnd(start, stop, step, dim, sel.len - 1);
      }
    }
  }

  /** `[::-1]` walks the whole axis from its last position to its first. */
  lemma ReversedSlice(dim: nat, k: nat)
    requires dim <= I64_MAX && k < dim
    ensures var r := ResolveSlice(None, None, Some(-1), dim);
      r.Ok? && r.value.Range? && r.value.len == dim && r.value.start + k * r.value.step == dim - 1 - k
  {
    assert (dim - 1) / Abs(-1) == dim - 1;
  }

  lemma SliceMember(start: Option<i64>, stop: Option<i64>, step: Option<i64>, dim: nat, x: int)
    requires dim <= I64_MAX && step != Some(0)
    ensures var sel := ResolveSlice(start, stop, step, dim).value;
      SliceTakes(start, stop, StepOf(step), dim, x)
      <==> exists k :: 0 <= k < sel.len && x == sel.start + k * StepOf(step)
  {
    var pace := StepOf(step);
    StartIsPythons(start, dim, pace);
    WalkLength(SliceStart(start, dim, pace), SliceStop(stop, dim, pace), pace, x);
  }

  lemma SliceEnd(start: Option<i64>, stop: Option<i64>, step: Option<i64>, dim: nat, k: nat)
    requires dim <= I64_MAX && step != Some(0) && k < ResolveSlice(start, stop, step, dim).value.len
    ensures 0 <= ResolveSlice(start, stop, step, dim).value.start + k * StepOf(step) < dim
  {
    SliceMember(start, stop, step, dim, ResolveSlice(start, stop, step, dim).value.start + k * StepOf(step));
  }
}
