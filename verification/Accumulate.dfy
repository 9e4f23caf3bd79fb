/** The accumulators, against the textbook reductions. Floating elements are
    exact reals and NaN. */
module Accumulators {
  import opened Words
  import opened Folding

  datatype Num = Nan | Fin(x: real) {
    function Add(y: Num): Num { if Nan? || y.Nan? then Nan else Fin(x + y.x) }
    function Sub(y: Num): Num { if Nan? || y.Nan? then Nan else Fin(x - y.x) }
    function Mul(y: Num): Num { if Nan? || y.Nan? then Nan else Fin(x * y.x) }
    function Over(n: nat): Num
      requires n > 0
    {
      if Nan? then Nan else Fin(x / n as real)
    }
    /** Comparisons with NaN are false. */
    predicate Ge(y: Num) { Fin? && y.Fin? && x >= y.x }
    predicate Le(y: Num) { Fin? && y.Fin? && x <= y.x }
  }

  /** What is fed to one cell: positions and values, in order. */
  ghost function Column<T>(pushed: seq<Push<T>>, cell: nat): seq<(nat, T)> {
    if pushed == [] then []
    else
      var last := pushed[|pushed| - 1];
      Column(pushed[..|pushed| - 1], cell) + (if last.cell == cell then [(last.pos, last.x)] else [])
  }

  ghost function Run<S, T>(init: S, step: Step<S, T>, column: seq<(nat, T)>): S {
    if column == [] then init
    else step(Run(init, step, column[..|column| - 1]), column[|column| - 1].0, column[|column| - 1].1)
  }

  /** A cell's state depends on its own elements alone. */
  lemma {:induction false} StateIsRun<S, T>(init: S, step: Step<S, T>, pushed: seq<Push<T>>, cell: nat)
    ensures StateOf(init, step, pushed, cell) == Run(init, step, Column(pushed, cell))
    decreases |pushed|
  {
    if pushed != [] {
      var before := Column(pushed[..|pushed| - 1], cell);
      StateIsRun(init, step, pushed[..|pushed| - 1], cell);
      var last := pushed[|pushed| - 1];
      assert (before + [(last.pos, last.x)])[..|before|] == before;
      assert before + [] == before;
    }
  }

  // Integer sums and products.

  function IntStep(prod: bool, acc: nat, v: int): nat {
    if prod then Wrap(acc * Wrap(v)) else Wrap(acc + Wrap(v))
  }

  ghost function IntTotal(prod: bool, column: seq<(nat, int)>): int {
    if column == [] then if prod then 1 else 0
    else
      var rest, v := IntTotal(prod, column[..|column| - 1]), column[|column| - 1].1;
      if prod then rest * v else rest + v
  }

  lemma WrapPlus(a: int, b: int)
    ensures Wrap(Wrap(a) + Wrap(b)) == Wrap(a + b)
  {
  }

  /** Integer sums and products are exact modulo 2^64, whatever their signs. */
  lemma {:induction false} IntsAreExact(prod: bool, column: seq<(nat, int)>)
    ensures Run(if prod then 1 else 0, (acc: nat, pos: nat, v: int) => IntStep(prod, acc, v), column)
         == Wrap(IntTotal(prod, column))
    decreases |column|
  {
    hide Wrap;
    if column == [] {
      SmallWraps();
    } else {
      IntsAreExact(prod, column[..|column| - 1]);
      var rest, v := IntTotal(prod, column[..|column| - 1]), column[|column| - 1].1;
      WrapTimes(rest, v);
      WrapPlus(rest, v);
    }
  }

  lemma SmallWraps()
    ensures Wrap(0) == 0 && Wrap(1) == 1
  {
  }

  // Floating sums, products and means.

  datatype Totals = Totals(total: Num, count: nat)

  function FloatStep(prod: bool, skipNan: bool, acc: Totals, v: Num): Totals {
    if skipNan && v.Nan? then acc
    else Totals(if prod then acc.total.Mul(v) else acc.total.Add(v), acc.count + 1)
  }

  /** The elements a reduction looks at. */
  ghost function Seen(skipNan: bool, column: seq<(nat, Num)>): seq<Num> {
    if column == [] then []
    else
      var v := column[|column| - 1].1;
      Seen(skipNan, column[..|column| - 1]) + (if skipNan && v.Nan? then [] else [v])
  }

  ghost predicate AllFinite(xs: seq<Num>) {
    forall k :: 0 <= k < |xs| ==> xs[k].Fin?
  }

  ghost function RealTotal(prod: bool, xs: seq<Num>): real
    requires AllFinite(xs)
  {
    if xs == [] then if prod then 1.0 else 0.0
    else
      var rest, x := RealTotal(prod, xs[..|xs| - 1]), xs[|xs| - 1].x;
      if prod then rest * x else rest + x
  }

  /** The sum or product of some elements: NaN if one of them is. */
  ghost function NumTotal(prod: bool, xs: seq<Num>): Num {
    if AllFinite(xs) then Fin(RealTotal(prod, xs)) else Nan
  }

  /** The sum or product of the elements looked at, and how many there are. A mean
      is the one over the other. */
  lemma {:induction false} FloatsAreTotals(prod: bool, skipNan: bool, column: seq<(nat, Num)>)
    ensures Run(Totals(Fin(if prod then 1.0 else 0.0), 0),
                (acc: Totals, pos: nat, v: Num) => FloatStep(prod, skipNan, acc, v), column)
         == Totals(NumTotal(prod, Seen(skipNan, column)), |Seen(skipNan, column)|)
    ensures skipNan ==> AllFinite(Seen(skipNan, column))
    decreases |column|
  {
    hide NumTotal;
    if column == [] {
      NothingTotal(prod);
    } else {
      FloatsAreTotals(prod, skipNan, column[..|column| - 1]);
      var rest, v := Seen(skipNan, column[..|column| - 1]), column[|column| - 1].1;
      if skipNan && v.Nan? {
        assert rest + [] == rest;
      } else {
        TotalMore(prod, rest, v);
      }
    }
  }

  lemma NothingTotal(prod: bool)
    ensures NumTotal(prod, []) == Fin(if prod then 1.0 else 0.0)
  {
  }

  lemma TotalMore(prod: bool, xs: seq<Num>, v: Num)
    ensures NumTotal(prod, xs + [v]) == if prod then NumTotal(prod, xs).Mul(v) else NumTotal(prod, xs).Add(v)
    ensures AllFinite(xs + [v]) <==> AllFinite(xs) && v.Fin?
  {
    SeenMore(prod, xs, v);
  }

  lemma SeenMore(prod: bool, xs: seq<Num>, v: Num)
    ensures AllFinite(xs + [v]) <==> AllFinite(xs) && v.Fin?
    ensures AllFinite(xs) && v.Fin? ==>
      RealTotal(prod, xs + [v]) == if prod then RealTotal(prod, xs) * v.x else RealTotal(prod, xs) + v.x
  {
    assert (xs + [v])[..|xs|] == xs;
    if AllFinite(xs + [v]) {
      forall k | 0 <= k < |xs| ensures xs[k].Fin? {
        assert (xs + [v])[k] == xs[k];
      }
      assert (xs + [v])[|xs|] == v;
    }
  }

  // Variance.

  datatype Moments = Moments(n: nat, mean: Num, m2: Num)

  function VarStep(acc: Moments, v: Num): Moments {
    var n := acc.n + 1;
    var d := v.Sub(acc.mean);
    var mean := acc.mean.Add(d.Over(n));
    Moments(n, mean, acc.m2.Add(d.Mul(v.Sub(mean))))
  }

  ghost function Values(column: seq<(nat, Num)>): (xs: seq<Num>)
    ensures |xs| == |column|
  {
    seq(|column|, k requires 0 <= k < |column| => column[k].1)
  }

  /** The sum of squared distances from `a`. */
  ghost function Spread(xs: seq<Num>, a: real): real
    requires AllFinite(xs)
  {
    if xs == [] then 0.0
    else
      var d := xs[|xs| - 1].x - a;
      Spread(xs[..|xs| - 1], a) + d * d
  }

  predicate MeanOf(n: real, mean: real, sum: real) {
    n * mean == sum
  }

  function Square(x: real): real {
    x * x
  }

  /** The spread about the mean, from the plain sum of squares. */
  function Central(n: real, mean: real, squares: real): real {
    squares - n * mean * mean
  }

  function NextSpread(m2: real, mean: real, x: real, mean': real): real {
    m2 + (x - mean) * (x - mean')
  }

  /** The mean moved by its share of a new element's distance. */
  predicate Shared(n: real, mean: real, x: real, mean': real) {
    n * (mean' - mean) == x - mean
  }

  lemma {:induction false} SpreadShift(xs: seq<Num>, a: real)
    requires AllFinite(xs)
    ensures Spread(xs, a) == Spread(xs, 0.0) - 2.0 * a * RealTotal(false, xs) + |xs| as real * a * a
    decreases |xs|
  {
    if xs != [] {
      var init, x := xs[..|xs| - 1], xs[|xs| - 1].x;
      SpreadShift(init, a);
      ShiftOne(Spread(init, 0.0), RealTotal(false, init), |init| as real, x, a);
    }
  }

  lemma ShiftOne(s2: real, s1: real, n: real, x: real, a: real)
    ensures (s2 - 2.0 * a * s1 + n * a * a) + (x - a) * (x - a)
         == (s2 + (x - 0.0) * (x - 0.0)) - 2.0 * a * (s1 + x) + (n + 1.0) * a * a
  {
  }

  lemma SpreadIsCentral(xs: seq<Num>, mean: real)
    requires AllFinite(xs) && MeanOf(|xs| as real, mean, RealTotal(false, xs))
    ensures Spread(xs, mean) == Central(|xs| as real, mean, Spread(xs, 0.0))
  {
    hide Spread, RealTotal;
    SpreadShift(xs, mean);
    CentralAtMean(|xs| as real, mean, RealTotal(false, xs), Spread(xs, 0.0));
  }

  lemma CentralAtMean(n: real, mean: real, s1: real, s2: real)
    requires MeanOf(n, mean, s1)
    ensures s2 - 2.0 * mean * s1 + n * mean * mean == Central(n, mean, s2)
  {
  }

  /** Welford's update, one element: the new mean and the new spread. */
  lemma WelfordStep(n: real, mean: real, s1: real, s2: real, x: real, mean': real)
    requires n >= 0.0 && MeanOf(n, mean, s1) && Shared(n + 1.0, mean, x, mean')
    ensures MeanOf(n + 1.0, mean', s1 + x)
    ensures NextSpread(Central(n, mean, s2), mean, x, mean') == Central(n + 1.0, mean', s2 + Square(x))
  {
    var d, q := x - mean, mean' - mean;
    assert (n + 1.0) * (mean + q) == n * mean + mean + d;
    WelfordSquare(n + 1.0, mean, q, d);
    assert (n + 1.0) * mean * mean == n * mean * mean + mean * mean;
    assert d * (x - (mean + q)) == d * d - d * q;
    assert d * d == x * x - 2.0 * x * mean + mean * mean;
    assert 2.0 * mean * d == 2.0 * x * mean - 2.0 * mean * mean;
  }

  lemma WelfordSquare(n: real, mean: real, q: real, d: real)
    requires n * q == d
    ensures n * (mean + q) * (mean + q) == n * mean * mean + 2.0 * mean * d + d * q
  {
    assert n * (mean + q) * (mean + q) == n * mean * mean + 2.0 * mean * (n * q) + (n * q) * q;
  }

  lemma {:induction false} ValuesSnoc(column: seq<(nat, Num)>)
    requires column != []
    ensures Values(column) == Values(column[..|column| - 1]) + [column[|column| - 1].1]
  {
  }

  ghost predicate Textbook(m: Moments, xs: seq<Num>) {
    && m.n == |xs|
    && (AllFinite(xs) ==>
          m.mean.Fin? && m.m2.Fin?
          && MeanOf(m.n as real, m.mean.x, RealTotal(false, xs)) && m.m2.x == Spread(xs, m.mean.x))
    && (!AllFinite(xs) ==> m.mean.Nan? && m.m2.Nan?)
  }

  /** Welford's running mean and spread are the textbook ones: n times the mean is
      the sum, and the second moment is the sum of squared distances from it. */
  lemma {:induction false} VarianceIsTextbook(column: seq<(nat, Num)>)
    ensures Textbook(Run(Moments(0, Fin(0.0), Fin(0.0)), (acc: Moments, pos: nat, v: Num) => VarStep(acc, v), column),
                     Values(column))
    decreases |column|
  {
    hide Textbook;
    if column == [] {
      TextbookStart();
    } else {
      VarianceIsTextbook(column[..|column| - 1]);
      ValuesSnoc(column);
      var before := Run(Moments(0, Fin(0.0), Fin(0.0)), (acc: Moments, pos: nat, v: Num) => VarStep(acc, v),
                        column[..|column| - 1]);
      TextbookStep(before, Values(column[..|column| - 1]), column[|column| - 1].1);
    }
  }

  lemma TextbookStart()
    ensures Textbook(Moments(0, Fin(0.0), Fin(0.0)), [])
  {
  }

  lemma TextbookStep(m: Moments, xs: seq<Num>, v: Num)
    requires Textbook(m, xs)
    ensures Textbook(VarStep(m, v), xs + [v])
  {
    hide MeanOf, NextSpread, Shared, Spread, RealTotal, AllFinite;
    SeenMore(false, xs, v);
    if AllFinite(xs + [v]) {
      var mean' := m.mean.x + (v.x - m.mean.x) / (m.n + 1) as real;
      ShareIs(m.n, m.mean.x, v.x);
      FiniteStep(m.mean.x, xs, v.x, mean');
      VarStepIs(m, v, mean');
    } else {
      VarStepNan(m, v, xs);
    }
  }

  lemma ShareIs(n: nat, mean: real, x: real)
    ensures Shared((n + 1) as real, mean, x, mean + (x - mean) / (n + 1) as real)
  {
  }

  lemma VarStepIs(m: Moments, v: Num, mean': real)
    requires m.mean.Fin? && m.m2.Fin? && v.Fin? && mean' == m.mean.x + (v.x - m.mean.x) / (m.n + 1) as real
    ensures VarStep(m, v) == Moments(m.n + 1, Fin(mean'), Fin(NextSpread(m.m2.x, m.mean.x, v.x, mean')))
  {
    var d := v.Sub(m.mean);
    assert d == Fin(v.x - m.mean.x) && d.Over(m.n + 1) == Fin((v.x - m.mean.x) / (m.n + 1) as real);
    assert m.mean.Add(d.Over(m.n + 1)) == Fin(mean') && v.Sub(Fin(mean')) == Fin(v.x - mean');
    SpreadGrows(m.m2.x, m.mean.x, v.x, mean');
  }

  lemma SpreadGrows(m2: real, mean: real, x: real, mean': real)
    ensures Fin(m2).Add(Fin(x - mean).Mul(Fin(x - mean'))) == Fin(NextSpread(m2, mean, x, mean'))
  {
  }

  lemma VarStepNan(m: Moments, v: Num, xs: seq<Num>)
    requires (m.mean.Nan? && m.m2.Nan?) || v.Nan?
    ensures VarStep(m, v).n == m.n + 1 && VarStep(m, v).mean.Nan? && VarStep(m, v).m2.Nan?
  {
  }

  lemma FiniteStep(mean: real, xs: seq<Num>, x: real, mean': real)
    requires AllFinite(xs) && MeanOf(|xs| as real, mean, RealTotal(false, xs))
    requires Shared((|xs| + 1) as real, mean, x, mean')
    ensures AllFinite(xs + [Fin(x)])
    ensures MeanOf((|xs| + 1) as real, mean', RealTotal(false, xs + [Fin(x)]))
    ensures NextSpread(Spread(xs, mean), mean, x, mean') == Spread(xs + [Fin(x)], mean')
  {
    hide MeanOf, NextSpread, Shared, Central, Square, RealTotal, Spread;
    var more := xs + [Fin(x)];
    var n := |xs| as real;
    assert (|xs| + 1) as real == n + 1.0;
    SeenMore(false, xs, Fin(x));
    SpreadMore(xs, x);
    SpreadIsCentral(xs, mean);
    WelfordStep(n, mean, RealTotal(false, xs), Spread(xs, 0.0), x, mean');
    SpreadIsCentral(more, mean');
  }

  lemma SpreadMore(xs: seq<Num>, x: real)
    requires AllFinite(xs)
    ensures AllFinite(xs + [Fin(x)]) && Spread(xs + [Fin(x)], 0.0) == Spread(xs, 0.0) + Square(x)
  {
    assert (xs + [Fin(x)])[..|xs|] == xs;
  }

  // Extremes.

  /** One step of a running extreme: a NaN sticks to it, or is passed over. */
  function ExtremeStep(max: bool, skipNan: bool, acc: Option<Num>, v: Num): Option<Num> {
    if acc.None? then Some(v)
    else
      var keep := if max then acc.value.Ge(v) else acc.value.Le(v);
      if (if skipNan then v.Nan? || keep else acc.value.Nan? || keep) then acc else Some(v)
  }

  /** No NaN, and not on the wrong side: not below `y` for a maximum, not above for a minimum. */
  ghost predicate AtLeastAsGood(max: bool, x: Num, y: Num) {
    x.Fin? && y.Fin? && if max then x.x >= y.x else x.x <= y.x
  }

  /** numpy's extreme of some elements: NaN as soon as one is, or skipping NaN
      unless all are. */
  ghost predicate IsExtreme(max: bool, skipNan: bool, xs: seq<Num>, r: Num) {
    && r in xs
    && (r.Nan? <==> if skipNan then forall x :: x in xs ==> x.Nan? else Nan in xs)
    && (r.Fin? ==> forall x :: x in xs && x.Fin? ==> AtLeastAsGood(max, r, x))
  }

  lemma {:induction false} ExtremeIsExtreme(max: bool, skipNan: bool, column: seq<(nat, Num)>)
    ensures var r := Run(None, (acc: Option<Num>, pos: nat, v: Num) => ExtremeStep(max, skipNan, acc, v), column);
      if column == [] then r == None else r.Some? && IsExtreme(max, skipNan, Values(column), r.value)
    decreases |column|
  {
    hide IsExtreme;
    if column != [] {
      var init, v := column[..|column| - 1], column[|column| - 1].1;
      ExtremeIsExtreme(max, skipNan, init);
      ValuesSnoc(column);
      var before := Run(None, (acc: Option<Num>, pos: nat, v: Num) => ExtremeStep(max, skipNan, acc, v), init);
      if init == [] {
        assert Values(init) + [v] == [v];
        OneExtreme(max, skipNan, v);
      } else {
        NextExtreme(max, skipNan, Values(init), before.value, v);
      }
    }
  }

  lemma OneExtreme(max: bool, skipNan: bool, v: Num)
    ensures IsExtreme(max, skipNan, [v], v)
  {
  }

  lemma NextExtreme(max: bool, skipNan: bool, xs: seq<Num>, r: Num, v: Num)
    requires IsExtreme(max, skipNan, xs, r)
    ensures ExtremeStep(max, skipNan, Some(r), v).Some?
    ensures IsExtreme(max, skipNan, xs + [v], ExtremeStep(max, skipNan, Some(r), v).value)
  {
    var more, next := xs + [v], ExtremeStep(max, skipNan, Some(r), v).value;
    assert forall x :: x in more <==> x in xs || x == v;
  }

  // Positions of extremes.

  datatype Best = Best(x: Num, pos: nat, done: bool)

  /** Whether the position moves on to `x`: to a NaN always, from one never. */
  predicate Better(max: bool, x: Num, best: Num) {
    if max then !x.Le(best) else !x.Ge(best)
  }

  function ArgStep(max: bool, acc: Option<Best>, pos: nat, v: Num): Option<Best> {
    if acc.None? then Some(Best(v, pos, v.Nan?))
    else if acc.value.done then acc
    else if Better(max, v, acc.value.x) then Some(Best(v, pos, v.Nan?))
    else acc
  }

  /** Element `k` is the first NaN, or without any the first extreme. */
  ghost predicate IsFirst(max: bool, column: seq<(nat, Num)>, k: nat)
    requires k < |column|
  {
    if column[k].1.Nan? then forall j :: 0 <= j < k ==> column[j].1.Fin?
    else
      && (forall j :: 0 <= j < |column| ==> AtLeastAsGood(max, column[k].1, column[j].1))
      && (forall j :: 0 <= j < k ==> !AtLeastAsGood(max, column[j].1, column[k].1))
  }

  ghost predicate Points(column: seq<(nat, Num)>, k: nat, best: Best)
    requires k < |column|
  {
    best == Best(column[k].1, column[k].0, column[k].1.Nan?)
  }

  lemma {:induction false} ArgIsFirst(max: bool, column: seq<(nat, Num)>) returns (k: nat)
    requires column != []
    ensures k < |column| && IsFirst(max, column, k)
    ensures var r := Run(None, (acc: Option<Best>, pos: nat, v: Num) => ArgStep(max, acc, pos, v), column);
      r.Some? && Points(column, k, r.value)
    decreases |column|
  {
    var n := |column| - 1;
    var init, v := column[..n], column[n].1;
    if n == 0 {
      k := 0;
      assert Run(None, (acc: Option<Best>, pos: nat, v: Num) => ArgStep(max, acc, pos, v), init) == None;
    } else {
      k := ArgIsFirst(max, init);
      if column[k].1.Fin? && Better(max, v, column[k].1) {
        FirstMoves(max, init, k, column[n]);
        k := n;
      } else {
        FirstStays(max, init, k, column[n]);
      }
      assert init + [column[n]] == column;
    }
  }

  lemma FirstMoves(max: bool, column: seq<(nat, Num)>, k: nat, next: (nat, Num))
    requires k < |column| && IsFirst(max, column, k) && column[k].1.Fin? && Better(max, next.1, column[k].1)
    ensures IsFirst(max, column + [next], |column|)
  {
    var more := column + [next];
    forall j | 0 <= j < |column| ensures more[j] == column[j] && AtLeastAsGood(max, column[k].1, column[j].1) {
    }
  }

  lemma FirstStays(max: bool, column: seq<(nat, Num)>, k: nat, next: (nat, Num))
    requires k < |column| && IsFirst(max, column, k)
    requires column[k].1.Nan? || !Better(max, next.1, column[k].1)
    ensures IsFirst(max, column + [next], k)
  {
    var more := column + [next];
    forall j | 0 <= j < |column| ensures more[j] == column[j] {
    }
  }

  // Truth.

  predicate Truthy(v: Num) {
    v != Fin(0.0)
  }

  function LogicStep(all: bool, acc: bool, v: Num): bool {
    if all then acc && Truthy(v) else acc || Truthy(v)
  }

  lemma {:induction false} LogicIsLogic(all: bool, column: seq<(nat, Num)>)
    ensures Run(all, (acc: bool, pos: nat, v: Num) => LogicStep(all, acc, v), column)
      <==> if all then forall k :: 0 <= k < |column| ==> column[k].1 != Fin(0.0)
           else exists k :: 0 <= k < |column| && column[k].1 != Fin(0.0)
    decreases |column|
  {
    if column != [] {
      var n := |column| - 1;
      var init := column[..n];
      LogicIsLogic(all, init);
      if !all && Run(all, (acc: bool, pos: nat, v: Num) => LogicStep(all, acc, v), init) {
        var k :| 0 <= k < n && init[k].1 != Fin(0.0);
        assert column[k] == init[k];
      }
      assert forall k :: 0 <= k < n ==> column[k] == init[k];
    }
  }
}
