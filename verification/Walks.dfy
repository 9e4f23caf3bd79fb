/** The rows a selection walks, and the two ways they may be rearranged.

    Inserting the group's dimension gives one row of offsets per output
    dimension; dropping the rows of length 1 leaves what is worth walking. */
module Walks {
  import opened Words
  import opened Radix
  import opened Selecting
  import opened Resolving
  import opened Meaning

  /** The source element behind output element `n`. */
  ghost function Element(entries: seq<Entry>, shape: seq<nat>, len: nat, n: nat): int
    requires |Axes(entries)| == |shape| && Positive(OutShape(entries, len))
  {
    var out := Unravel(n, OutShape(entries, len));
    ShapeLengths(entries, len);
    SourceIndexLength(entries, out);
    Flat(SourceIndex(entries, out), shape)
  }

  lemma ShapeLengths(entries: seq<Entry>, len: nat)
    ensures |OutShape(entries, len)| == |OutShape(entries, 1)|
  {
  }

  lemma SourceIndexLength(entries: seq<Entry>, out: seq<nat>)
    requires |out| == |OutShape(entries, 1)|
    ensures |SourceIndex(entries, out)| == |Axes(entries)|
  {
    if GroupPositions(entries) == [] {
      SourceLength(entries, out, 0);
    } else {
      var g := GroupAt(entries);
      SourceLength(entries, out[..g] + out[g + 1..], out[g]);
    }
  }

  /** The group's row, less a constant counted in the base. */
  ghost function GroupRow(entries: seq<Entry>, shape: seq<nat>, len: nat, c: int): seq<int> {
    seq(len, k requires k >= 0 => GroupTerm(entries, shape, k) - c)
  }

  function Insert<T>(s: seq<T>, g: nat, x: T): seq<T>
    requires g <= |s|
  {
    s[..g] + [x] + s[g..]
  }

  /** A row of offsets per output dimension, the group's in its place. */
  ghost function OutRows(entries: seq<Entry>, shape: seq<nat>, len: nat, c: int): Rows {
    var rows := RestRows(entries, shape);
    RestWidths(entries, shape);
    if GroupPositions(entries) == [] then rows
    else Insert(rows, GroupAt(entries), GroupRow(entries, shape, len, c))
  }

  lemma WidthsInsert(rows: Rows, g: nat, row: seq<int>)
    requires g <= |rows|
    ensures |Widths(rows)| == |rows|
    ensures Widths(Insert(rows, g, row)) == Insert(Widths(rows), g, |row|)
  {
    WidthsLength(rows);
    WidthsConcat(rows[..g], [row]);
    WidthsConcat(rows[..g] + [row], rows[g..]);
    WidthsConcat(rows[..g], rows[g..]);
    WidthsLength(rows[..g]);
    assert rows == rows[..g] + rows[g..];
    assert Widths([row]) == [|row|] by { assert [row][..0] == []; }
  }

  lemma {:induction false} WidthsLength(rows: Rows)
    ensures |Widths(rows)| == |rows|
  {
    if rows != [] {
      WidthsLength(rows[..|rows| - 1]);
    }
  }

  lemma OutWidths(entries: seq<Entry>, shape: seq<nat>, len: nat, c: int)
    ensures Widths(OutRows(entries, shape, len, c)) == OutShape(entries, len)
  {
    RestWidths(entries, shape);
    if GroupPositions(entries) != [] {
      WidthsInsert(RestRows(entries, shape), GroupAt(entries), GroupRow(entries, shape, len, c));
    }
  }

  /** Walking one inserted row adds its offset, wherever it was inserted. */
  lemma SumInsert(rows: Rows, g: nat, row: seq<int>, idx: seq<nat>)
    requires g <= |rows| && |idx| == |rows| + 1
    ensures SumRows(Insert(rows, g, row), idx) == SumRows(rows, idx[..g] + idx[g + 1..]) + RowAt(row, idx[g])
  {
    var a, b := rows[..g], rows[g..];
    var i, j := idx[..g], idx[g + 1..];
    assert rows == a + b;
    assert idx == i + [idx[g]] + j;
    SumRowsConcat(a, b, i, j);
    SumRowsConcat(a, [row], i, [idx[g]]);
    SumRowsConcat(a + [row], b, i + [idx[g]], j);
    SumOneRow(row, idx[g]);
  }

  lemma InsideRemove(idx: seq<nat>, dims: seq<nat>, g: nat, d: nat)
    requires g <= |dims| && Inside(idx, Insert(dims, g, d))
    ensures Inside(idx[..g] + idx[g + 1..], dims) && idx[g] < d
  {
    var out := Insert(dims, g, d);
    var rest := idx[..g] + idx[g + 1..];
    assert out[g] == d;
    forall i | 0 <= i < |rest| ensures rest[i] < dims[i] {
      if i < g {
        assert out[i] == dims[i];
      } else {
        assert out[i + 1] == dims[i];
      }
    }
  }

  /** numpy's rule is a base plus one offset per output dimension. */
  lemma ElementSum(entries: seq<Entry>, shape: seq<nat>, len: nat, c: int, n: nat)
    requires Fitting(entries, shape) && |Axes(entries)| == |shape|
    requires Positive(OutShape(entries, len)) && n < Product(OutShape(entries, len))
    requires GroupPositions(entries) == [] ==> c == 0
    ensures Widths(OutRows(entries, shape, len, c)) == OutShape(entries, len)
    ensures Element(entries, shape, len, n) == RestBase(entries, shape) + c + Walk(OutRows(entries, shape, len, c), n)
  {
    var out := Unravel(n, OutShape(entries, len));
    RavelUnravel(n, OutShape(entries, len));
    OutWidths(entries, shape, len, c);
    WidthsLength(OutRows(entries, shape, len, c));
    ShapeLengths(entries, len);
    SourceIndexLength(entries, out);
    FlatDot(SourceIndex(entries, out), shape);
    RestWidths(entries, shape);
    if GroupPositions(entries) == [] {
      SourceDot(entries, shape, out, 0);
      NoGroupTerm(entries, shape, 0);
    } else {
      GroupedSum(entries, shape, len, c, out);
    }
  }

  lemma GroupedSum(entries: seq<Entry>, shape: seq<nat>, len: nat, c: int, out: seq<nat>)
    requires Fitting(entries, shape) && Inside(out, OutShape(entries, len)) && GroupPositions(entries) != []
    requires |RestRows(entries, shape)| == |Rest(entries)|
    requires |SourceIndex(entries, out)| == |Axes(entries)| && |OutRows(entries, shape, len, c)| == |out|
    ensures Dot(SourceIndex(entries, out), shape)
         == RestBase(entries, shape) + c + SumRows(OutRows(entries, shape, len, c), out)
  {
    var g := GroupAt(entries);
    InsideRemove(out, Rest(entries), g, len);
    hide SumRows, RestRows, RestBase, Rest, GroupTerm, Dot, Source, Inside, Fitting, GroupAt, GroupPositions;
    SourceDot(entries, shape, out[..g] + out[g + 1..], out[g]);
    SumInsert(RestRows(entries, shape), g, GroupRow(entries, shape, len, c), out);
  }

  lemma {:induction false} NoGroupTerm(entries: seq<Entry>, shape: seq<nat>, k: nat)
    ensures GroupPositions(entries) == [] ==> GroupTerm(entries, shape, k) == 0
  {
    if entries != [] {
      NoGroupTerm(entries[..|entries| - 1], shape, k);
    }
  }

  /** The rows worth walking: those with more than one offset. */
  ghost function Squeeze(rows: Rows): Rows {
    if rows == [] then []
    else
      var init, last := Squeeze(rows[..|rows| - 1]), rows[|rows| - 1];
      if |last| > 1 then init + [last] else init
  }

  /** No row of length 1 moves anything. */
  ghost predicate Grounded(rows: Rows) {
    forall i :: 0 <= i < |rows| && |rows[i]| == 1 ==> rows[i] == [0]
  }

  lemma {:induction false} SqueezeConcat(a: Rows, b: Rows)
    ensures Squeeze(a + b) == Squeeze(a) + Squeeze(b)
    decreases |b|
  {
    if b == [] {
      assert a + b == a;
    } else {
      SqueezeConcat(a, b[..|b| - 1]);
      assert (a + b)[..|a + b| - 1] == a + b[..|b| - 1];
    }
  }

  lemma WidthsSnoc(init: Rows, last: seq<int>)
    ensures Widths(init + [last]) == Widths(init) + [|last|]
  {
    assert (init + [last])[..|init|] == init;
  }

  lemma SumRowsSnoc(init: Rows, last: seq<int>, idx: seq<nat>, k: nat)
    requires |init| == |idx|
    ensures SumRows(init + [last], idx + [k]) == SumRows(init, idx) + RowAt(last, k)
  {
    assert (init + [last])[..|init|] == init && (idx + [k])[..|idx|] == idx;
  }

  lemma SqueezeSnoc(init: Rows, last: seq<int>)
    ensures Squeeze(init + [last]) == if |last| > 1 then Squeeze(init) + [last] else Squeeze(init)
  {
    assert (init + [last])[..|init|] == init;
  }

  lemma {:induction false} SqueezeSize(rows: Rows)
    requires Positive(Widths(rows))
    ensures Positive(Widths(Squeeze(rows))) && Product(Widths(Squeeze(rows))) == Product(Widths(rows))
    decreases |rows|
  {
    if rows != [] {
      var init, last := rows[..|rows| - 1], rows[|rows| - 1];
      assert rows == init + [last];
      WidthsSnoc(init, last);
      PositiveSnoc(Widths(init), |last|);
      SqueezeSize(init);
      SqueezeSizeStep(init, last);
    }
  }

  lemma SqueezeSizeStep(init: Rows, last: seq<int>)
    requires Positive(Widths(init)) && |last| > 0
    requires Positive(Widths(Squeeze(init))) && Product(Widths(Squeeze(init))) == Product(Widths(init))
    ensures Positive(Widths(Squeeze(init + [last])))
    ensures Product(Widths(Squeeze(init + [last]))) == Product(Widths(init + [last]))
  {
    hide Widths, Squeeze, Product;
    WidthsSnoc(init, last);
    SqueezeSnoc(init, last);
    if |last| > 1 {
      WidthsSnoc(Squeeze(init), last);
      ProductSame(Widths(Squeeze(init)), Widths(init), |last|);
    } else {
      ProductSnoc(Widths(init), |last|);
    }
  }

  lemma PositiveSnoc(dims: seq<nat>, d: nat)
    requires Positive(dims + [d])
    ensures Positive(dims) && d > 0
  {
    assert (dims + [d])[|dims|] == d;
    assert forall i :: 0 <= i < |dims| ==> (dims + [d])[i] == dims[i];
  }

  lemma ProductSame(a: seq<nat>, b: seq<nat>, d: nat)
    requires Product(a) == Product(b)
    ensures Product(a + [d]) == Product(b + [d])
  {
    ProductSnoc(a, d);
    ProductSnoc(b, d);
  }

  lemma ProductSnoc(dims: seq<nat>, d: nat)
    ensures Product(dims + [d]) == Product(dims) * d
  {
    assert (dims + [d])[..|dims|] == dims;
  }

  /** Where a walk over `rows` stands at position `n`. */
  ghost function Walk(rows: Rows, n: nat): int
    requires Positive(Widths(rows))
  {
    WidthsLength(rows);
    SumRows(rows, Unravel(n, Widths(rows)))
  }

  lemma WalkSnoc(init: Rows, last: seq<int>, n: nat)
    requires Positive(Widths(init)) && |last| > 0
    ensures Positive(Widths(init + [last]))
    ensures Walk(init + [last], n) == Walk(init, n / |last|) + RowAt(last, n % |last|)
  {
    WidthsLength(init);
    WidthsSnoc(init, last);
    UnravelSnoc(n, Widths(init), |last|);
    SumRowsSnoc(init, last, Unravel(n / |last|, Widths(init)), n % |last|);
  }

  /** Dropping the rows of length 1 changes no element. */
  lemma {:induction false} SqueezeWalk(rows: Rows, n: nat)
    requires Positive(Widths(rows)) && Grounded(rows)
    ensures Positive(Widths(Squeeze(rows)))
    ensures Walk(rows, n) == Walk(Squeeze(rows), n)
    decreases |rows|
  {
    hide Walk, Squeeze, Widths, Positive, Product, Grounded, RowAt;
    if rows == [] {
      NoRows();
    } else {
      var init, last := rows[..|rows| - 1], rows[|rows| - 1];
      assert rows == init + [last];
      WidthsSnoc(init, last);
      PositiveSnoc(Widths(init), |last|);
      GroundedSplit(init, last);
      var n': nat := n / |last|;
      SqueezeWalk(init, n');
      SqueezeStep(init, last, n, n');
    }
  }

  /** One more row: it is dropped with nothing lost, or walked innermost. */
  lemma SqueezeStep(init: Rows, last: seq<int>, n: nat, n': nat)
    requires Positive(Widths(init)) && |last| > 0 && n' == n / |last|
    requires |last| == 1 ==> RowAt(last, 0) == 0
    requires Positive(Widths(Squeeze(init))) && Walk(init, n') == Walk(Squeeze(init), n')
    ensures Positive(Widths(init + [last])) && Positive(Widths(Squeeze(init + [last])))
    ensures Walk(init + [last], n) == Walk(Squeeze(init + [last]), n)
  {
    hide Walk, Squeeze, Widths, Positive, Product, RowAt;
    SqueezeSnoc(init, last);
    WalkSnoc(init, last, n);
    if |last| > 1 {
      WalkSnoc(Squeeze(init), last, n);
    } else {
      ByOne(n);
    }
  }

  lemma GroundedSplit(init: Rows, last: seq<int>)
    requires Grounded(init + [last])
    ensures Grounded(init) && (|last| == 1 ==> RowAt(last, 0) == 0)
  {
    assert (init + [last])[|init|] == last;
    assert forall i :: 0 <= i < |init| ==> (init + [last])[i] == init[i];
  }

  lemma NoRows()
    ensures Squeeze([]) == []
  {
  }

  lemma ByOne(n: nat)
    ensures n / 1 == n && n % 1 == 0
  {
  }
}
