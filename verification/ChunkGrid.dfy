/** Arrays cut into equal chunks, those at the edge padded to full size.

    Where a byte of the array lies is one line: the chunk its element's
    coordinates fall in, and its place in that chunk. The walk below finds whole
    runs of such bytes at once. */
module ChunkGrids {
  import opened Words
  import opened Radix

  /** A piece of the walk: `len` bytes of chunk `chunk` from byte `start` of it. */
  datatype Piece = Piece(chunk: nat, start: nat, len: nat)

  function DivUp(n: nat, d: nat): nat
    requires d > 0
  {
    if n % d == 0 then n / d else n / d + 1
  }

  function Quot(x: nat, c: nat): nat
    requires c > 0
  {
    x / c
  }

  function Rem(x: nat, c: nat): (r: nat)
    requires c > 0
    ensures r < c
  {
    x % c
  }

  /** Per axis, the chunk a coordinate falls in. */
  function ChunkIndex(pos: seq<nat>, chunkShape: seq<nat>): (idx: seq<nat>)
    requires |pos| <= |chunkShape| && Positive(chunkShape)
    ensures |idx| == |pos|
  {
    seq(|pos|, i requires 0 <= i < |pos| => Quot(pos[i], chunkShape[i]))
  }

  /** Per axis, the coordinate inside its chunk. */
  function WithinIndex(pos: seq<nat>, chunkShape: seq<nat>): (idx: seq<nat>)
    requires |pos| <= |chunkShape| && Positive(chunkShape)
    ensures |idx| == |pos|
  {
    seq(|pos|, i requires 0 <= i < |pos| => Rem(pos[i], chunkShape[i]))
  }

  datatype ChunkGrid = ChunkGrid(
    shape: seq<nat>, chunkShape: seq<nat>, grid: seq<nat>, itemsize: nat, chunkBytes: nat, runAxis: nat)
  {
    ghost predicate Valid() {
      && |chunkShape| == |shape| == |grid| && Positive(chunkShape) && itemsize > 0
      && (forall i :: 0 <= i < |shape| ==> grid[i] == DivUp(shape[i], chunkShape[i]))
      && chunkBytes == Offset(Product(chunkShape), itemsize)
      && (shape != [] ==> runAxis < |shape|)
      && (forall i :: runAxis < i < |shape| ==> chunkShape[i] == shape[i])
    }

    ghost function Bytes(): nat { Offset(Product(shape), itemsize) }

    /** Chunk numbers run from 0 to this. */
    function Chunks(): nat { Product(grid) }

    /** The chunk and the byte in it of element position `pos`. */
    ghost function ChunkAt(pos: seq<nat>): nat
      requires Valid() && |pos| == |shape|
    {
      Ravel(ChunkIndex(pos, chunkShape), grid)
    }

    ghost function WithinAt(pos: seq<nat>): nat
      requires Valid() && |pos| == |shape|
    {
      Ravel(WithinIndex(pos, chunkShape), chunkShape)
    }

    ghost function Position(b: nat): seq<nat>
      requires Valid() && Positive(shape)
    {
      Unravel(b / itemsize, shape)
    }

    /** Where byte `b` of the array lies: its chunk, and its offset in the chunk. */
    ghost function Locate(b: nat): (nat, nat)
      requires Valid() && Positive(shape)
    {
      (ChunkAt(Position(b)), Offset(WithinAt(Position(b)), itemsize) + b % itemsize)
    }
  }

  /** Every coordinate of the array falls in some chunk, at a place inside it. */
  lemma IndexInside(g: ChunkGrid, pos: seq<nat>)
    requires g.Valid() && Inside(pos, g.shape)
    ensures Inside(ChunkIndex(pos, g.chunkShape), g.grid)
    ensures Inside(WithinIndex(pos, g.chunkShape), g.chunkShape)
  {
    forall i | 0 <= i < |pos| ensures Quot(pos[i], g.chunkShape[i]) < g.grid[i] {
      ChunkOnAxis(pos[i], g.shape[i], g.chunkShape[i]);
    }
  }

  lemma ChunkOnAxis(x: nat, n: nat, c: nat)
    requires c > 0 && x < n
    ensures Quot(x, c) < DivUp(n, c)
  {
    assert n == n / c * c + n % c && x == x / c * c + x % c;
    var q := DivUp(n, c);
    CeilCovers(n, n / c, n % c, q, c);
    QuotientBound(x / c, x % c, q, c);
  }

  lemma CeilCovers(n: nat, q: nat, r: nat, up: nat, c: nat)
    requires n == q * c + r && r < c && up == if r == 0 then q else q + 1
    ensures n <= up * c
  {
    if r != 0 {
      NextMultiple(q, up, c);
    }
  }

  /** Bytes land inside a chunk of the grid. */
  lemma LocateInside(g: ChunkGrid, b: nat)
    requires g.Valid() && Positive(g.shape) && b < g.Bytes()
    ensures g.Locate(b).0 < g.Chunks() && g.Locate(b).1 < g.chunkBytes
    ensures Inside(g.Position(b), g.shape)
  {
    hide Ravel, Product, Offset, Unravel;
    var pos := g.Position(b);
    ElementBelow(b, Product(g.shape), g.itemsize);
    RavelUnravel(b / g.itemsize, g.shape);
    IndexInside(g, pos);
    RavelBound(ChunkIndex(pos, g.chunkShape), g.grid);
    RavelBound(WithinIndex(pos, g.chunkShape), g.chunkShape);
    ByteBelow(g.WithinAt(pos), Product(g.chunkShape), b % g.itemsize, g.itemsize);
  }

  lemma ElementBelow(b: nat, total: nat, itemsize: nat)
    requires itemsize > 0 && b < Offset(total, itemsize)
    ensures b / itemsize < total
  {
    assert b == b / itemsize * itemsize + b % itemsize;
    QuotientBound(b / itemsize, b % itemsize, total, itemsize);
  }

  lemma ByteBelow(e: nat, total: nat, skip: nat, itemsize: nat)
    requires e < total && skip < itemsize
    ensures Offset(e, itemsize) + skip < Offset(total, itemsize)
  {
    DigitBound(e, total, skip, itemsize);
  }

  function Digit(h: nat, d: nat, x: nat): nat {
    h * d + x
  }

  lemma DigitMoves(h: nat, d: nat, x: nat, k: nat)
    ensures Digit(h, d, x + k) == Digit(h, d, x) + k
  {
  }

  /** The axis a run goes along, cut out of an index. */
  lemma AxisNumber(a: seq<nat>, x: nat, b: seq<nat>, da: seq<nat>, d: nat, db: seq<nat>)
    requires |a| == |da| && |b| == |db|
    ensures Ravel(a + [x] + b, da + [d] + db) == Offset(Digit(Ravel(a, da), d, x), Product(db)) + Ravel(b, db)
  {
    hide Product, Ravel, Digit;
    RavelSplit(a + [x], b, da + [d], db);
    RavelSnoc(a, x, da, d);
  }

  lemma RavelSnoc(a: seq<nat>, x: nat, da: seq<nat>, d: nat)
    requires |a| == |da|
    ensures Ravel(a + [x], da + [d]) == Digit(Ravel(a, da), d, x)
  {
    assert (a + [x])[..|a|] == a && (da + [d])[..|da|] == da;
  }

  /** The length the code gives a run from `pos`: rows left of the chunk, times
      their size, minus the part of the first row that `pos` is past. */
  function RunElements(shape: seq<nat>, chunkShape: seq<nat>, j: nat, pos: seq<nat>): int
    requires |pos| == |shape| == |chunkShape| && j < |shape| && chunkShape[j] > 0 && pos[j] <= shape[j]
  {
    var trailing := Product(shape[j + 1..]);
    var behind := Ravel(pos[j + 1..], shape[j + 1..]);
    var along := Min(chunkShape[j] - Rem(pos[j], chunkShape[j]), shape[j] - pos[j]);
    along * trailing - behind
  }

  /** `pos` moved `d` along axis `j`, to place `b` of the trailing axes. */
  ghost function Along(pos: seq<nat>, j: nat, d: nat, b: seq<nat>): seq<nat>
    requires j < |pos|
  {
    pos[..j] + [pos[j] + d] + b
  }

  lemma SplitAt(s: seq<nat>, j: nat)
    requires j < |s|
    ensures s == s[..j] + [s[j]] + s[j + 1..]
  {
  }

  /** Moving along an axis moves whole blocks of the trailing axes. */
  lemma AlongNumber(dims: seq<nat>, pos: seq<nat>, j: nat, d: nat, b: seq<nat>)
    requires |pos| == |dims| && j < |dims| && |b| == |dims| - j - 1
    ensures Ravel(Along(pos, j, d, b), dims) + Ravel(pos[j + 1..], dims[j + 1..])
         == Ravel(pos, dims) + Offset(d, Product(dims[j + 1..])) + Ravel(b, dims[j + 1..])
  {
    hide Ravel, Product, Digit, Offset;
    SplitAt(pos, j);
    SplitAt(dims, j);
    AlongParts(pos[..j], pos[j], pos[j + 1..], dims[..j], dims[j], dims[j + 1..], d, b);
  }

  lemma AlongParts(a: seq<nat>, x: nat, c: seq<nat>, da: seq<nat>, n: nat, dc: seq<nat>, d: nat, b: seq<nat>)
    requires |a| == |da| && |c| == |b| == |dc|
    ensures Ravel(a + [x + d] + b, da + [n] + dc) + Ravel(c, dc)
         == Ravel(a + [x] + c, da + [n] + dc) + Offset(d, Product(dc)) + Ravel(b, dc)
  {
    hide *;
    AxisNumber(a, x, c, da, n, dc);
    AxisNumber(a, x + d, b, da, n, dc);
    MovedBlock(Ravel(a, da), n, x, d, Product(dc));
  }

  lemma MovedBlock(h: nat, n: nat, x: nat, d: nat, p: nat)
    ensures Offset(Digit(h, n, x + d), p) == Offset(Digit(h, n, x), p) + Offset(d, p)
  {
    DigitMoves(h, n, x, d);
    OffsetAdd(Digit(h, n, x), d, p);
  }

  lemma AlongInside(shape: seq<nat>, pos: seq<nat>, j: nat, d: nat, b: seq<nat>)
    requires Inside(pos, shape) && j < |shape| && d < shape[j] - pos[j] && Inside(b, shape[j + 1..])
    ensures Inside(Along(pos, j, d, b), shape)
  {
    var pos' := Along(pos, j, d, b);
    forall i | 0 <= i < |shape| ensures pos'[i] < shape[i] {
      if i > j {
        assert shape[j + 1..][i - j - 1] == shape[i];
      }
    }
  }

  lemma StepInChunk(x: nat, c: nat, d: nat)
    requires c > 0 && d < c - Rem(x, c)
    ensures Quot(x + d, c) == Quot(x, c) && Rem(x + d, c) == Rem(x, c) + d
  {
    assert x + d == x / c * c + (x % c + d);
    DivModUnique(x / c, x % c + d, c);
  }

  /** Along the run axis the chunk stays the same, and the place in it moves as
      the place in the array does. */
  lemma AlongInChunk(g: ChunkGrid, pos: seq<nat>, d: nat, b: seq<nat>)
    requires g.Valid() && g.shape != [] && Inside(pos, g.shape) && Inside(b, g.shape[g.runAxis + 1..])
    requires d < g.shape[g.runAxis] - pos[g.runAxis]
    requires d < g.chunkShape[g.runAxis] - Rem(pos[g.runAxis], g.chunkShape[g.runAxis])
    ensures var pos' := Along(pos, g.runAxis, d, b);
      && |pos'| == |pos|
      && ChunkIndex(pos', g.chunkShape) == ChunkIndex(pos, g.chunkShape)
      && WithinIndex(pos', g.chunkShape) == Along(WithinIndex(pos, g.chunkShape), g.runAxis, d, b)
  {
    hide Quot, Rem;
    var j, c := g.runAxis, g.chunkShape;
    var pos' := Along(pos, j, d, b);
    var within := Along(WithinIndex(pos, c), j, d, b);
    forall i | 0 <= i < |pos|
      ensures Quot(pos'[i], c[i]) == Quot(pos[i], c[i])
      ensures Rem(pos'[i], c[i]) == within[i]
    {
      if i == j {
        StepInChunk(pos[j], c[j], d);
      } else if i > j {
        assert pos'[i] == b[i - j - 1] && g.shape[j + 1..][i - j - 1] == g.shape[i] == c[i];
        SmallDigit(pos[i], c[i]);
        SmallDigit(pos'[i], c[i]);
      }
    }
  }

  lemma SmallDigit(x: nat, c: nat)
    requires x < c
    ensures Quot(x, c) == 0 && Rem(x, c) == x
  {
    DivModUnique(0, x, c);
  }

  /** Within a run, the next elements of the array are the next elements of the chunk. */
  lemma RunStays(g: ChunkGrid, pos: seq<nat>, k: nat)
    requires g.Valid() && g.shape != [] && Inside(pos, g.shape)
    requires k < RunElements(g.shape, g.chunkShape, g.runAxis, pos)
    ensures Positive(g.shape) && Ravel(pos, g.shape) + k < Product(g.shape)
    ensures var pos' := Unravel(Ravel(pos, g.shape) + k, g.shape);
      g.ChunkAt(pos') == g.ChunkAt(pos) && g.WithinAt(pos') == g.WithinAt(pos) + k
  {
    hide Ravel, Product, Unravel, Along, ChunkIndex, WithinIndex, Offset;
    var j := g.runAxis;
    var tail := g.shape[j + 1..];
    TailFacts(g, pos);
    var t, behind := Product(tail), Ravel(pos[j + 1..], tail);
    var along := Min(g.chunkShape[j] - Rem(pos[j], g.chunkShape[j]), g.shape[j] - pos[j]);
    var d, r := (behind + k) / t, (behind + k) % t;
    RunDigits(behind + k, along, t);
    RavelUnravel(r, tail);
    var b := Unravel(r, tail);
    var pos' := Along(pos, j, d, b);
    AlongInside(g.shape, pos, j, d, b);
    AlongNumber(g.shape, pos, j, d, b);
    UnravelRavel(pos', g.shape);
    RavelBound(pos', g.shape);
    AlongInChunk(g, pos, d, b);
    WithinNumber(g, pos, d, b);
  }

  lemma RunDigits(q: nat, along: nat, t: nat)
    requires t > 0 && q < along * t
    ensures q / t < along && q % t < t && q == Offset(q / t, t) + q % t
  {
    QuotientBound(q / t, q % t, along, t);
  }

  lemma TailFacts(g: ChunkGrid, pos: seq<nat>)
    requires g.Valid() && g.shape != [] && Inside(pos, g.shape)
    ensures var tail := g.shape[g.runAxis + 1..];
      && Positive(tail) && Product(tail) > 0 && tail == g.chunkShape[g.runAxis + 1..]
      && Inside(pos[g.runAxis + 1..], tail) && Ravel(pos[g.runAxis + 1..], tail) < Product(tail)
  {
    var tail := g.shape[g.runAxis + 1..];
    ProductPositive(tail);
    RavelBound(pos[g.runAxis + 1..], tail);
  }

  lemma WithinNumber(g: ChunkGrid, pos: seq<nat>, d: nat, b: seq<nat>)
    requires g.Valid() && g.shape != [] && Inside(pos, g.shape) && Inside(b, g.shape[g.runAxis + 1..])
    ensures |Along(WithinIndex(pos, g.chunkShape), g.runAxis, d, b)| == |g.shape|
    ensures var tail := g.shape[g.runAxis + 1..];
      Ravel(Along(WithinIndex(pos, g.chunkShape), g.runAxis, d, b), g.chunkShape) + Ravel(pos[g.runAxis + 1..], tail)
      == g.WithinAt(pos) + Offset(d, Product(tail)) + Ravel(b, tail)
  {
    hide Ravel, Product, Offset;
    var within := WithinIndex(pos, g.chunkShape);
    TailFacts(g, pos);
    AlongNumber(g.chunkShape, within, g.runAxis, d, b);
    assert within[g.runAxis + 1..] == pos[g.runAxis + 1..] by {
      TailWithin(g, pos);
    }
  }

  lemma TailWithin(g: ChunkGrid, pos: seq<nat>)
    requires g.Valid() && g.shape != [] && Inside(pos, g.shape)
    ensures WithinIndex(pos, g.chunkShape)[g.runAxis + 1..] == pos[g.runAxis + 1..]
  {
    forall i | g.runAxis < i < |pos| ensures Rem(pos[i], g.chunkShape[i]) == pos[i] {
      SmallDigit(pos[i], g.chunkShape[i]);
    }
  }

  /** Ravel coordinates, or refuse them where one is too large for its dimension.
      Coordinates or dimensions without a counterpart are not looked at. */
  method Linear(coords: seq<nat>, dims: seq<nat>) returns (number: Option<nat>)
    ensures var m := Min(|coords|, |dims|);
      number == if Inside(coords[..m], dims[..m]) then Some(Ravel(coords[..m], dims[..m])) else None
  {
    var m := Min(|coords|, |dims|);
    var n := 0;
    for i := 0 to m
      invariant Inside(coords[..i], dims[..i])
      invariant n == Ravel(coords[..i], dims[..i])
    {
      if coords[i] >= dims[i] {
        assert coords[..m][i] == coords[i] && dims[..m][i] == dims[i];
        return None;
      }
      RavelSnoc(coords[..i], coords[i], dims[..i], dims[i]);
      assert coords[..i + 1] == coords[..i] + [coords[i]] && dims[..i + 1] == dims[..i] + [dims[i]];
      n := n * dims[i] + coords[i];
    }
    return Some(n);
  }

  /** The per-axis coordinates of entry `n` of a grid of `dims`. */
  method CoordsOf(n: nat, dims: seq<nat>) returns (coords: seq<nat>)
    requires Positive(dims)
    ensures coords == Unravel(n, dims)
  {
    hide Unravel;
    coords := seq(|dims|, _ => 0);
    var rest := n;
    var axis := |dims|;
    assert dims[..axis] == dims && Unravel(n, dims) + coords[axis..] == Unravel(n, dims);
    while axis > 0
      invariant axis <= |dims| == |coords|
      invariant Unravel(n, dims) == Unravel(rest, dims[..axis]) + coords[axis..]
    {
      axis := axis - 1;
      CoordsStep(rest, dims, coords, axis);
      coords := coords[axis := rest % dims[axis]];
      rest := rest / dims[axis];
    }
    UnravelNothing(rest);
    assert dims[..0] == [] && coords[0..] == coords;
  }

  lemma UnravelNothing(n: nat)
    ensures Unravel(n, []) == []
  {
  }

  lemma CoordsStep(rest: nat, dims: seq<nat>, coords: seq<nat>, axis: nat)
    requires axis < |dims| == |coords| && Positive(dims)
    ensures Unravel(rest, dims[..axis + 1]) + coords[axis + 1..]
         == Unravel(rest / dims[axis], dims[..axis]) + coords[axis := rest % dims[axis]][axis..]
  {
    hide Unravel;
    assert dims[..axis + 1] == dims[..axis] + [dims[axis]];
    UnravelSnoc(rest, dims[..axis], dims[axis]);
  }

  /** The product the checked fold computes, or nothing if it leaves a u64 on the way. */
  method CheckedProduct(first: nat, dims: seq<nat>) returns (product: Option<nat>)
    requires first < U64
    ensures product == if FoldFits(first, dims) then Some(Offset(Product(dims), first)) else None
  {
    hide Product, Offset, FoldFits;
    var acc := first;
    FoldStart(first, dims);
    for i := 0 to |dims|
      invariant acc == Offset(Product(dims[..i]), first)
      invariant FoldFits(first, dims[..i])
    {
      FoldStep(first, dims, i);
      if acc * dims[i] >= U64 {
        return None;
      }
      acc := acc * dims[i];
    }
    assert dims[..|dims|] == dims;
    return Some(acc);
  }

  lemma FoldStart(first: nat, dims: seq<nat>)
    requires first < U64
    ensures Offset(Product(dims[..0]), first) == first && FoldFits(first, dims[..0])
  {
  }

  lemma FoldStep(first: nat, dims: seq<nat>, i: nat)
    requires i < |dims| && FoldFits(first, dims[..i])
    ensures Offset(Product(dims[..i + 1]), first) == Offset(Product(dims[..i]), first) * dims[i]
    ensures Offset(Product(dims[..i + 1]), first) < U64 ==> FoldFits(first, dims[..i + 1])
    ensures Offset(Product(dims[..i + 1]), first) >= U64 ==> !FoldFits(first, dims)
  {
    hide Product, Offset;
    assert dims[..i + 1] == dims[..i] + [dims[i]];
    ProductSnoc(dims[..i], dims[i]);
    Reorder(Product(dims[..i]), dims[i], first);
    if Offset(Product(dims[..i + 1]), first) < U64 {
      var longer := dims[..i + 1];
      forall k | 0 <= k <= |longer| ensures Offset(Product(longer[..k]), first) < U64 {
        if k <= i {
          assert longer[..k] == dims[..i][..k];
        } else {
          assert longer[..k] == longer;
        }
      }
    }
  }

  lemma FoldWhole(first: nat, dims: seq<nat>)
    requires FoldFits(first, dims)
    ensures Offset(Product(dims), first) < U64
  {
    assert dims[..|dims|] == dims;
  }

  /** No prefix of the product leaves a u64. */
  ghost predicate FoldFits(first: nat, dims: seq<nat>) {
    forall k :: 0 <= k <= |dims| ==> Offset(Product(dims[..k]), first) < U64
  }

  lemma ProductSnoc(dims: seq<nat>, d: nat)
    ensures Product(dims + [d]) == Product(dims) * d
  {
    assert (dims + [d])[..|dims|] == dims;
  }

  lemma Reorder(p: nat, d: nat, first: nat)
    ensures Offset(p * d, first) == Offset(p, first) * d
  {
    assert p * d * first == p * first * d;
  }

  function Grid(shape: seq<nat>, chunkShape: seq<nat>): (grid: seq<nat>)
    requires |shape| == |chunkShape| && Positive(chunkShape)
    ensures |grid| == |shape|
  {
    seq(|shape|, i requires 0 <= i < |shape| => DivUp(shape[i], chunkShape[i]))
  }

  /** What a grid can be made of: matching ranks, no empty chunk axis, and
      neither the chunk count nor the chunk's bytes leave a u64. */
  ghost predicate Griddable(shape: seq<nat>, chunkShape: seq<nat>, itemsize: nat) {
    && |chunkShape| == |shape| && Positive(chunkShape)
    && FoldFits(1, Grid(shape, chunkShape)) && FoldFits(itemsize, chunkShape)
  }

  lemma OffsetOne(n: nat)
    ensures Offset(n, 1) == n
  {
  }

  method New(shape: seq<nat>, chunkShape: seq<nat>, itemsize: nat) returns (made: Option<ChunkGrid>)
    requires 0 < itemsize < U64
    ensures made.Some? <==> Griddable(shape, chunkShape, itemsize)
    ensures made.Some? ==>
      var g := made.value;
      && g.Valid() && g.shape == shape && g.chunkShape == chunkShape && g.itemsize == itemsize
      && g.chunkBytes < U64 && g.Chunks() < U64
      && (0 < g.runAxis < |shape| ==> chunkShape[g.runAxis] != shape[g.runAxis])
  {
    hide Product, Offset, FoldFits;
    if |chunkShape| != |shape| || exists i :: 0 <= i < |chunkShape| && chunkShape[i] == 0 {
      return None;
    }
    var grid := Grid(shape, chunkShape);
    var chunks := CheckedProduct(1, grid);
    if chunks.None? {
      return None;
    }
    var chunkBytes := CheckedProduct(itemsize, chunkShape);
    if chunkBytes.None? {
      return None;
    }
    var runAxis: nat := if shape == [] then 0 else |shape| - 1;
    while runAxis > 0 && chunkShape[runAxis] == shape[runAxis]
      invariant shape != [] ==> runAxis < |shape|
      invariant shape == [] ==> runAxis == 0
      invariant forall i :: runAxis < i < |shape| ==> chunkShape[i] == shape[i]
    {
      runAxis := runAxis - 1;
    }
    FoldWhole(1, grid);
    FoldWhole(itemsize, chunkShape);
    OffsetOne(Product(grid));
    made := Some(ChunkGrid(shape, chunkShape, grid, itemsize, chunkBytes.value, runAxis));
  }

  /** How many bytes the pieces carry. */
  function Carried(pieces: seq<Piece>): nat {
    if pieces == [] then 0 else Carried(pieces[..|pieces| - 1]) + pieces[|pieces| - 1].len
  }

  /** The array's bytes from `at` on are the piece's bytes of its chunk. */
  ghost predicate StaysIn(g: ChunkGrid, at: nat, p: Piece)
    requires g.Valid() && Positive(g.shape)
  {
    && p.chunk < g.Chunks() && p.start + p.len <= g.chunkBytes
    && forall b :: at <= b < at + p.len ==> g.Locate(b) == (p.chunk, p.start + (b - at))
  }

  /** The pieces are the array's bytes from `at` on, in order. */
  ghost predicate Walked(g: ChunkGrid, at: nat, pieces: seq<Piece>)
    requires g.Valid() && Positive(g.shape)
  {
    forall i :: 0 <= i < |pieces| ==> StaysIn(g, at + Carried(pieces[..i]), pieces[i])
  }

  lemma WalkedSnoc(g: ChunkGrid, at: nat, pieces: seq<Piece>, p: Piece)
    requires g.Valid() && Positive(g.shape)
    requires Walked(g, at, pieces) && StaysIn(g, at + Carried(pieces), p)
    ensures Walked(g, at, pieces + [p]) && Carried(pieces + [p]) == Carried(pieces) + p.len
  {
    hide StaysIn, Carried, ChunkGrid.Valid, Positive;
    var more := pieces + [p];
    CarriedSnoc(pieces, p);
    forall i | 0 <= i < |more| ensures StaysIn(g, at + Carried(more[..i]), more[i]) {
      if i < |pieces| {
        assert more[..i] == pieces[..i];
      } else {
        assert more[..i] == pieces;
      }
    }
  }

  lemma CarriedSnoc(pieces: seq<Piece>, p: Piece)
    ensures Carried(pieces + [p]) == Carried(pieces) + p.len
  {
    assert (pieces + [p])[..|pieces|] == pieces;
  }

  lemma ByteOfArray(g: ChunkGrid, at: nat)
    requires g.Valid() && at < g.Bytes()
    ensures Positive(g.shape) && at / g.itemsize < Product(g.shape)
    ensures g.Position(at) == Unravel(at / g.itemsize, g.shape) && Inside(g.Position(at), g.shape)
    ensures Ravel(g.Position(at), g.shape) == at / g.itemsize
  {
    hide Product, Ravel, Unravel, Offset, Positive, Inside;
    ElementBelow(at, Product(g.shape), g.itemsize);
    ProductPositive(g.shape);
    RavelUnravel(at / g.itemsize, g.shape);
  }

  /** A run is never empty. */
  lemma RunPositive(g: ChunkGrid, pos: seq<nat>)
    requires g.Valid() && g.shape != [] && Inside(pos, g.shape)
    ensures RunElements(g.shape, g.chunkShape, g.runAxis, pos) > 0
  {
    hide Ravel, Product;
    var j := g.runAxis;
    TailFacts(g, pos);
    MulLe(1, Min(g.chunkShape[j] - Rem(pos[j], g.chunkShape[j]), g.shape[j] - pos[j]), Product(g.shape[j + 1..]));
  }

  /** Bytes of one run lie one after the other in one chunk. */
  lemma RunBytes(g: ChunkGrid, at: nat, len: nat)
    requires g.Valid() && g.shape != [] && len > 0 && at + len <= g.Bytes()
    requires Positive(g.shape) && Inside(g.Position(at), g.shape)
    requires at % g.itemsize + len <= RunElements(g.shape, g.chunkShape, g.runAxis, g.Position(at)) * g.itemsize
    ensures StaysIn(g, at, Piece(g.Locate(at).0, g.Locate(at).1, len))
  {
    hide RunElements, Unravel, Ravel, Product, Offset;
    forall b | at <= b < at + len
      ensures g.Locate(b) == (g.Locate(at).0, g.Locate(at).1 + (b - at))
    {
      RunByte(g, at, b - at);
    }
    RunByte(g, at, len - 1);
    LocateInside(g, at + (len - 1));
  }

  lemma RunByte(g: ChunkGrid, at: nat, k: nat)
    requires g.Valid() && g.shape != [] && at + k < g.Bytes()
    requires Positive(g.shape) && Inside(g.Position(at), g.shape)
    requires at % g.itemsize + k < RunElements(g.shape, g.chunkShape, g.runAxis, g.Position(at)) * g.itemsize
    ensures g.Locate(at + k) == (g.Locate(at).0, g.Locate(at).1 + k)
  {
    hide RunElements, Unravel, Ravel, Product, Offset;
    var s := g.itemsize;
    var pos := g.Position(at);
    ByteOfArray(g, at);
    BytesOn(at, k, s);
    var e := (at % s + k) / s;
    QuotientBelow(at % s + k, RunElements(g.shape, g.chunkShape, g.runAxis, pos), s);
    RunStays(g, pos, e);
    OffsetAdd(g.WithinAt(pos), e, s);
  }

  lemma QuotientBelow(x: nat, p: int, d: nat)
    requires d > 0 && x < p * d
    ensures p > 0 && x / d < p
  {
    assert x == x / d * d + x % d;
    if p > 0 {
      QuotientBound(x / d, x % d, p, d);
    }
  }

  lemma BytesOn(at: nat, k: nat, s: nat)
    requires s > 0
    ensures (at + k) / s == at / s + (at % s + k) / s
    ensures (at + k) % s == (at % s + k) % s
    ensures Offset((at % s + k) / s, s) + (at % s + k) % s == at % s + k
  {
    var e, r := (at % s + k) / s, (at % s + k) % s;
    assert at == at / s * s + at % s && at % s + k == e * s + r;
    assert (at / s + e) * s == at / s * s + e * s;
    DivModUnique(at / s + e, r, s);
  }

  /** The piece from byte `at` to the end of its run, or to `left` bytes if that
      comes first. */
  method NextPiece(g: ChunkGrid, at: nat, left: nat) returns (p: Piece)
    requires g.Valid() && g.shape != [] && left > 0 && at + left <= g.Bytes()
    ensures Positive(g.shape) && StaysIn(g, at, p) && 0 < p.len <= left
  {
    hide Ravel, Product, Unravel, ChunkIndex, WithinIndex, RunElements, StaysIn;
    var element := at / g.itemsize;
    var skip := at % g.itemsize;
    ByteOfArray(g, at);
    var pos := CoordsOf(element, g.shape);
    IndexInside(g, pos);
    var coords := ChunkIndex(pos, g.chunkShape);
    var chunk := Linear(coords, g.grid);
    assert coords[..|coords|] == coords && g.grid[..|coords|] == g.grid;
    var within := Ravel(WithinIndex(pos, g.chunkShape), g.chunkShape);
    var run := RunElements(g.shape, g.chunkShape, g.runAxis, pos);
    RunPositive(g, pos);
    MulLe(1, run, g.itemsize);
    p := Piece(chunk.value, Offset(within, g.itemsize) + skip, Min(run * g.itemsize - skip, left));
    assert p.chunk == g.Locate(at).0 && p.start == g.Locate(at).1;
    RunBytes(g, at, p.len);
  }

  /** The walk: the calls it makes for the bytes `[at, at + n)`, in order. */
  method Walk(g: ChunkGrid, at: nat, n: nat) returns (pieces: seq<Piece>)
    requires g.Valid() && at + n <= g.Bytes()
    ensures Carried(pieces) == n
    ensures n > 0 ==> Positive(g.shape)
    ensures Positive(g.shape) ==> Walked(g, at, pieces)
    ensures n > 0 ==> forall i :: 0 <= i < |pieces| ==> pieces[i].len > 0
    ensures n == 0 && g.shape != [] ==> pieces == []
  {
    if g.shape == [] {
      ScalarPiece(g, at, n);
      return [Piece(0, at, n)];
    }
    pieces := [];
    var done := 0;
    while done < n
      invariant done <= n && Carried(pieces) == done
      invariant done > 0 ==> Positive(g.shape)
      invariant Positive(g.shape) ==> Walked(g, at, pieces)
      invariant forall i :: 0 <= i < |pieces| ==> pieces[i].len > 0
    {
      var p := NextPiece(g, at + done, n - done);
      WalkedSnoc(g, at, pieces, p);
      pieces := pieces + [p];
      done := done + p.len;
    }
  }

  lemma ScalarPiece(g: ChunkGrid, at: nat, n: nat)
    requires g.Valid() && g.shape == [] && at + n <= g.Bytes()
    ensures Carried([Piece(0, at, n)]) == n && Walked(g, at, [Piece(0, at, n)])
  {
    hide ChunkGrid.Locate, ChunkGrid.Valid, ChunkGrid.Bytes, StaysIn;
    ScalarStays(g, at, n);
    WalkedSnoc(g, at, [], Piece(0, at, n));
    assert [] + [Piece(0, at, n)] == [Piece(0, at, n)];
  }

  lemma ScalarStays(g: ChunkGrid, at: nat, n: nat)
    requires g.Valid() && g.shape == [] && at + n <= g.Bytes()
    ensures StaysIn(g, at, Piece(0, at, n))
  {
    hide ChunkGrid.Locate;
    forall b | at <= b < at + n ensures g.Locate(b) == (0, b) {
      ScalarByte(g, b);
    }
    ScalarSize(g);
  }

  lemma ScalarSize(g: ChunkGrid)
    requires g.Valid() && g.shape == []
    ensures g.Bytes() == g.itemsize == g.chunkBytes && g.Chunks() == 1
  {
  }

  lemma ScalarByte(g: ChunkGrid, b: nat)
    requires g.Valid() && g.shape == [] && b < g.Bytes()
    ensures g.Locate(b) == (0, b)
  {
    SmallDigit(b, g.itemsize);
    assert g.Position(b) == [] && g.WithinAt([]) == 0;
  }
}
