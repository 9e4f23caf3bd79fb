/** How a block of an encoded transfer is described: printed, parsed, and what
    slab of the output array it is. */
module BlockSpecs {
  import opened Words
  import opened Radix
  import opened LittleEndian

  const MAX_BLOCK_DIMS: nat := 3
  const VERSION: byte := 1
  const BLOCK_HEADER_LEN: nat := 24

  datatype DType =
    | Int8 | Int16 | Int32 | Int64 | Uint8 | Uint16 | Uint32 | Uint64
    | Float16 | Float32 | Float64 | Complex64 | Complex128 | Bool
  {
    function Itemsize(): nat {
      match this
      case Int8 | Uint8 | Bool => 1
      case Int16 | Uint16 | Float16 => 2
      case Int32 | Uint32 | Float32 => 4
      case Int64 | Uint64 | Float64 | Complex64 => 8
      case Complex128 => 16
    }

    function Code(): byte {
      match this
      case Int8 => 0 case Int16 => 1 case Int32 => 2 case Int64 => 3
      case Uint8 => 4 case Uint16 => 5 case Uint32 => 6 case Uint64 => 7
      case Float16 => 8 case Float32 => 9 case Float64 => 10
      case Complex64 => 11 case Complex128 => 12 case Bool => 13
    }
  }

  function DTypeOf(code: byte): Option<DType> {
    match code
    case 0 => Some(Int8) case 1 => Some(Int16) case 2 => Some(Int32) case 3 => Some(Int64)
    case 4 => Some(Uint8) case 5 => Some(Uint16) case 6 => Some(Uint32) case 7 => Some(Uint64)
    case 8 => Some(Float16) case 9 => Some(Float32) case 10 => Some(Float64)
    case 11 => Some(Complex64) case 12 => Some(Complex128) case 13 => Some(Bool)
    case _ => None
  }

  /** A block: its element type, up to three axes, and its error bound as the
      eight bytes it travels as. Axes past `ndim` are zero. */
  datatype BlockSpec = BlockSpec(dtype: DType, dims: seq<nat>, ndim: nat, eps: seq<byte>) {
    function Dims(): seq<nat>
      requires ndim <= |dims|
    {
      dims[..ndim]
    }

    ghost predicate Valid() {
      && |dims| == MAX_BLOCK_DIMS && 1 <= ndim <= MAX_BLOCK_DIMS && |eps| == 8
      && (forall i :: 0 <= i < |dims| ==> dims[i] < 0x1_0000_0000)
    }

    /** No axis has length one unless it is alone, and none past `ndim` has more
        than one element. */
    ghost predicate Folded() {
      |dims| == MAX_BLOCK_DIMS &&
      forall i :: 0 <= i < MAX_BLOCK_DIMS ==> AxisFolded(i)
    }

    predicate AxisFolded(i: nat)
      requires i < |dims|
    {
      if i < ndim then dims[i] > 1 || (ndim == 1 && dims[i] == 1) else dims[i] <= 1
    }
  }

  datatype Refusal = BadLength | AxisTooLong | BadHeader

  function WithoutOnes(axes: seq<nat>): seq<nat> {
    if axes == [] then []
    else WithoutOnes(axes[..|axes| - 1]) + if axes[|axes| - 1] > 1 then [axes[|axes| - 1]] else []
  }

  /** The two or three axes of a range made of complete rows, before axes of length 1
      are folded away. Three only where planes are complete as well. */
  function Slab(shape: seq<nat>, itemsize: nat, offset: nat, len: nat): Option<seq<nat>>
    requires itemsize > 0
  {
    if shape == [] then None
    else
      var inner := shape[|shape| - 1];
      var row := inner * itemsize;
      if row == 0 || row >= U64 || offset % row != 0 || len % row != 0 then None
      else
        var rows, first := len / row, offset / row;
        var plane := if |shape| >= 2 then shape[|shape| - 2] else 1;
        var planes := plane > 1 && rows % plane == 0 && first % plane == 0;
        Some(if planes then [rows / plane, plane, inner] else [rows, inner])
  }

  function SlabAxes(shape: seq<nat>, itemsize: nat, offset: nat, len: nat): Option<seq<nat>>
    requires itemsize > 0
  {
    var slab := Slab(shape, itemsize, offset, len);
    if slab.None? then None
    else
      var axes := WithoutOnes(slab.value);
      if axes == [] then None else Some(axes)
  }

  /** The axes a range is described with: its slab's, or one flat axis. */
  function AxesOf(shape: seq<nat>, itemsize: nat, offset: nat, len: nat): seq<nat>
    requires itemsize > 0
  {
    var axes := SlabAxes(shape, itemsize, offset, len);
    if axes.Some? then axes.value else [len / itemsize]
  }

  ghost predicate TooLong(axes: seq<nat>) {
    exists i :: 0 <= i < |axes| && axes[i] >= 0x1_0000_0000
  }

  lemma {:induction false} OnesDropped(axes: seq<nat>)
    requires Positive(axes)
    ensures Product(WithoutOnes(axes)) == Product(axes) && |WithoutOnes(axes)| <= |axes|
    ensures forall i :: 0 <= i < |WithoutOnes(axes)| ==> WithoutOnes(axes)[i] > 1
    ensures WithoutOnes(axes) == [] ==> Product(axes) == 1
    decreases |axes|
  {
    if axes != [] {
      var init, last := axes[..|axes| - 1], axes[|axes| - 1];
      OnesDropped(init);
      if last > 1 {
        assert (WithoutOnes(init) + [last])[..|WithoutOnes(init)|] == WithoutOnes(init);
      } else {
        assert WithoutOnes(init) + [] == WithoutOnes(init);
      }
    }
  }

  lemma ProductTwo(a: nat, b: nat)
    ensures Product([a, b]) == a * b
  {
    assert [a, b][..1] == [a];
    ProductOne(a);
  }

  lemma ProductThree(a: nat, b: nat, c: nat)
    ensures Product([a, b, c]) == a * b * c
  {
    assert [a, b, c][..2] == [a, b];
    ProductTwo(a, b);
  }

  lemma ProductOne(a: nat)
    ensures Product([a]) == a
  {
    assert [a][..0] == [];
  }

  lemma Exact(n: nat, d: nat)
    requires d > 0 && n % d == 0
    ensures n / d * d == n && (n > 0 ==> n / d > 0)
  {
    assert n == n / d * d + n % d;
  }

  lemma Regroup(a: nat, b: nat, c: nat)
    ensures a * b * c == a * (b * c)
  {
  }

  /** The slab of a range of whole rows holds exactly the range. */
  lemma SlabHolds(shape: seq<nat>, itemsize: nat, offset: nat, len: nat)
    requires itemsize > 0 && len > 0 && Slab(shape, itemsize, offset, len).Some?
    ensures var slab := Slab(shape, itemsize, offset, len).value;
      Positive(slab) && 2 <= |slab| <= 3 && Product(slab) * itemsize == len
  {
    hide Product;
    var inner := shape[|shape| - 1];
    var row := inner * itemsize;
    var rows, first := len / row, offset / row;
    Exact(len, row);
    Regroup(rows, inner, itemsize);
    ProductTwo(rows, inner);
    if |shape| >= 2 && shape[|shape| - 2] > 1 && rows % shape[|shape| - 2] == 0 {
      var plane := shape[|shape| - 2];
      Exact(rows, plane);
      ProductThree(rows / plane, plane, inner);
    }
  }

  lemma AxesFine(shape: seq<nat>, itemsize: nat, offset: nat, len: nat)
    requires itemsize > 0 && len > 0 && len % itemsize == 0
    ensures var axes := AxesOf(shape, itemsize, offset, len);
      && 1 <= |axes| <= MAX_BLOCK_DIMS && Product(axes) * itemsize == len
      && forall i :: 0 <= i < |axes| ==> axes[i] > 1 || (|axes| == 1 && axes[i] == 1)
  {
    hide Product, WithoutOnes, Slab;
    var slab := Slab(shape, itemsize, offset, len);
    Exact(len, itemsize);
    ProductOne(len / itemsize);
    if slab.Some? {
      SlabHolds(shape, itemsize, offset, len);
      OnesDropped(slab.value);
      if WithoutOnes(slab.value) == [] {
        assert len / itemsize == 1;
      }
    }
  }

  /** Element `k` of a slab block has the same trailing coordinates as the element
      of the output array it is: its place in its row, and, of a block of planes,
      its row in its plane. */
  lemma SlabCoordinates(shape: seq<nat>, itemsize: nat, offset: nat, len: nat, k: nat)
    requires itemsize > 0 && len > 0 && Slab(shape, itemsize, offset, len).Some?
    ensures var slab := Slab(shape, itemsize, offset, len).value;
      var inner := shape[|shape| - 1];
      && inner > 0 && offset % itemsize == 0 && slab[|slab| - 1] == inner
      && (offset / itemsize + k) % inner == k % inner
      && (|slab| == 3 ==>
            && |shape| >= 2 && slab[1] == shape[|shape| - 2] > 0
            && (offset / itemsize + k) / inner % slab[1] == k / inner % slab[1])
  {
    var inner := shape[|shape| - 1];
    var row := inner * itemsize;
    var first := offset / row;
    Exact(offset, row);
    Regroup(first, inner, itemsize);
    DivModUnique(first * inner, 0, itemsize);
    Shifted(first, inner, k);
    if |Slab(shape, itemsize, offset, len).value| == 3 {
      var plane := shape[|shape| - 2];
      Exact(first, plane);
      Shifted(first / plane, plane, k / inner);
    }
  }

  /** Whole multiples ahead do not change a remainder, and add to a quotient. */
  lemma Shifted(q: nat, d: nat, k: nat)
    requires d > 0
    ensures (q * d + k) % d == k % d && (q * d + k) / d == q + k / d
  {
    assert k == k / d * d + k % d;
    Distribute(q, k / d, d);
    DivModUnique(q + k / d, k % d, d);
  }

  lemma Distribute(a: nat, b: nat, d: nat)
    ensures (a + b) * d == a * d + b * d
  {
  }

  /** The range is made of complete rows of the array it is part of. */
  ghost predicate WholeRows(shape: seq<nat>, itemsize: nat, offset: nat, len: nat) {
    shape != [] &&
    var row := shape[|shape| - 1] * itemsize;
    0 < row < U64 && offset % row == 0 && len % row == 0
  }

  /** Bytes of one plane: the last two axes. */
  ghost function PlaneBytes(shape: seq<nat>, itemsize: nat): nat
    requires |shape| >= 2
  {
    shape[|shape| - 2] * (shape[|shape| - 1] * itemsize)
  }

  /** It is made of complete planes, of more than one row each. */
  ghost predicate WholePlanes(shape: seq<nat>, itemsize: nat, offset: nat, len: nat) {
    && WholeRows(shape, itemsize, offset, len) && |shape| >= 2 && shape[|shape| - 2] > 1
    && PlaneBytes(shape, itemsize) > 0
    && offset % PlaneBytes(shape, itemsize) == 0 && len % PlaneBytes(shape, itemsize) == 0
  }

  ghost function Axis(n: nat): seq<nat> {
    if n > 1 then [n] else []
  }

  lemma PlanesInRows(n: nat, row: nat, plane: nat)
    requires row > 0 && plane > 0 && n % row == 0
    ensures plane * row > 0
    ensures n / row % plane == 0 <==> n % (plane * row) == 0
    ensures n % (plane * row) == 0 ==> n / row / plane == n / (plane * row)
  {
    var rows := n / row;
    assert n == rows * row;
    if rows % plane == 0 {
      var p := rows / plane;
      assert rows == p * plane;
      Regroup(p, plane, row);
      DivModUnique(p, 0, plane * row);
    }
    if n % (plane * row) == 0 {
      var p := n / (plane * row);
      assert n == p * (plane * row);
      Regroup(p, plane, row);
      DivModUnique(p * plane, 0, row);
      DivModUnique(p, 0, plane);
    }
  }

  lemma FoldedTwo(a: nat, b: nat)
    ensures WithoutOnes([a, b]) == Axis(a) + Axis(b)
  {
    FoldedOne(a);
    assert [a, b][..1] == [a];
  }

  lemma FoldedOne(a: nat)
    ensures WithoutOnes([a]) == Axis(a)
  {
    assert [a][..0] == [] && WithoutOnes([]) == [];
  }

  lemma FoldedThree(a: nat, b: nat, c: nat)
    ensures WithoutOnes([a, b, c]) == Axis(a) + Axis(b) + Axis(c)
  {
    FoldedTwo(a, b);
    assert [a, b, c][..2] == [a, b];
  }

  /** The axes of a range: planes, rows and columns if it is made of planes; rows and
      columns if it is made of rows; its elements, flat, if neither. Axes with a single
      position drop out, and one element alone keeps one axis. */
  lemma AxesAre(shape: seq<nat>, itemsize: nat, offset: nat, len: nat)
    requires itemsize > 0 && len > 0 && len % itemsize == 0
    ensures !WholeRows(shape, itemsize, offset, len) ==> AxesOf(shape, itemsize, offset, len) == [len / itemsize]
    ensures WholeRows(shape, itemsize, offset, len) && !WholePlanes(shape, itemsize, offset, len) ==>
      var inner := shape[|shape| - 1];
      var axes := Axis(len / (inner * itemsize)) + Axis(inner);
      AxesOf(shape, itemsize, offset, len) == if axes == [] then [1] else axes
    ensures WholePlanes(shape, itemsize, offset, len) ==>
      AxesOf(shape, itemsize, offset, len)
      == Axis(len / PlaneBytes(shape, itemsize)) + [shape[|shape| - 2]] + Axis(shape[|shape| - 1])
  {
    hide WithoutOnes, Axis;
    if WholeRows(shape, itemsize, offset, len) {
      var inner := shape[|shape| - 1];
      var row := inner * itemsize;
      SlabIs(shape, itemsize, offset, len);
      if WholePlanes(shape, itemsize, offset, len) {
        FoldedThree(len / PlaneBytes(shape, itemsize), shape[|shape| - 2], inner);
        AxisIs(shape[|shape| - 2]);
      } else {
        FoldedTwo(len / row, inner);
        if Axis(len / row) + Axis(inner) == [] {
          OneElement(len, inner, itemsize);
        }
      }
    }
  }

  lemma AxisIs(n: nat)
    ensures n > 1 ==> Axis(n) == [n]
    ensures Axis(n) == [] <==> n <= 1
  {
  }

  /** A range of rows that leaves no axis is one element. */
  lemma OneElement(len: nat, inner: nat, itemsize: nat)
    requires inner * itemsize > 0 && len > 0 && len % (inner * itemsize) == 0
    requires Axis(len / (inner * itemsize)) == [] && Axis(inner) == []
    ensures itemsize > 0 && len / itemsize == 1
  {
    AxisIs(inner);
    AxisIs(len / (inner * itemsize));
    Exact(len, inner * itemsize);
    assert inner == 1 && len / itemsize == 1;
  }

  lemma SlabIs(shape: seq<nat>, itemsize: nat, offset: nat, len: nat)
    requires itemsize > 0 && WholeRows(shape, itemsize, offset, len)
    ensures Slab(shape, itemsize, offset, len)
         == Some(if WholePlanes(shape, itemsize, offset, len)
                 then [len / PlaneBytes(shape, itemsize), shape[|shape| - 2], shape[|shape| - 1]]
                 else [len / (shape[|shape| - 1] * itemsize), shape[|shape| - 1]])
  {
    var row := shape[|shape| - 1] * itemsize;
    if |shape| >= 2 && shape[|shape| - 2] > 1 {
      PlanesInRows(len, row, shape[|shape| - 2]);
      PlanesInRows(offset, row, shape[|shape| - 2]);
    }
  }

  /** The spec of a range, or why it has none; `AxesAre` says which axes it gets. */
  method ForRange(shape: seq<nat>, dtype: DType, eps: seq<byte>, offset: nat, len: nat)
    returns (spec: Result<BlockSpec, Refusal>)
    requires |eps| == 8
    ensures spec == Err(BadLength) <==> len == 0 || len % dtype.Itemsize() != 0
    ensures spec == Err(AxisTooLong) <==>
      len > 0 && len % dtype.Itemsize() == 0 && TooLong(AxesOf(shape, dtype.Itemsize(), offset, len))
    ensures spec.Ok? ==>
      && spec.value.Valid() && spec.value.Folded() && spec.value.dtype == dtype && spec.value.eps == eps
      && spec.value.Dims() == AxesOf(shape, dtype.Itemsize(), offset, len)
      && (forall i :: spec.value.ndim <= i < MAX_BLOCK_DIMS ==> spec.value.dims[i] == 0)
      && Product(spec.value.Dims()) * dtype.Itemsize() == len
  {
    hide Product, WithoutOnes;
    var itemsize := dtype.Itemsize();
    if len == 0 || len % itemsize != 0 {
      return Err(BadLength);
    }
    var axes := AxesOf(shape, itemsize, offset, len);
    AxesFine(shape, itemsize, offset, len);
    var dims := [0, 0, 0];
    for i := 0 to |axes|
      invariant |dims| == MAX_BLOCK_DIMS
      invariant forall k :: 0 <= k < i ==> dims[k] == axes[k] < 0x1_0000_0000
      invariant forall k :: i <= k < MAX_BLOCK_DIMS ==> dims[k] == 0
    {
      if axes[i] >= 0x1_0000_0000 {
        return Err(AxisTooLong);
      }
      dims := dims[i := axes[i]];
    }
    assert dims[..|axes|] == axes;
    spec := Ok(BlockSpec(dtype, dims, |axes|, eps));
  }

  ghost function DimBytes(dims: seq<nat>): seq<byte> {
    if dims == [] then [] else DimBytes(dims[..|dims| - 1]) + LeBytes(dims[|dims| - 1], 4)
  }

  /** The header as it is laid out. */
  ghost function Header(spec: BlockSpec): seq<byte>
    requires spec.Valid()
  {
    [VERSION, spec.dtype.Code(), spec.ndim, 0] + spec.eps + DimBytes(spec.dims)
  }

  method Encode(spec: BlockSpec, out: seq<byte>) returns (out': seq<byte>)
    requires spec.Valid()
    ensures out' == out + Header(spec)
  {
    hide DimBytes, LeBytes;
    out' := out + [VERSION];
    out' := out' + [spec.dtype.Code()];
    out' := out' + [spec.ndim];
    out' := out' + [0];
    out' := out' + spec.eps;
    ghost var start := [VERSION, spec.dtype.Code(), spec.ndim, 0] + spec.eps;
    assert out' == out + start;
    NoDimBytes(spec.dims);
    for i := 0 to |spec.dims|
      invariant out' == out + (start + DimBytes(spec.dims[..i]))
    {
      DimBytesNext(spec.dims, i);
      Assoc(out, start, DimBytes(spec.dims[..i]), LeBytes(spec.dims[i], 4));
      out' := out' + LeBytes(spec.dims[i], 4);
    }
    assert spec.dims[..|spec.dims|] == spec.dims;
  }

  lemma NoDimBytes(dims: seq<nat>)
    ensures DimBytes(dims[..0]) == []
  {
  }

  lemma DimBytesNext(dims: seq<nat>, i: nat)
    requires i < |dims|
    ensures DimBytes(dims[..i + 1]) == DimBytes(dims[..i]) + LeBytes(dims[i], 4)
  {
    assert dims[..i + 1][..i] == dims[..i];
  }

  lemma Assoc(a: seq<byte>, b: seq<byte>, c: seq<byte>, d: seq<byte>)
    ensures a + (b + c) + d == a + (b + (c + d))
  {
  }

  /** Axis `i` as a header has it. */
  function DimAt(src: seq<byte>, i: nat): nat
    requires 12 + i * 4 + 4 <= |src|
  {
    LeNumber(src[12 + i * 4..12 + i * 4 + 4])
  }

  /** What a header says, whether or not it agrees with itself. */
  ghost function Read(src: seq<byte>, dtype: DType): BlockSpec
    requires |src| >= BLOCK_HEADER_LEN
  {
    BlockSpec(dtype, [DimAt(src, 0), DimAt(src, 1), DimAt(src, 2)], src[2], src[4..12])
  }

  /** A header this build takes. */
  ghost predicate WellFormed(src: seq<byte>, isBound: seq<byte> -> bool) {
    && |src| >= BLOCK_HEADER_LEN && src[0] == VERSION && DTypeOf(src[1]).Some?
    && 1 <= src[2] <= MAX_BLOCK_DIMS && isBound(src[4..12])
    && Read(src, DTypeOf(src[1]).value).Folded()
  }

  method Decode(src: seq<byte>, isBound: seq<byte> -> bool) returns (spec: Result<BlockSpec, Refusal>)
    ensures spec.Ok? <==> WellFormed(src, isBound)
    ensures spec.Ok? ==> spec.value == Read(src, DTypeOf(src[1]).value) && spec.value.Valid()
    ensures spec.Err? ==> spec.error == BadHeader
  {
    if |src| < BLOCK_HEADER_LEN || src[0] != VERSION {
      return Err(BadHeader);
    }
    var dtype := DTypeOf(src[1]);
    if dtype.None? {
      return Err(BadHeader);
    }
    var ndim := src[2];
    if ndim == 0 || ndim > MAX_BLOCK_DIMS || !isBound(src[4..12]) {
      return Err(BadHeader);
    }
    ghost var whole := Read(src, dtype.value);
    var dims := [0, 0, 0];
    DimsFit(src);
    for i := 0 to MAX_BLOCK_DIMS
      invariant |dims| == MAX_BLOCK_DIMS
      invariant forall k :: 0 <= k < i ==> dims[k] == whole.dims[k] && whole.AxisFolded(k)
    {
      assert whole.dims[i] == DimAt(src, i);
      dims := dims[i := DimAt(src, i)];
      var wantUsed := i < ndim;
      if wantUsed != (dims[i] > 1) && !(wantUsed && ndim == 1 && dims[i] == 1) {
        assert !whole.AxisFolded(i);
        return Err(BadHeader);
      }
    }
    assert dims == whole.dims;
    spec := Ok(BlockSpec(dtype.value, dims, ndim, src[4..12]));
  }

  lemma DimsFit(src: seq<byte>)
    requires |src| >= BLOCK_HEADER_LEN
    ensures forall i :: 0 <= i < MAX_BLOCK_DIMS ==> DimAt(src, i) < 0x1_0000_0000
  {
    forall i | 0 <= i < MAX_BLOCK_DIMS ensures DimAt(src, i) < 0x1_0000_0000 {
      BytesOfNumber(src[12 + i * 4..12 + i * 4 + 4]);
      Power4();
    }
  }

  lemma Power4()
    ensures Power256(4) == 0x1_0000_0000
  {
    assert Power256(1) == 256 && Power256(2) == 65536 && Power256(3) == 0x100_0000;
  }

  lemma DTypeCodes(dtype: DType)
    ensures DTypeOf(dtype.Code()) == Some(dtype)
  {
  }

  lemma HeaderParts(spec: BlockSpec, rest: seq<byte>)
    requires spec.Valid()
    ensures var src := Header(spec) + rest;
      && |Header(spec)| == BLOCK_HEADER_LEN
      && src[0] == VERSION && src[1] == spec.dtype.Code() && src[2] == spec.ndim && src[3] == 0
      && src[4..12] == spec.eps
      && src[12..16] == LeBytes(spec.dims[0], 4) && src[16..20] == LeBytes(spec.dims[1], 4)
      && src[20..24] == LeBytes(spec.dims[2], 4)
  {
    hide LeBytes, DimBytes;
    var d := spec.dims;
    DimBytesThree(d);
    PartsAt([VERSION, spec.dtype.Code(), spec.ndim, 0], spec.eps, LeBytes(d[0], 4), LeBytes(d[1], 4),
        LeBytes(d[2], 4), rest);
  }

  lemma PartsAt(h: seq<byte>, eps: seq<byte>, a: seq<byte>, b: seq<byte>, c: seq<byte>, rest: seq<byte>)
    requires |h| == |a| == |b| == |c| == 4 && |eps| == 8
    ensures var src := h + eps + (a + b + c) + rest;
      && |src| >= 24 && src[0] == h[0] && src[1] == h[1] && src[2] == h[2] && src[3] == h[3] && src[4..12] == eps
      && src[12..16] == a && src[16..20] == b && src[20..24] == c
  {
  }

  lemma DimBytesThree(d: seq<nat>)
    requires |d| == 3
    ensures DimBytes(d) == LeBytes(d[0], 4) + LeBytes(d[1], 4) + LeBytes(d[2], 4)
  {
    assert d[..2][..1] == d[..1] && d[..1][..0] == [];
    assert DimBytes(d[..1]) == LeBytes(d[0], 4);
  }

  /** A described block's header parses back to the block, whatever follows it. */
  lemma DecodesHeader(spec: BlockSpec, rest: seq<byte>, isBound: seq<byte> -> bool)
    requires spec.Valid() && spec.Folded() && isBound(spec.eps)
    ensures WellFormed(Header(spec) + rest, isBound)
    ensures Read(Header(spec) + rest, spec.dtype) == spec
  {
    hide Header, LeBytes, LeNumber;
    var src := Header(spec) + rest;
    HeaderParts(spec, rest);
    DTypeCodes(spec.dtype);
    Power4();
    NumberOfBytes(spec.dims[0], 4);
    NumberOfBytes(spec.dims[1], 4);
    NumberOfBytes(spec.dims[2], 4);
    assert Read(src, spec.dtype).dims == spec.dims;
  }

  /** A header that parses is the one printed for what it parses to, but for the
      one byte nothing reads. */
  lemma PrintsWhatParses(src: seq<byte>, isBound: seq<byte> -> bool)
    requires WellFormed(src, isBound)
    ensures var spec := Read(src, DTypeOf(src[1]).value);
      spec.Valid() && Header(spec) == src[3 := 0][..BLOCK_HEADER_LEN]
  {
    hide LeBytes, LeNumber;
    var spec := Read(src, DTypeOf(src[1]).value);
    DimsFit(src);
    BytesOfNumber(src[12..16]);
    BytesOfNumber(src[16..20]);
    BytesOfNumber(src[20..24]);
    DimBytesThree(spec.dims);
    CodeOfDType(src[1]);
    var now := src[3 := 0];
    assert now[..BLOCK_HEADER_LEN] == now[..4] + now[4..12] + (now[12..16] + now[16..20] + now[20..24]);
    assert now[..4] == [VERSION, src[1], src[2], 0] && now[4..12] == src[4..12];
    assert now[12..16] == src[12..16] && now[16..20] == src[16..20] && now[20..24] == src[20..24];
  }

  lemma CodeOfDType(code: byte)
    requires DTypeOf(code).Some?
    ensures DTypeOf(code).value.Code() == code
  {
  }
}
