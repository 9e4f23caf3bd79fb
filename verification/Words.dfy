/** Machine words, and the two result types every module shares. */
module Words {

  const U64: int := 0x1_0000_0000_0000_0000
  const I64_MIN: int := -0x8000_0000_0000_0000
  const I64_MAX: int := 0x7fff_ffff_ffff_ffff

  type i64 = x: int | I64_MIN <= x <= I64_MAX witness 0
  type byte = x: int | 0 <= x < 256

  datatype Option<+T> = None | Some(value: T)
  datatype Result<+T, +E> = Ok(value: T) | Err(error: E)

  /** What `wrapping_add` and friends leave in a u64. */
  function Wrap(x: int): (w: nat)
    ensures w < U64
    ensures 0 <= x < U64 ==> w == x
  {
    x % U64
  }

  function SaturatingAdd(a: int, b: int): int {
    if a + b < I64_MIN then I64_MIN else if a + b > I64_MAX then I64_MAX else a + b
  }

  function Abs(x: int): nat { if x < 0 then -x else x }
  function Min(a: nat, b: nat): nat { if a <= b then a else b }
  function Max(a: nat, b: nat): nat { if a >= b then a else b }

  lemma WrapAdd(a: int, b: int)
    ensures Wrap(Wrap(a) + b) == Wrap(a + b)
  {
  }

  lemma WrapTimes(a: int, b: int)
    ensures Wrap(Wrap(a) * Wrap(b)) == Wrap(a * b)
  {
    var p, q := a / U64, b / U64;
    assert a == p * U64 + Wrap(a) && b == q * U64 + Wrap(b);
    WrapProduct(p, Wrap(a), q, Wrap(b));
  }

  lemma WrapProduct(p: int, r: int, q: int, s: int)
    ensures Wrap((p * U64 + r) * (q * U64 + s)) == Wrap(r * s)
  {
    var k := p * q * U64 + p * s + r * q;
    assert (p * U64 + r) * (q * U64 + s) == k * U64 + r * s;
    WrapShift(r * s, k);
  }

  lemma WrapShift(a: int, k: int)
    ensures Wrap(k * U64 + a) == Wrap(a)
  {
  }

  /** Each word of a list, wrapped. */
  function WrappedAll(words: seq<nat>): (wrapped: seq<nat>)
    ensures |wrapped| == |words|
  {
    seq(|words|, k requires 0 <= k < |words| => Wrap(words[k]))
  }

  lemma WrapTwice(a: int)
    ensures Wrap(Wrap(a)) == Wrap(a)
  {
  }

  lemma WrapZero()
    ensures Wrap(0) == 0
  {
  }

  /** Multiplying by a step reinterpreted as unsigned is multiplying by the step. */
  lemma WrapMul(k: nat, step: i64)
    ensures Wrap(k * Wrap(step)) == Wrap(k * step)
  {
    if step < 0 {
      assert Wrap(step) == step + U64;
      assert k * (step + U64) == k * step + k * U64;
      WrapMultiple(k * step, k);
    }
  }

  lemma WrapMultiple(a: int, k: nat)
    ensures Wrap(a + k * U64) == Wrap(a)
  {
  }

  /** A slice of a slice is a slice. */
  lemma SliceOfSlice<T>(s: seq<T>, lo: nat, hi: nat, from: nat, n: nat)
    requires lo <= hi <= |s| && lo + from + n <= hi
    ensures s[lo..hi][from..from + n] == s[lo + from..lo + from + n]
  {
    var a, b := s[lo..hi][from..from + n], s[lo + from..lo + from + n];
    assert |a| == |b| && forall k :: 0 <= k < n ==> a[k] == b[k];
  }
}
