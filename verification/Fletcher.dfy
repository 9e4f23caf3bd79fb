/** HDF5's Fletcher-32 checksum. */
module Fletcher {
  import opened Words
  import opened LittleEndian

  type u32 = x: int | 0 <= x < 0x1_0000_0000
  const MOD: int := 65535

  /** The big-endian 16-bit words of some bytes, an odd last byte padded. */
  function Word(data: seq<byte>, k: nat): (w: nat)
    requires 2 * k < |data|
    ensures w <= MOD
  {
    var high: nat, low: nat := data[2 * k], if 2 * k + 1 < |data| then data[2 * k + 1] else 0;
    high * 256 + low
  }

  function WordCount(data: seq<byte>): nat {
    (|data| + 1) / 2
  }

  /** The sum of the first `n` words. */
  ghost function WordSum(data: seq<byte>, n: nat): nat
    requires n <= WordCount(data)
  {
    if n == 0 then 0 else WordSum(data, n - 1) + Word(data, n - 1)
  }

  /** The sum of the first `n` of those sums. */
  ghost function PrefixSum(data: seq<byte>, n: nat): nat
    requires n <= WordCount(data)
  {
    if n == 0 then 0 else PrefixSum(data, n - 1) + WordSum(data, n)
  }

  /** A sum as its checksum half: its value modulo 65535, with 65535 standing for
      a sum that is a multiple of it but not zero. */
  function Half(sum: nat): (h: nat)
    ensures h <= MOD
  {
    if sum == 0 then 0 else (sum - 1) % MOD + 1
  }

  /** Adding the high half of a word into the low one. */
  function Folded(x: nat): nat {
    x % 65536 + x / 65536
  }

  lemma FoldKeeps(x: nat)
    ensures Half(Folded(x)) == Half(x) && (Folded(x) == 0 <==> x == 0)
  {
    var q := x / 65536;
    assert x == q * 65536 + x % 65536;
    if x > 0 {
      assert x - 1 == (Folded(x) - 1) + q * MOD;
      ModShift(Folded(x) - 1, q);
    }
  }

  lemma ModShift(r: nat, q: nat)
    ensures (r + q * MOD) % MOD == r % MOD
  {
  }

  lemma HalfAdds(x: nat, y: nat, w: nat)
    requires Half(x) == Half(y) && (x == 0 <==> y == 0)
    ensures Half(x + w) == Half(y + w) && (x + w == 0 <==> y + w == 0)
  {
    if x > 0 {
      assert (x - 1) % MOD == (y - 1) % MOD;
      ModAdd(x - 1, y - 1, w);
    }
  }

  lemma ModAdd(x: nat, y: nat, w: nat)
    requires x % MOD == y % MOD
    ensures (x + w) % MOD == (y + w) % MOD
  {
  }

  lemma HalfSmall(x: nat)
    requires x <= MOD
    ensures Half(x) == x
  {
  }

  ghost predicate SameHalf(x: nat, y: nat) {
    Half(x) == Half(y) && (x == 0 <==> y == 0)
  }

  lemma SameFolded(x: nat, y: nat)
    requires SameHalf(x, y)
    ensures SameHalf(Folded(x), y)
  {
    FoldKeeps(x);
  }

  lemma SameAdded(x: nat, y: nat, w: nat)
    requires SameHalf(x, y)
    ensures SameHalf(x + w, y + w)
  {
    HalfAdds(x, y, w);
  }

  /** Adding two sums that stand for the same halves. */
  lemma SameSummed(x: nat, y: nat, a: nat, s: nat)
    requires SameHalf(x, y) && SameHalf(a, s)
    ensures SameHalf(x + a, y + s)
  {
    SameAdded(x, y, a);
    SameAdded(a, s, y);
  }

  /** The most the second sum grows by over `i` words, from a folded first sum. */
  function Growth(i: nat): nat {
    if i == 0 then 0 else Growth(i - 1) + 65896 + i * MOD
  }

  lemma {:induction false} GrowthIs(i: nat)
    ensures 2 * Growth(i) == i * (2 * 65896 + MOD) + i * i * MOD
    decreases i
  {
    if i > 0 {
      GrowthIs(i - 1);
      assert i * i == (i - 1) * (i - 1) + 2 * i - 1;
    }
  }

  /** 360 words fit, even from the sums one folding leaves. */
  lemma GrowthFits(i: nat)
    requires i <= 360
    ensures 131070 + Growth(i) < 0x1_0000_0000
  {
    GrowthIs(i);
    Squares(i, 360);
  }

  lemma Squares(i: nat, n: nat)
    requires i <= n
    ensures i * i <= n * n
  {
  }

  /** One block of words, added without folding. */
  method AddBlock(data: seq<byte>, first: nat, end: nat, a0: u32, b0: u32) returns (a: u32, b: u32)
    requires first <= end <= first + 360 && end <= WordCount(data)
    requires a0 <= 65896 && b0 <= 131070
    requires SameHalf(a0, WordSum(data, first)) && SameHalf(b0, PrefixSum(data, first))
    ensures SameHalf(a, WordSum(data, end)) && SameHalf(b, PrefixSum(data, end))
    ensures a <= 65896 + 360 * MOD
  {
    hide SameHalf, Growth, WordSum, PrefixSum;
    a, b := a0, b0;
    NoGrowth();
    for k := first to end
      invariant a <= 65896 + (k - first) * MOD && b <= 131070 + Growth(k - first)
      invariant SameHalf(a, WordSum(data, k)) && SameHalf(b, PrefixSum(data, k))
    {
      NextSums(data, k, k - first);
      GrowthFits(k + 1 - first);
      SameAdded(a, WordSum(data, k), Word(data, k));
      SameSummed(b, PrefixSum(data, k), a + Word(data, k), WordSum(data, k + 1));
      a := a + Word(data, k);
      b := b + a;
    }
  }

  lemma NoGrowth()
    ensures Growth(0) == 0
  {
  }

  lemma NextSums(data: seq<byte>, k: nat, i: nat)
    requires k < WordCount(data)
    ensures WordSum(data, k + 1) == WordSum(data, k) + Word(data, k)
    ensures PrefixSum(data, k + 1) == PrefixSum(data, k) + WordSum(data, k + 1)
    ensures Growth(i + 1) == Growth(i) + 65896 + (i + 1) * MOD
  {
  }

  lemma FoldedSizes(a: u32, b: u32)
    requires a <= 65896 + 360 * MOD
    ensures Folded(a) <= 65896 && Folded(b) <= 131070
  {
  }

  /** Folding once more brings both sums into their sixteen bits. */
  lemma FoldedTwice(a: nat, b: nat)
    requires a <= 65896 && b <= 131070
    ensures Folded(a) <= MOD && Folded(b) <= MOD
  {
  }

  /** The checksum by its definition: the words' sum, and the sum of its prefix
      sums above it. */
  ghost function ChecksumOf(data: seq<byte>): u32 {
    Half(PrefixSum(data, WordCount(data))) * 65536 + Half(WordSum(data, WordCount(data)))
  }

  /** The checksum. Every sum on the way fits a u32, however long the data. */
  method Checksum(data: seq<byte>) returns (sum: u32)
    ensures sum == ChecksumOf(data)
  {
    hide SameHalf, Folded, Half, WordSum, PrefixSum;
    var a: u32, b: u32 := 0, 0;
    var k: nat := 0;
    var count := WordCount(data);
    NoSums(data);
    while k < count
      invariant k <= count
      invariant a <= 65896 && b <= 131070
      invariant SameHalf(a, WordSum(data, k)) && SameHalf(b, PrefixSum(data, k))
    {
      var end := Min(k + 360, count);
      a, b := AddBlock(data, k, end, a, b);
      SameFolded(a, WordSum(data, end));
      SameFolded(b, PrefixSum(data, end));
      FoldedSizes(a, b);
      a, b := Folded(a), Folded(b);
      k := end;
    }
    SameFolded(a, WordSum(data, count));
    SameFolded(b, PrefixSum(data, count));
    FoldedTwice(a, b);
    a, b := Folded(a), Folded(b);
    Halves(a, WordSum(data, count));
    Halves(b, PrefixSum(data, count));
    sum := b * 65536 + a;
  }

  lemma NoSums(data: seq<byte>)
    ensures SameHalf(0, WordSum(data, 0)) && SameHalf(0, PrefixSum(data, 0))
  {
  }

  lemma Halves(x: nat, y: nat)
    requires SameHalf(x, y) && x <= MOD
    ensures x == Half(y)
  {
    HalfSmall(x);
  }

  /** What a byte is worth in its word: the first of two comes first. */
  function Worth(i: nat): nat {
    if i % 2 == 0 then 256 else 1
  }

  /** The first `n` bytes, each as much as it is worth. */
  ghost function ByteSum(data: seq<byte>, n: nat): nat
    requires n <= |data|
  {
    if n == 0 then 0 else ByteSum(data, n - 1) + Worth(n - 1) * data[n - 1]
  }

  /** The same, each byte once for every word from its own on to word `count`. */
  ghost function RepeatedSum(data: seq<byte>, n: nat, count: nat): int
    requires n <= |data|
  {
    if n == 0 then 0 else RepeatedSum(data, n - 1, count) + (count - (n - 1) / 2) * (Worth(n - 1) * data[n - 1])
  }

  lemma {:induction false} OneWordMore(data: seq<byte>, n: nat, count: nat)
    requires n <= |data|
    ensures RepeatedSum(data, n, count + 1) == RepeatedSum(data, n, count) + ByteSum(data, n)
  {
    if n > 0 {
      OneWordMore(data, n - 1, count);
      var x := Worth(n - 1) * data[n - 1];
      assert (count + 1 - (n - 1) / 2) * x == (count - (n - 1) / 2) * x + x;
    }
  }

  /** Byte by byte: the sum the low half stands for counts every byte once, and the
      one the high half stands for once for every word from its own to the last. */
  lemma {:induction false} SumsOfBytes(data: seq<byte>, k: nat)
    requires k <= WordCount(data)
    ensures 2 * WordCount(data) == |data| + |data| % 2
    ensures WordSum(data, k) == ByteSum(data, Min(2 * k, |data|))
    ensures PrefixSum(data, k) == RepeatedSum(data, Min(2 * k, |data|), k)
  {
    hide Word, ByteSum, RepeatedSum, WordCount;
    CountIs(data);
    if k == 0 {
      NoBytes(data);
    } else {
      var n := 2 * (k - 1);
      assert Min(n, |data|) == n;
      SumsOfBytes(data, k - 1);
      WordOfBytes(data, k - 1);
      OneWordMore(data, n, k - 1);
    }
  }

  lemma CountIs(data: seq<byte>)
    ensures 2 * WordCount(data) == |data| + |data| % 2
  {
  }

  lemma NoBytes(data: seq<byte>)
    ensures ByteSum(data, 0) == 0 && RepeatedSum(data, 0, 0) == 0
  {
  }

  lemma WordOfBytes(data: seq<byte>, k: nat)
    requires k < WordCount(data)
    ensures ByteSum(data, Min(2 * k + 2, |data|)) == ByteSum(data, 2 * k) + Word(data, k)
    ensures RepeatedSum(data, Min(2 * k + 2, |data|), k + 1) == RepeatedSum(data, 2 * k, k + 1) + Word(data, k)
  {
    assert (2 * k + 1) / 2 == k && 2 * k % 2 == 0 && (2 * k + 1) % 2 == 1;
    if 2 * k + 1 < |data| {
      assert ByteSum(data, 2 * k + 2) == ByteSum(data, 2 * k + 1) + 1 * data[2 * k + 1];
      assert RepeatedSum(data, 2 * k + 2, k + 1) == RepeatedSum(data, 2 * k + 1, k + 1) + 1 * (1 * data[2 * k + 1]);
    }
  }

  /** A checksum half is congruent to the plain sum, and 0 only for it. */
  lemma HalfIsCongruent(sum: nat)
    ensures Half(sum) % MOD == sum % MOD && (Half(sum) == 0 <==> sum == 0)
  {
    if sum > 0 {
      ModAdd((sum - 1) % MOD, sum - 1, 1);
    }
  }

  /** The sum with the bytes of each half swapped, as old writers left it. */
  function Swapped(sum: u32): u32 {
    var low, high := sum % 65536, sum / 65536;
    (high % 256 * 256 + high / 256) * 65536 + (low % 256 * 256 + low / 256)
  }

  /** Its four bytes are those of the sum, the two of each half changed over. */
  lemma SwapsBytes(sum: u32)
    ensures var b, s := LeBytes(sum, 4), LeBytes(Swapped(sum), 4);
      s == [b[1], b[0], b[3], b[2]]
  {
    hide Swapped, LeBytes;
    var low, high := sum % 65536, sum / 65536;
    FourBytes(sum);
    FourBytes(Swapped(sum));
    SwappedHalf(low);
    SwappedHalf(high);
    TwoHalves(sum);
  }

  lemma TwoHalves(sum: u32)
    ensures var low, high := sum % 65536, sum / 65536;
      && Swapped(sum) % 65536 == low % 256 * 256 + low / 256
      && Swapped(sum) / 65536 == high % 256 * 256 + high / 256
  {
  }

  lemma SwappedHalf(x: nat)
    requires x < 65536
    ensures var y := x % 256 * 256 + x / 256;
      y % 256 == x / 256 && y / 256 == x % 256
  {
  }

  lemma FourBytes(n: u32)
    ensures LeBytes(n, 4) == [n % 65536 % 256, n % 65536 / 256, n / 65536 % 256, n / 65536 / 256]
  {
    assert LeBytes(n, 4) == [n % 256, n / 256 % 256, n / 256 / 256 % 256, n / 256 / 256 / 256 % 256] by {
      assert LeBytes(n / 256 / 256 / 256, 1) == [n / 256 / 256 / 256 % 256];
      assert LeBytes(n / 256 / 256, 2) == [n / 256 / 256 % 256, n / 256 / 256 / 256 % 256];
    }
    assert n / 256 / 256 == n / 65536;
    assert n / 256 / 256 / 256 < 256;
  }

  /** The last four bytes are the checksum of the others, in either byte order. */
  ghost predicate Checks(bytes: seq<byte>) {
    |bytes| >= 4 &&
    var stored, sum := LeNumber(bytes[|bytes| - 4..]), ChecksumOf(bytes[..|bytes| - 4]);
    stored == sum || stored == Swapped(sum)
  }

  /** The data in front of its checksum, if `Checks` holds of it. */
  method Strip(bytes: seq<byte>) returns (body: Option<seq<byte>>)
    ensures body.Some? <==> Checks(bytes)
    ensures body.Some? ==> body.value == bytes[..|bytes| - 4]
  {
    if |bytes| < 4 {
      return None;
    }
    var at := |bytes| - 4;
    var stored := LeNumber(bytes[at..]);
    var sum := Checksum(bytes[..at]);
    if stored != sum && stored != Swapped(sum) {
      return None;
    }
    body := Some(bytes[..at]);
  }

  /** What a writer appends is accepted and taken off again, in either byte order. */
  lemma StripsWhatIsWritten(body: seq<byte>, swapped: bool)
    ensures var sum := ChecksumOf(body);
      var bytes := body + LeBytes(if swapped then Swapped(sum) else sum, 4);
      Checks(bytes) && bytes[..|bytes| - 4] == body
  {
    var sum := ChecksumOf(body);
    var written := if swapped then Swapped(sum) else sum;
    Power4();
    NumberOfBytes(written, 4);
    var bytes := body + LeBytes(written, 4);
    assert bytes[|bytes| - 4..] == LeBytes(written, 4) && bytes[..|bytes| - 4] == body;
  }

  lemma Power4()
    ensures Power256(4) == 0x1_0000_0000
  {
    assert Power256(1) == 256 && Power256(2) == 65536 && Power256(3) == 0x100_0000;
  }
}
