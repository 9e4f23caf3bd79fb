/** Numbers as little-endian bytes. */
module LittleEndian {
  import opened Words

  function LeNumber(bytes: seq<byte>): nat {
    if bytes == [] then 0 else bytes[0] + 256 * LeNumber(bytes[1..])
  }

  function LeBytes(n: nat, width: nat): (bytes: seq<byte>)
    ensures |bytes| == width
    decreases width
  {
    if width == 0 then [] else [n % 256] + LeBytes(n / 256, width - 1)
  }

  function Power256(width: nat): (p: nat)
    ensures p > 0
  {
    if width == 0 then 1 else 256 * Power256(width - 1)
  }

  lemma {:induction false} NumberOfBytes(n: nat, width: nat)
    requires n < Power256(width)
    ensures LeNumber(LeBytes(n, width)) == n
    decreases width
  {
    if width > 0 {
      assert n == n / 256 * 256 + n % 256;
      NumberOfBytes(n / 256, width - 1);
      assert LeBytes(n, width)[1..] == LeBytes(n / 256, width - 1);
    }
  }

  lemma {:induction false} BytesOfNumber(bytes: seq<byte>)
    ensures LeNumber(bytes) < Power256(|bytes|)
    ensures LeBytes(LeNumber(bytes), |bytes|) == bytes
    decreases |bytes|
  {
    if bytes != [] {
      BytesOfNumber(bytes[1..]);
      var rest := LeNumber(bytes[1..]);
      assert (bytes[0] + 256 * rest) / 256 == rest && (bytes[0] + 256 * rest) % 256 == bytes[0];
      assert bytes == [bytes[0]] + bytes[1..];
    }
  }
}
