/** Byte buffers that are handed round and written over. */
module Buffers {
  import opened Words

  class Buffer {
    var bytes: seq<byte>

    constructor (bytes: seq<byte>)
      ensures this.bytes == bytes
    {
      this.bytes := bytes;
    }

    /** Forget what the buffer held, and take in `bytes`. */
    method Refill(bytes: seq<byte>)
      modifies this
      ensures this.bytes == bytes
    {
      this.bytes := [];
      this.bytes := this.bytes + bytes;
    }

    /** Cut the buffer, or lengthen it with zeros. What it held stays in front. */
    method Resize(n: nat)
      modifies this
      ensures |bytes| == n
      ensures forall i :: 0 <= i < n ==> bytes[i] == if i < old(|bytes|) then old(bytes)[i] else 0
    {
      bytes := if n <= |bytes| then bytes[..n] else bytes + seq(n - |bytes|, _ => 0);
    }

    /** Write over the front of the buffer. */
    method Overwrite(front: seq<byte>)
      requires |front| <= |bytes|
      modifies this
      ensures bytes == front + old(bytes)[|front|..]
    {
      bytes := front + bytes[|front|..];
    }

    method Truncate(n: nat)
      requires n <= |bytes|
      modifies this
      ensures bytes == old(bytes)[..n]
    {
      bytes := bytes[..n];
    }
  }

  /** A decode came out as expected: the bytes, in whichever buffer, or the error. */
  ghost predicate Decoded(chunk: Result<Buffer, string>, expected: Result<seq<byte>, string>)
    reads if chunk.Ok? then {chunk.value} else {}
  {
    match expected
    case Err(e) => chunk == Err(e)
    case Ok(bytes) => chunk.Ok? && chunk.value.bytes == bytes
  }
}
