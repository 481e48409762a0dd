/** Bytes, options and the memory copy that the C++ sources are built on. */
module Bytes {
  type byte = b: int | 0 <= b < 256

  datatype Option<+T> = None | Some(value: T)

  /** The contents of dst after memcpy(dst + dstOffset, src + srcOffset, len). */
  function Spliced(dst: seq<byte>, dstOffset: nat, src: seq<byte>, srcOffset: nat, len: nat): (r: seq<byte>)
    requires dstOffset + len <= |dst|
    requires srcOffset + len <= |src|
    ensures |r| == |dst|
    ensures forall k :: 0 <= k < |dst| ==>
      r[k] == if dstOffset <= k < dstOffset + len then src[srcOffset + (k - dstOffset)] else dst[k]
  {
    dst[..dstOffset] + src[srcOffset..srcOffset + len] + dst[dstOffset + len..]
  }

  /** memcpy into an array; both sides must stay inside their buffers. */
  method MemCpy(dst: array<byte>, dstOffset: nat, src: seq<byte>, srcOffset: nat, len: nat)
    requires dstOffset + len <= dst.Length
    requires srcOffset + len <= |src|
    modifies dst
    ensures dst[..] == Spliced(old(dst[..]), dstOffset, src, srcOffset, len)
  {
    forall k | 0 <= k < len {
      dst[dstOffset + k] := src[srcOffset + k];
    }
  }
}
