/** Copying blocks of bytes into arrays. */
module Memory {
  import opened Bits
  import opened Circular

  /** memcpy of libaudiowire, clone_from_slice of audiowire. */
  method CopyInto(dst: array<byte>, at: nat, src: seq<byte>)
    requires at + |src| <= dst.Length
    modifies dst
    ensures dst[..] == Overlay(old(dst[..]), at, src)
  {
    forall i | 0 <= i < |src| {
      dst[at + i] := src[i];
    }
  }
}
