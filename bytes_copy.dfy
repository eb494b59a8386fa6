/** `Array.Copy` into a byte array, from another array or from a message. */
module ArrayCopy {
  import opened Bytes

  /**
   * Copies `n` bytes of `src` from `srcIndex` into `dst` at `dstIndex`;
   * the rest of `dst` is unchanged.
   */
  method Copy(src: array<byte>, srcIndex: int, dst: array<byte>, dstIndex: int, n: int)
    requires src != dst
    requires 0 <= srcIndex && 0 <= dstIndex && 0 <= n
    requires srcIndex + n <= src.Length && dstIndex + n <= dst.Length
    modifies dst
    ensures dst[..] == old(dst[..dstIndex]) + src[srcIndex..srcIndex + n] + old(dst[dstIndex + n..])
  {
    var i := 0;
    while i < n
      invariant 0 <= i <= n
      invariant forall j :: 0 <= j < dstIndex ==> dst[j] == old(dst[j])
      invariant forall j :: dstIndex <= j < dstIndex + i ==> dst[j] == src[j - dstIndex + srcIndex]
      invariant forall j :: dstIndex + i <= j < dst.Length ==> dst[j] == old(dst[j])
    {
      dst[dstIndex + i] := src[srcIndex + i];
      i := i + 1;
    }
    ghost var expected := old(dst[..dstIndex]) + src[srcIndex..srcIndex + n] + old(dst[dstIndex + n..]);
    assert |expected| == dst.Length;
    forall j | 0 <= j < dst.Length ensures dst[j] == expected[j] {
      if j < dstIndex {
      } else if j < dstIndex + n {
      } else {
      }
    }
    assert dst[..] == expected;
  }

  /**
   * `Array.Copy(src, 0, dst, dstIndex, src.Length)` for a source that is a
   * received message rather than an array of the model.
   */
  method CopySeq(src: seq<byte>, dst: array<byte>, dstIndex: int)
    requires 0 <= dstIndex && dstIndex + |src| <= dst.Length
    modifies dst
    ensures dst[..] == old(dst[..dstIndex]) + src + old(dst[dstIndex + |src|..])
  {
    var i := 0;
    while i < |src|
      invariant 0 <= i <= |src|
      invariant forall j :: 0 <= j < dstIndex ==> dst[j] == old(dst[j])
      invariant forall j :: dstIndex <= j < dstIndex + i ==> dst[j] == src[j - dstIndex]
      invariant forall j :: dstIndex + i <= j < dst.Length ==> dst[j] == old(dst[j])
    {
      dst[dstIndex + i] := src[i];
      i := i + 1;
    }
    ghost var expected := old(dst[..dstIndex]) + src + old(dst[dstIndex + |src|..]);
    assert |expected| == dst.Length;
    forall j | 0 <= j < dst.Length ensures dst[j] == expected[j] {
      if j < dstIndex {
      } else if j < dstIndex + |src| {
      } else {
      }
    }
    assert dst[..] == expected;
  }
}
