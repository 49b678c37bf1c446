/**
 * `twk_reallocate_indices` grows the two `size_t` index arrays with
 * `memcpy(tmp, old, count)`: it copies `count` BYTES, not `count` entries. This
 * module models that copy entry by entry, with 8-byte `size_t`, and states what
 * survives. The string arena itself (`CharBuffers.CharBuffer.ReallocateIndices`)
 * uses the evidently intended copy of `count * sizeof(size_t)` bytes.
 */
module IndexCopy {
  import opened Wrappers

  const SizeOfSizeT: nat := 8

  /**
   * Entry `k` of a fresh `size_t[newLength]` after `memcpy(dst, src, bytes)`:
   * `src[k]` when all of its bytes lie in the copied range, otherwise `None`,
   * an indeterminate value (the allocation is not initialised, and an entry the
   * copy ends inside mixes copied and uninitialised bytes).
   */
  function MemcpyEntries(src: seq<nat>, bytes: nat, newLength: nat): (r: seq<Option<nat>>)
    requires |src| <= newLength
    ensures |r| == newLength
  {
    seq(newLength, k requires 0 <= k < newLength =>
      if k < |src| && SizeOfSizeT * (k + 1) <= bytes then Some(src[k]) else None)
  }

  /** An entry survives the copy exactly when its eight bytes are copied. */
  lemma MemcpyKeepsWholeEntries(src: seq<nat>, bytes: nat, newLength: nat, k: nat)
    requires |src| <= newLength && k < |src|
    ensures MemcpyEntries(src, bytes, newLength)[k] == Some(src[k]) <==> SizeOfSizeT * (k + 1) <= bytes
  {
  }

  /**
   * The evidently intended copy, `memcpy(tmp, old, count * sizeof(size_t))`,
   * keeps all of the first `count` entries.
   */
  lemma ElementBytesKeepEntries(src: seq<nat>, count: nat, newLength: nat)
    requires count <= |src| <= newLength
    ensures forall k :: 0 <= k < count ==> MemcpyEntries(src, SizeOfSizeT * count, newLength)[k] == Some(src[k])
  {
    forall k | 0 <= k < count ensures MemcpyEntries(src, SizeOfSizeT * count, newLength)[k] == Some(src[k]) {
      assert SizeOfSizeT * (k + 1) <= SizeOfSizeT * count;
    }
  }

  /**
   * The copy as written, of `count` bytes, keeps only the first `count / 8`
   * entries: once two or more strings are indexed, the last string's entry is
   * lost.
   */
  lemma ByteCountLosesEntries(src: seq<nat>, count: nat, newLength: nat)
    requires count <= |src| <= newLength
    ensures forall k :: 0 <= k < count ==>
      (MemcpyEntries(src, count, newLength)[k].Some? <==> k < count / SizeOfSizeT)
    ensures 2 <= count ==> MemcpyEntries(src, count, newLength)[count - 1] == None
  {
    forall k | 0 <= k < count
      ensures MemcpyEntries(src, count, newLength)[k].Some? <==> k < count / SizeOfSizeT
    {
      assert SizeOfSizeT * (k + 1) <= count <==> k < count / SizeOfSizeT;
    }
  }

  /**
   * The first index reallocation of `twk_add_string` comes with the 16th string
   * (`count == 15` with 16 slots, growing to 32). As written, only the entry of
   * string 0 survives; with the intended byte count all fifteen do.
   */
  lemma FirstReallocation(src: seq<nat>)
    requires |src| == 15
    ensures MemcpyEntries(src, 15, 32)[0] == Some(src[0])
    ensures forall k :: 1 <= k < 15 ==> MemcpyEntries(src, 15, 32)[k] == None
    ensures forall k :: 0 <= k < 15 ==> MemcpyEntries(src, SizeOfSizeT * 15, 32)[k] == Some(src[k])
  {
    ByteCountLosesEntries(src, 15, 32);
    ElementBytesKeepEntries(src, 15, 32);
  }
}
