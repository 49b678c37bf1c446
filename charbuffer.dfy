/**
 * `InternalCharBuffer` of `ds_tweakable.h`: one growing array of characters
 * holding every interned string back to back, and two parallel index arrays
 * giving the start and the length of each. A C address of 0 is a `null` array.
 */
module CharBuffers {
  import opened Chars
  import opened Arena

  /** The number of index slots the buffer starts with and grows by. */
  const IndexBlock: nat := 16

  /** A `new T[newLength]` followed by a `memcpy` of the first `n` elements of `src`. */
  method CopyGrown<T(0)>(src: array<T>, n: nat, newLength: nat) returns (dst: array<T>)
    requires n <= src.Length && n <= newLength
    ensures fresh(dst) && dst.Length == newLength
    ensures dst[..n] == src[..n]
  {
    dst := new T[newLength];
    var i := 0;
    while i < n
      invariant 0 <= i <= n
      invariant dst[..i] == src[..i]
    {
      dst[i] := src[i];
      i := i + 1;
    }
  }

  class CharBuffer {
    var data: array?<char>
    var capacity: nat
    var size: nat
    var count: nat
    var indices: array?<nat>
    var sizes: array?<nat>
    var indexCapacity: nat
    /** The strings appended so far, in order. */
    ghost var strings: seq<seq<char>>

    /**
     * The buffer holds `strings` back to back at the front of `data`, string `k`
     * at `indices[k]` with length `sizes[k]`, followed by a NUL; there is always
     * room for one more index and for the terminator.
     */
    ghost predicate Valid()
      reads this, data, indices, sizes
    {
      && (data == null ==>
            && capacity == 0 && size == 0 && count == 0 && strings == []
            && indices == null && sizes == null && indexCapacity == 0)
      && (data != null ==>
            && data.Length == capacity && size < capacity
            && indices != null && sizes != null && indices != sizes
            && indices.Length == indexCapacity && sizes.Length == indexCapacity
            && count < indexCapacity
            && count == |strings|
            && size == |Flatten(strings)|
            && data[..size] == Flatten(strings)
            && data[size] == '\0'
            && indices[..count] == Offsets(strings)
            && sizes[..count] == Lengths(strings))
    }

    /** The zeroed buffer of `twk_init`: no storage, no strings. */
    constructor ()
      ensures Valid() && strings == []
      ensures data == null && indices == null && sizes == null
      ensures capacity == 0 && size == 0 && count == 0 && indexCapacity == 0
    {
      data := null;
      capacity := 0;
      count := 0;
      indices := null;
      sizes := null;
      size := 0;
      indexCapacity := 0;
      strings := [];
    }

    /**
     * Reading `sizes[k]` characters at `indices[k]` gives back string `k`, and
     * they lie within the used part of the buffer.
     */
    lemma ReadBack(k: nat)
      requires Valid() && k < count
      ensures data != null && indices != null && sizes != null
      ensures k < indices.Length && k < sizes.Length
      ensures indices[k] + sizes[k] <= size
      ensures data[indices[k]..indices[k] + sizes[k]] == strings[k]
    {
      assert indices[k] == indices[..count][k] && sizes[k] == sizes[..count][k];
      OffsetsAt(strings, k);
      StringAt(strings, k);
      var from, to := indices[k], indices[k] + sizes[k];
      assert to <= size;
      forall j | from <= j < to ensures data[j] == strings[k][j - from] {
        assert data[j] == data[..size][j];
        assert Flatten(strings)[from..to][j - from] == Flatten(strings)[j];
      }
    }

    /**
     * The `strncpy` of `twk_save` out of the arena: the `sizes[k]` characters at
     * `indices[k]`, which are string `k`.
     */
    function Get(k: nat): (s: seq<char>)
      requires Valid() && k < count
      reads this, data, indices, sizes
      ensures s == strings[k]
    {
      ReadBack(k);
      data[indices[k]..indices[k] + sizes[k]]
    }

    /**
     * `twk_realloc_char_buffer`: the first call allocates `additional` characters and
     * 16 index slots; later calls grow the buffer by `additional`, copying the whole
     * old capacity.
     */
    method Realloc(additional: nat)
      requires data != null ==> data.Length == capacity
      modifies this`data, this`capacity, this`indices, this`sizes, this`indexCapacity
      ensures fresh(data) && data.Length == capacity
      ensures old(data) == null ==>
        && capacity == additional
        && fresh(indices) && fresh(sizes) && indices != sizes
        && indices.Length == IndexBlock && sizes.Length == IndexBlock && indexCapacity == IndexBlock
      ensures old(data) != null ==>
        && capacity == old(capacity) + additional
        && data[..old(capacity)] == old(data[..])
        && indices == old(indices) && sizes == old(sizes) && indexCapacity == old(indexCapacity)
    {
      if data == null {
        data := new char[additional];
        capacity := additional;
        indices := new nat[IndexBlock];
        sizes := new nat[IndexBlock];
        indexCapacity := IndexBlock;
      } else {
        var tmp := CopyGrown(data, capacity, capacity + additional);
        assert tmp[..capacity] == old(data[..]);
        capacity := capacity + additional;
        data := tmp;
      }
    }

    /**
     * `twk_reallocate_indices` as evidently intended: both index arrays grow by
     * `additional` slots and keep their first `count` entries.
     */
    method ReallocateIndices(additional: nat)
      requires indices != null && sizes != null
      requires indices.Length == indexCapacity && sizes.Length == indexCapacity
      requires count <= indexCapacity
      modifies this`indices, this`sizes, this`indexCapacity
      ensures fresh(indices) && fresh(sizes) && indices != sizes
      ensures indexCapacity == old(indexCapacity) + additional
      ensures indices.Length == indexCapacity && sizes.Length == indexCapacity
      ensures indices[..count] == old(indices[..count]) && sizes[..count] == old(sizes[..count])
    {
      var tmpi := CopyGrown(indices, count, indexCapacity + additional);
      indices := tmpi;
      var tmps := CopyGrown(sizes, count, indexCapacity + additional);
      sizes := tmps;
      indexCapacity := indexCapacity + additional;
    }

    /** The `strncpy` of `twk_add_string`: `txt` is written at `at`, nothing else changes. */
    method CopyInto(txt: seq<char>, at: nat)
      requires data != null && at + |txt| <= data.Length
      modifies data
      ensures data[..at] == old(data[..at])
      ensures data[at..at + |txt|] == txt
      ensures data[at + |txt|..] == old(data[at + |txt|..])
    {
      var j := 0;
      while j < |txt|
        invariant 0 <= j <= |txt|
        invariant data[..at] == old(data[..at])
        invariant data[at..at + j] == txt[..j]
        invariant data[at + |txt|..] == old(data[at + |txt|..])
      {
        data[at + j] := txt[j];
        j := j + 1;
      }
    }

    /**
     * `twk_add_string`: appends `txt` (no deduplication) and returns its index,
     * the previous `count`. The string lands at the old `size`, `size` grows by
     * its length and `count` by one, earlier strings keep their bytes. The C code
     * writes the terminator past a zero-capacity buffer when the very first
     * string is empty, so the model requires that it is not.
     */
    method AddString(txt: seq<char>) returns (ret: nat)
      requires Valid() && NulFree(txt)
      requires data != null || |txt| > 0
      modifies this, data, indices, sizes
      ensures Valid() && data != null && indices != null && sizes != null
      ensures ret == old(count) && count == old(count) + 1 && size == old(size) + |txt|
      ensures strings == old(strings) + [txt]
      ensures indices[ret] == old(size) && sizes[ret] == |txt|
      ensures data[indices[ret]..indices[ret] + sizes[ret]] == txt
      ensures old(data) != null ==> data[..old(size)] == old(data[..size])
      ensures capacity == if |txt| + old(size) >= old(capacity) then old(capacity) + 2 * |txt| else old(capacity)
      ensures data == old(data) || fresh(data)
      ensures indices == old(indices) || fresh(indices)
      ensures sizes == old(sizes) || fresh(sizes)
    {
      Reserve(|txt|);
      ret := Place(txt);
    }

    /** The two reallocation checks of `twk_add_string`, for a string of length `l`. */
    method Reserve(l: nat)
      requires Valid() && (data != null || l > 0)
      modifies this`data, this`capacity, this`indices, this`sizes, this`indexCapacity
      ensures Prepared(l)
      ensures old(data) != null ==> data[..size] == old(data[..size])
      ensures capacity == if l + size >= old(capacity) then old(capacity) + 2 * l else old(capacity)
      ensures data == old(data) || fresh(data)
      ensures indices == old(indices) || fresh(indices)
      ensures sizes == old(sizes) || fresh(sizes)
    {
      if l + size >= capacity {
        Realloc(l * 2);
      }
      assert old(data) != null ==> data[..size] == old(data[..size]);
      if count + 1 >= indexCapacity {
        ReallocateIndices(IndexBlock);
      }
    }

    /** Ready for a string of length `l`: the buffer invariant with room for `l` characters, a NUL and an index. */
    ghost predicate Prepared(l: nat)
      reads this, data, indices, sizes
    {
      && data != null && indices != null && sizes != null && indices != sizes
      && data.Length == capacity && size + l < capacity
      && indices.Length == indexCapacity && sizes.Length == indexCapacity
      && count + 1 < indexCapacity
      && count == |strings|
      && size == |Flatten(strings)|
      && data[..size] == Flatten(strings)
      && indices[..count] == Offsets(strings)
      && sizes[..count] == Lengths(strings)
    }

    /** The writes of `twk_add_string` once the buffers are large enough. */
    method Place(txt: seq<char>) returns (ret: nat)
      requires Prepared(|txt|)
      modifies this`count, this`size, this`strings, data, indices, sizes
      ensures Valid() && data != null && indices != null && sizes != null
      ensures ret == old(count) && count == old(count) + 1 && size == old(size) + |txt|
      ensures strings == old(strings) + [txt]
      ensures indices[ret] == old(size) && sizes[ret] == |txt|
      ensures data[old(size)..size] == txt && data[..old(size)] == old(data[..size])
    {
      WriteIndex(|txt|);
      WriteText(txt);
      ret := count;
      Commit(txt);
    }

    /** The new string is in place behind the old ones: count it. */
    method Commit(txt: seq<char>)
      requires data != null && indices != null && sizes != null && indices != sizes
      requires data.Length == capacity && size + |txt| < capacity
      requires indices.Length == indexCapacity && sizes.Length == indexCapacity
      requires count + 1 < indexCapacity
      requires count == |strings| && size == |Flatten(strings)|
      requires data[..size + |txt| + 1] == Flatten(strings) + txt + ['\0']
      requires indices[..count + 1] == Offsets(strings) + [size]
      requires sizes[..count + 1] == Lengths(strings) + [|txt|]
      modifies this`count, this`size, this`strings
      ensures Valid()
      ensures count == old(count) + 1 && size == old(size) + |txt| && strings == old(strings) + [txt]
    {
      ghost var d := data[..size + |txt| + 1];
      FlattenAppend(strings, txt);
      OffsetsAppend(strings, txt);
      assert d[..size + |txt|] == Flatten(strings + [txt]) && d[size + |txt|] == '\0';
      count := count + 1;
      size := size + |txt|;
      strings := strings + [txt];
      assert data[..size] == d[..size] && data[size] == d[size];
    }

    /** `indices[count] = size; sizes[count] = l;` */
    method WriteIndex(l: nat)
      requires indices != null && sizes != null && indices != sizes
      requires count < indices.Length && count < sizes.Length
      modifies indices, sizes
      ensures indices[..count + 1] == old(indices[..count]) + [size]
      ensures sizes[..count + 1] == old(sizes[..count]) + [l]
      ensures indices[count] == size && sizes[count] == l
    {
      indices[count] := size;
      sizes[count] := l;
      assert indices[..count + 1] == indices[..count] + [size];
      assert sizes[..count + 1] == sizes[..count] + [l];
    }

    /** The `strncpy` of `txt` at `size` and the terminator after it. */
    method WriteText(txt: seq<char>)
      requires data != null && size + |txt| < data.Length
      modifies data
      ensures data[..size + |txt| + 1] == old(data[..size]) + txt + ['\0']
      ensures data[..size] == old(data[..size]) && data[size..size + |txt|] == txt
    {
      CopyInto(txt, size);
      data[size + |txt|] := '\0';
      assert data[..size + |txt| + 1] == data[..size] + data[size..size + |txt|] + ['\0'];
    }
  }
}
