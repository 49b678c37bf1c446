/**
 * The abstract contents of the string arena of `ds_tweakable.h`: the strings
 * appended so far, laid out back to back in the char buffer without separators
 * (each terminator is overwritten by the next string).
 */
module Arena {
  /** The strings one after the other, as they lie in the char buffer. */
  function Flatten(strings: seq<seq<char>>): seq<char>
  {
    if strings == [] then [] else Flatten(strings[..|strings| - 1]) + strings[|strings| - 1]
  }

  /** Where string `k` starts in the char buffer. */
  function Offset(strings: seq<seq<char>>, k: nat): nat
    requires k <= |strings|
  {
    |Flatten(strings[..k])|
  }

  /** The start of every string in the char buffer, in order: the contents of `indices`. */
  function Offsets(strings: seq<seq<char>>): (r: seq<nat>)
    ensures |r| == |strings|
  {
    if strings == [] then []
    else Offsets(strings[..|strings| - 1]) + [|Flatten(strings[..|strings| - 1])|]
  }

  /** The length of every string, in order: the contents of `sizes`. */
  function Lengths(strings: seq<seq<char>>): (r: seq<nat>)
    ensures |r| == |strings|
  {
    if strings == [] then [] else Lengths(strings[..|strings| - 1]) + [|strings[|strings| - 1]|]
  }

  /** Appending a string appends its start (the old buffer length) and its length. */
  lemma OffsetsAppend(strings: seq<seq<char>>, s: seq<char>)
    ensures Offsets(strings + [s]) == Offsets(strings) + [|Flatten(strings)|]
    ensures Lengths(strings + [s]) == Lengths(strings) + [|s|]
  {
    assert (strings + [s])[..|strings|] == strings;
  }

  /** Entry `k` of the index arrays is the start and the length of string `k`. */
  lemma {:induction false} OffsetsAt(strings: seq<seq<char>>, k: nat)
    requires k < |strings|
    ensures Offsets(strings)[k] == Offset(strings, k)
    ensures Lengths(strings)[k] == |strings[k]|
    decreases |strings|
  {
    var init := strings[..|strings| - 1];
    if k < |init| {
      OffsetsAt(init, k);
      assert init[..k] == strings[..k];
    }
  }

  lemma FlattenAppend(strings: seq<seq<char>>, s: seq<char>)
    ensures Flatten(strings + [s]) == Flatten(strings) + s
  {
    assert (strings + [s])[..|strings|] == strings;
  }

  /** The buffer for the first `k` strings is a prefix of the whole buffer. */
  lemma {:induction false} FlattenPrefix(strings: seq<seq<char>>, k: nat)
    requires k <= |strings|
    ensures |Flatten(strings[..k])| <= |Flatten(strings)|
    ensures Flatten(strings)[..|Flatten(strings[..k])|] == Flatten(strings[..k])
    decreases |strings|
  {
    if k == |strings| {
      assert strings[..k] == strings;
    } else {
      var init := strings[..|strings| - 1];
      assert init[..k] == strings[..k];
      FlattenPrefix(init, k);
    }
  }

  /**
   * Reading `sizes[k]` characters at `indices[k]` gives back string `k`: what
   * `twk_save` relies on to print a name.
   */
  lemma StringAt(strings: seq<seq<char>>, k: nat)
    requires k < |strings|
    ensures Offset(strings, k) + |strings[k]| <= |Flatten(strings)|
    ensures Flatten(strings)[Offset(strings, k)..Offset(strings, k) + |strings[k]|] == strings[k]
  {
    assert strings[..k + 1][..k] == strings[..k];
    assert Flatten(strings[..k + 1]) == Flatten(strings[..k]) + strings[k];
    FlattenPrefix(strings, k + 1);
  }

  /** The offset of the next string is the offset of the previous one plus its length. */
  lemma OffsetNext(strings: seq<seq<char>>, k: nat)
    requires k < |strings|
    ensures Offset(strings, k + 1) == Offset(strings, k) + |strings[k]|
  {
    assert strings[..k + 1][..k] == strings[..k];
  }
}
