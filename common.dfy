/** The optional value used for C's "not found" and "undefined" outcomes. */
module Wrappers {
  datatype Option<+T> = None | Some(value: T)
}

/** Character helpers shared by the hash, the tokenizer and the registry. */
module Chars {

  /** True iff `s` contains no NUL, so that its C string is all of `s`. */
  predicate NulFree(s: seq<char>)
  {
    forall i :: 0 <= i < |s| ==> s[i] != '\0'
  }

  /** The C string stored in `s`: everything before the first NUL (all of `s` if there is none). */
  function CString(s: seq<char>): (r: seq<char>)
    ensures |r| <= |s| && r == s[..|r|]
    ensures NulFree(r)
    ensures |r| < |s| ==> s[|r|] == '\0'
  {
    if s == [] || s[0] == '\0' then [] else [s[0]] + CString(s[1..])
  }
}
