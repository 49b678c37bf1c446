/**
 * FNV-1a, 32-bit, as in section 2 of the IETF draft "The FNV Non-Cryptographic
 * Hash Algorithm" (draft-eastlake-fnv): each byte is xor-ed into the hash, which
 * is then multiplied by the FNV prime modulo 2^32.
 */
module Fnv {
  import opened Chars

  const FnvPrime: bv32 := 0x01000193
  const FnvSeed: bv32 := 0x811C9DC5

  /**
   * `(unsigned char)c`: the byte a character of a C string stands for. Characters
   * stand for bytes, so only those below 256 occur in the C program's strings.
   */
  function Byte(c: char): bv32
  {
    (c as int % 256) as bv32
  }

  /** One byte folded into the hash; bv32 multiplication wraps modulo 2^32. */
  function FoldByte(h: bv32, c: char): bv32
  {
    (Byte(c) ^ h) * FnvPrime
  }

  /** The hash of every character of `s`, starting from `h`, first character first. */
  function Fold(s: seq<char>, h: bv32): bv32
  {
    if s == [] then h else Fold(s[1..], FoldByte(h, s[0]))
  }

  /** `twk_fnv1a(text, seed)`: the hash of the C string held in `s`. */
  function Fnv1a(s: seq<char>, seed: bv32): bv32
  {
    Fold(CString(s), seed)
  }

  /** The C loop: walk the bytes up to the terminating NUL, folding each into `hash`. */
  method ComputeFnv1a(text: seq<char>, seed: bv32) returns (hash: bv32)
    ensures hash == Fnv1a(text, seed)
  {
    hash := seed;
    var i := 0;
    ghost var c := CString(text);
    while i < |text| && text[i] != '\0'
      invariant 0 <= i <= |c|
      invariant Fold(c[i..], hash) == Fnv1a(text, seed)
    {
      assert c[i] == text[i];
      assert c[i..][1..] == c[i + 1..];
      hash := FoldByte(hash, text[i]);
      i := i + 1;
    }
    assert i == |c|;
  }

  /** Hashing an empty C string yields the seed. */
  lemma EmptyIsSeed(s: seq<char>, seed: bv32)
    requires s == [] || s[0] == '\0'
    ensures Fnv1a(s, seed) == seed
  {
  }

  /** Folding a concatenation chains: the hash of `a` is the seed for `b`. */
  lemma {:induction false} FoldAppend(a: seq<char>, b: seq<char>, h: bv32)
    ensures Fold(a + b, h) == Fold(b, Fold(a, h))
  {
    if a == [] {
      assert a + b == b;
    } else {
      assert (a + b)[0] == a[0];
      assert (a + b)[1..] == a[1..] + b;
      FoldAppend(a[1..], b, FoldByte(h, a[0]));
    }
  }

  /** The last byte of a string is folded last: `h := (b xor h) * prime`. */
  lemma FoldLastByte(a: seq<char>, c: char, h: bv32)
    ensures Fold(a + [c], h) == FoldByte(Fold(a, h), c)
  {
    FoldAppend(a, [c], h);
  }

  /** Because the seed parameter chains, `twk_fnv1a(b, twk_fnv1a(a)) == twk_fnv1a(a + b)` for NUL-free `a`. */
  lemma Chain(a: seq<char>, b: seq<char>, seed: bv32)
    requires NulFree(a)
    ensures Fnv1a(a + b, seed) == Fnv1a(b, Fnv1a(a, seed))
  {
    CStringOfNulFree(a);
    CStringAppend(a, b);
    FoldAppend(a, CString(b), seed);
  }

  /** Hashing stops at the first NUL: whatever follows it does not matter. */
  lemma StopsAtNul(a: seq<char>, b: seq<char>, seed: bv32)
    requires NulFree(a)
    ensures Fnv1a(a + ['\0'] + b, seed) == Fnv1a(a, seed)
  {
    var s := a + ['\0'] + b;
    CStringOfNulFree(a);
    CStringAppend(a, ['\0'] + b);
    assert a + (['\0'] + b) == s;
    assert CString(['\0'] + b) == [];
    assert a + [] == a;
  }

  lemma {:induction false} CStringOfNulFree(a: seq<char>)
    requires NulFree(a)
    ensures CString(a) == a
  {
    if a != [] {
      CStringOfNulFree(a[1..]);
    }
  }

  lemma {:induction false} CStringAppend(a: seq<char>, b: seq<char>)
    requires NulFree(a)
    ensures CString(a + b) == a + CString(b)
  {
    if a != [] {
      assert (a + b)[0] == a[0];
      assert (a + b)[1..] == a[1..] + b;
      CStringAppend(a[1..], b);
    } else {
      assert a + b == b;
    }
  }
}
