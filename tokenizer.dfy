/**
 * The first half of `twk_parse`: the character classes, `twk_strtof` and the
 * loop that turns the NUL-terminated file text into a flat token sequence.
 */
module Tokenizer {
  import opened Wrappers

  /** `twk_is_digit`: a character that starts a number. */
  predicate IsDigitStart(c: char)
  {
    ('0' <= c <= '9') || c == '-' || c == '+' || c == '.'
  }

  /** `twk_is_numeric`: a decimal digit. */
  predicate IsNumeric(c: char)
  {
    '0' <= c <= '9'
  }

  /** `twk_is_name`: a character of a name. */
  predicate IsNameChar(c: char)
  {
    ('A' <= c <= 'Z') || ('a' <= c <= 'z') || c == '_' || c == '-'
  }

  /** `twk_is_whitespace`. */
  predicate IsWhitespace(c: char)
  {
    c == ' ' || c == '\t' || c == '\r' || c == '\n'
  }

  /** Inside a `#` comment: anything but the newline and NUL that end it. */
  predicate InComment(c: char)
  {
    c != '\n' && c != '\0'
  }

  /** The buffer `twk_load_file` hands over: the file's bytes followed by a NUL. */
  predicate Terminated(text: seq<char>)
  {
    |text| > 0 && text[|text| - 1] == '\0'
  }

  /** The first position at or after `p` whose character is not in the run. */
  function RunEnd(text: seq<char>, p: nat, inRun: char -> bool): (e: nat)
    requires Terminated(text) && p < |text| && !inRun('\0')
    ensures p <= e < |text| && !inRun(text[e])
    ensures forall k :: p <= k < e ==> inRun(text[k])
    decreases |text| - p
  {
    if inRun(text[p]) then RunEnd(text, p + 1, inRun) else p
  }

  /** The value of a run of decimal digits, most significant first (`v * 10 + (c - '0')` per character). */
  function DigitsValue(s: seq<char>): int
  {
    if s == [] then 0
    else 10 * DigitsValue(s[..|s| - 1]) + (s[|s| - 1] as int - '0' as int)
  }

  function Pow10(k: nat): (r: nat)
    ensures r > 0
  {
    if k == 0 then 1 else 10 * Pow10(k - 1)
  }

  /** `frac / dec`, kept as a named operation so that the solver treats it as one term. */
  function Quotient(x: real, y: real): real
    requires y != 0.0
  {
    x / y
  }

  /** A scanned number and the position just after it. */
  datatype Scanned = Scanned(value: real, end: nat)

  /** The unsigned part of a number at `s`: integer digits, then an optional '.' and fraction digits. */
  function Magnitude(text: seq<char>, s: nat): (r: Scanned)
    requires Terminated(text) && s < |text|
    ensures s <= r.end < |text|
    ensures !IsNumeric(text[r.end])
    ensures IsNumeric(text[s]) || text[s] == '.' ==> s < r.end
  {
    var e := RunEnd(text, s, IsNumeric);
    var whole := DigitsValue(text[s..e]) as real;
    if text[e] == '.' then
      var f := RunEnd(text, e + 1, IsNumeric);
      Scanned(whole + Quotient(DigitsValue(text[e + 1..f]) as real, Pow10(f - e - 1) as real), f)
    else
      Scanned(whole, e)
  }

  /**
   * What `twk_strtof` computes from position `p`: skip whitespace, an optional
   * sign, then the magnitude; the value is
   * sign * (integer + fraction / 10^(number of fraction digits)) in exact arithmetic.
   */
  function NumberAt(text: seq<char>, p: nat): (r: Scanned)
    requires Terminated(text) && p < |text|
    ensures p <= r.end < |text|
    ensures IsDigitStart(text[p]) ==> p < r.end
    ensures !IsNumeric(text[r.end])
  {
    var q := RunEnd(text, p, IsWhitespace);
    var s := if text[q] == '-' || text[q] == '+' then q + 1 else q;
    var m := Magnitude(text, s);
    if text[q] == '-' then Scanned(-m.value, m.end) else m
  }

  /**
   * The digit loops of `twk_strtof` (both have this shape): accumulate
   * `v := v * 10 + digit` and `dec := dec * 10` while the character is a digit.
   */
  method ScanDigits(text: seq<char>, start: nat) returns (v: real, dec: real, end: nat)
    requires Terminated(text) && start < |text|
    ensures end == RunEnd(text, start, IsNumeric)
    ensures v == DigitsValue(text[start..end]) as real
    ensures dec == Pow10(end - start) as real
  {
    ghost var e := RunEnd(text, start, IsNumeric);
    end := start;
    v, dec := 0.0, 1.0;
    while IsNumeric(text[end])
      invariant start <= end <= e
      invariant v == DigitsValue(text[start..end]) as real
      invariant dec == Pow10(end - start) as real
      decreases e - end
    {
      assert text[start..end + 1][..end - start] == text[start..end];
      v := v * 10.0 + (text[end] as int - '0' as int) as real;
      dec := dec * 10.0;
      end := end + 1;
    }
  }

  /** The value of a magnitude with a fraction, from its digit runs. */
  lemma MagnitudeWithFraction(text: seq<char>, s: nat, e: nat, f: nat, whole: real, frac: real, dec: real)
    requires Terminated(text) && s < |text|
    requires e == RunEnd(text, s, IsNumeric) && text[e] == '.' && f == RunEnd(text, e + 1, IsNumeric)
    requires whole == DigitsValue(text[s..e]) as real
    requires frac == DigitsValue(text[e + 1..f]) as real && dec == Pow10(f - e - 1) as real
    ensures Magnitude(text, s) == Scanned(whole + Quotient(frac, dec), f)
  {
  }

  /** The value of a magnitude without a fraction: its integer digits. */
  lemma MagnitudeWithoutFraction(text: seq<char>, s: nat, e: nat, whole: real)
    requires Terminated(text) && s < |text|
    requires e == RunEnd(text, s, IsNumeric) && text[e] != '.'
    requires whole == DigitsValue(text[s..e]) as real
    ensures Magnitude(text, s) == Scanned(whole, e)
  {
  }

  /** The part of `twk_strtof` after the sign: integer digits, then '.' and fraction digits. */
  method ScanMagnitude(text: seq<char>, start: nat) returns (value: real, end: nat)
    requires Terminated(text) && start < |text|
    ensures Scanned(value, end) == Magnitude(text, start)
  {
    var unused;
    value, unused, end := ScanDigits(text, start);
    if text[end] == '.' {
      var e := end;
      var frac, dec;
      frac, dec, end := ScanDigits(text, e + 1);
      MagnitudeWithFraction(text, start, e, end, value, frac, dec);
      value := value + Quotient(frac, dec);
    } else {
      MagnitudeWithoutFraction(text, start, end, value);
    }
  }

  /** `twk_strtof(p, &end)`: skip whitespace, read the sign, scan the magnitude, apply the sign. */
  method ScanNumber(text: seq<char>, start: nat) returns (value: real, end: nat)
    requires Terminated(text) && start < |text|
    ensures Scanned(value, end) == NumberAt(text, start)
  {
    var p := SkipWhitespace(text, start);
    ghost var q := p;
    var negative := false;
    if text[p] == '-' {
      negative := true;
      p := p + 1;
    } else if text[p] == '+' {
      p := p + 1;
    }
    value, end := ScanMagnitude(text, p);
    NumberAtIs(text, start, q, Scanned(value, end));
    if negative {
      value := -value;
    }
  }

  /** The first loop of `twk_strtof`: step over whitespace. */
  method SkipWhitespace(text: seq<char>, start: nat) returns (p: nat)
    requires Terminated(text) && start < |text|
    ensures p == RunEnd(text, start, IsWhitespace)
  {
    p := start;
    while IsWhitespace(text[p])
      invariant start <= p < |text| && RunEnd(text, p, IsWhitespace) == RunEnd(text, start, IsWhitespace)
      decreases |text| - p
    {
      p := p + 1;
    }
  }

  /** `twk_strtof` from its pieces: the whitespace run ending at `q`, the sign there, the magnitude after it. */
  lemma NumberAtIs(text: seq<char>, p: nat, q: nat, m: Scanned)
    requires Terminated(text) && p < |text| && q == RunEnd(text, p, IsWhitespace)
    requires m == Magnitude(text, if text[q] == '-' || text[q] == '+' then q + 1 else q)
    ensures NumberAt(text, p) == if text[q] == '-' then Scanned(-m.value, m.end) else m
  {
  }

  datatype Token =
    | Number(value: real)
    | Name(index: nat, size: nat)
    | Delimiter
    | OpenBraces
    | CloseBraces
    | Assign

  /** The token a single punctuation character produces (the `switch` of `twk_parse`). */
  function Punctuation(c: char): Option<Token>
  {
    match c
    case '{' => Some(OpenBraces)
    case '}' => Some(CloseBraces)
    case ':' => Some(Assign)
    case ',' => Some(Delimiter)
    case _ => None
  }

  /** One turn of the tokenizer loop: the token it emits, if any, and where it continues. */
  datatype Step = Step(token: Option<Token>, next: nat)

  /**
   * One turn of the loop at a non-NUL position, in the loop's priority order
   * (number, name, comment, single character). `None` is the one turn the C code
   * gives no meaning: a `#` as the last byte before the final NUL, where the
   * comment scan reads past the buffer.
   */
  function TokenStep(text: seq<char>, p: nat): (r: Option<Step>)
    requires Terminated(text) && p < |text| && text[p] != '\0'
    ensures r.Some? ==> p < r.value.next < |text|
    ensures r.None? <==> text[p] == '#' && p + 2 == |text|
  {
    var c := text[p];
    if IsDigitStart(c) then
      var n := NumberAt(text, p);
      Some(Step(Some(Number(n.value)), n.end))
    else if IsNameChar(c) then
      var e := RunEnd(text, p, IsNameChar);
      Some(Step(Some(Name(p, e - p)), e))
    else if c == '#' then
      if text[p + 1] == '\n' then Some(Step(None, p + 1))
      else if p + 2 == |text| then None
      else Some(Step(None, RunEnd(text, p + 2, InComment)))
    else
      Some(Step(Punctuation(c), p + 1))
  }

  function Emit(t: Option<Token>): seq<Token>
  {
    if t.Some? then [t.value] else []
  }

  /** The tokens the loop produces from position `p` on, `None` if it reaches undefined behaviour. */
  function TokensFrom(text: seq<char>, p: nat): Option<seq<Token>>
    requires Terminated(text) && p < |text|
    decreases |text| - p
  {
    if text[p] == '\0' then Some([])
    else
      match TokenStep(text, p)
      case None => None
      case Some(st) =>
        match TokensFrom(text, st.next)
        case None => None
        case Some(rest) => Some(Emit(st.token) + rest)
  }

  /** The body of the tokenizer loop of `twk_parse`: one token (or none) from position `p`. */
  method NextToken(text: seq<char>, p: nat) returns (token: Option<Token>, next: nat)
    requires Terminated(text) && p < |text| && text[p] != '\0'
    requires TokenStep(text, p).Some?
    ensures TokenStep(text, p) == Some(Step(token, next))
  {
    token := None;
    if IsDigitStart(text[p]) {
      var v;
      v, next := ScanNumber(text, p);
      token := Some(Number(v));
    } else if IsNameChar(text[p]) {
      ghost var e := RunEnd(text, p, IsNameChar);
      var identifier := p;
      next := p;
      while IsNameChar(text[next])
        invariant identifier <= next <= e
        decreases e - next
      {
        next := next + 1;
      }
      token := Some(Name(identifier, next - identifier));
    } else if text[p] == '#' {
      next := p + 1;
      ghost var e := if text[p + 1] == '\n' then p + 1 else RunEnd(text, p + 2, InComment);
      while text[next] != '\n'
        invariant p + 1 <= next <= e
        invariant next >= p + 2 ==> text[next] != '\0'
        decreases e - next
      {
        next := next + 1;
        if text[next] == '\0' {
          break;
        }
      }
    } else {
      token := Punctuation(text[p]);
      next := p + 1;
    }
  }

  /** The tokenizer loop of `twk_parse` (the part before the parser's cursor starts). */
  method Tokenize(text: seq<char>) returns (tokens: seq<Token>)
    requires Terminated(text)
    requires TokensFrom(text, 0).Some?
    ensures TokensFrom(text, 0) == Some(tokens)
  {
    var p := 0;
    tokens := [];
    assert tokens + TokensFrom(text, p).value == TokensFrom(text, p).value;
    while text[p] != '\0'
      invariant p < |text|
      invariant TokensFrom(text, p).Some?
      invariant TokensFrom(text, 0) == Some(tokens + TokensFrom(text, p).value)
      decreases |text| - p
    {
      var token, next := NextToken(text, p);
      ghost var rest := TokensFrom(text, next).value;
      assert TokensFrom(text, p).value == Emit(token) + rest;
      assert tokens + (Emit(token) + rest) == (tokens + Emit(token)) + rest;
      tokens := tokens + Emit(token);
      p := next;
    }
    assert TokensFrom(text, p) == Some([]);
    assert tokens + [] == tokens;
  }
}

/** What the tokenizer promises about the tokens it produces. */
module TokenizerFacts {
  import opened Wrappers
  import opened Tokenizer

  /**
   * A NAME token records where in the text its name lies: a non-empty run of name
   * characters (so no digits) that the next character does not continue.
   */
  predicate NameSpan(text: seq<char>, index: nat, size: nat)
  {
    && 1 <= size
    && index + size < |text|
    && (forall k :: index <= k < index + size ==> IsNameChar(text[k]))
    && !IsNameChar(text[index + size])
  }

  predicate NamesInText(text: seq<char>, tokens: seq<Token>, from: nat)
  {
    forall k :: 0 <= k < |tokens| && tokens[k].Name? ==>
      from <= tokens[k].index && NameSpan(text, tokens[k].index, tokens[k].size)
  }

  /** Every NAME token the tokenizer emits from `p` on is a maximal name run at or after `p`. */
  lemma {:induction false} NamesAreSpans(text: seq<char>, p: nat)
    requires Terminated(text) && p < |text| && TokensFrom(text, p).Some?
    ensures NamesInText(text, TokensFrom(text, p).value, p)
    decreases |text| - p
  {
    if text[p] != '\0' {
      var st := TokenStep(text, p).value;
      NamesAreSpans(text, st.next);
      StepNameIsSpan(text, p);
      NamesInTextAppend(text, Emit(st.token), TokensFrom(text, st.next).value, p, st.next);
    }
  }

  /** The NAME token one loop turn emits, if any, is a maximal name run starting at `p`. */
  lemma StepNameIsSpan(text: seq<char>, p: nat)
    requires Terminated(text) && p < |text| && text[p] != '\0' && TokenStep(text, p).Some?
    ensures NamesInText(text, Emit(TokenStep(text, p).value.token), p)
  {
  }

  /** Name facts of two token lists carry over to their concatenation. */
  lemma NamesInTextAppend(text: seq<char>, a: seq<Token>, b: seq<Token>, from: nat, from': nat)
    requires from <= from' && NamesInText(text, a, from) && NamesInText(text, b, from')
    ensures NamesInText(text, a + b, from)
  {
    forall k | 0 <= k < |a + b| && (a + b)[k].Name?
      ensures from <= (a + b)[k].index && NameSpan(text, (a + b)[k].index, (a + b)[k].size)
    {
      if k >= |a| {
        assert (a + b)[k] == b[k - |a|];
      }
    }
  }

  /** At most one token per character: the token list is no longer than the text before the final NUL. */
  lemma {:induction false} TokenCountBound(text: seq<char>, p: nat)
    requires Terminated(text) && p < |text| && TokensFrom(text, p).Some?
    ensures |TokensFrom(text, p).value| <= |text| - 1 - p
    decreases |text| - p
  {
    if text[p] != '\0' {
      TokenCountBound(text, TokenStep(text, p).value.next);
    }
  }

  /** A loop turn that emits nothing leaves the tokens to the turns after it. */
  lemma SilentStep(text: seq<char>, p: nat, next: nat)
    requires Terminated(text) && p < |text| && text[p] != '\0'
    requires TokenStep(text, p) == Some(Step(None, next))
    ensures TokensFrom(text, p) == TokensFrom(text, next)
  {
    match TokensFrom(text, next)
    case None =>
    case Some(rest) => assert Emit(None) + rest == rest;
  }

  /** Whitespace emits no token: tokenizing from a run of whitespace equals tokenizing from its end. */
  lemma {:induction false} WhitespaceEmitsNothing(text: seq<char>, p: nat)
    requires Terminated(text) && p < |text|
    ensures TokensFrom(text, p) == TokensFrom(text, RunEnd(text, p, IsWhitespace))
    decreases |text| - p
  {
    if IsWhitespace(text[p]) {
      assert TokenStep(text, p) == Some(Step(None, p + 1));
      SilentStep(text, p, p + 1);
      WhitespaceEmitsNothing(text, p + 1);
    }
  }

  /**
   * A comment line emits no token: from a `#` whose line ends in a newline, the
   * tokens are those that follow from the newline on, so a comment just before a
   * closing brace leaves the brace and everything after it as they were.
   */
  lemma CommentLineEmitsNothing(text: seq<char>, p: nat, q: nat)
    requires Terminated(text) && p < q < |text| - 1
    requires text[p] == '#' && text[q] == '\n'
    requires forall k :: p < k < q ==> InComment(text[k])
    ensures TokensFrom(text, p) == TokensFrom(text, q)
  {
    if q > p + 1 {
      var e := RunEnd(text, p + 2, InComment);
      assert e == q;
      SilentStep(text, p, q);
    } else {
      SilentStep(text, p, q);
    }
  }

  /**
   * A character the loop does not recognise (no number start, name character,
   * `#` or punctuation, whitespace included) is stepped over and emits no token.
   */
  lemma UnknownEmitsNothing(text: seq<char>, p: nat)
    requires Terminated(text) && p < |text| && text[p] != '\0'
    requires !IsDigitStart(text[p]) && !IsNameChar(text[p]) && text[p] != '#'
    requires Punctuation(text[p]).None?
    ensures p + 1 < |text| && TokensFrom(text, p) == TokensFrom(text, p + 1)
  {
    SilentStep(text, p, p + 1);
  }

  /**
   * The digit test comes before the name test, so a '-' at a token start,
   * although it is also a name character, always starts a NUMBER: the negated
   * magnitude that follows it (zero when no digit follows).
   */
  lemma MinusStartsNumber(text: seq<char>, p: nat)
    requires Terminated(text) && p < |text| && text[p] == '-'
    requires TokensFrom(text, p).Some?
    ensures |TokensFrom(text, p).value| > 0
    ensures TokensFrom(text, p).value[0] == Number(-Magnitude(text, p + 1).value)
  {
    assert RunEnd(text, p, IsWhitespace) == p;
  }
}
