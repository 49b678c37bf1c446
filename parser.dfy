/**
 * The second loop of `twk_parse`: a cursor over the token list that interns the
 * names it stands on, remembers the current category, and hands every
 * `name : v, v, …` assignment to `twk_set_value`.
 */
module Parser {
  import opened Wrappers
  import opened Chars
  import opened Fnv
  import opened Tokenizer
  import opened TokenizerFacts
  import opened Bindings

  /** The size of the `values` buffer: later numbers of an assignment are dropped. */
  const MaxValues: nat := 128
  /** The size of the `name` buffer, which also holds the terminating NUL. */
  const NameCapacity: nat := 128

  predicate InValueRun(t: Token)
  {
    t.Number? || t.Delimiter?
  }

  /** The first index at or after `i` whose token is neither a number nor a comma. */
  function ValueRunEnd(tokens: seq<Token>, i: nat): (e: nat)
    requires i <= |tokens|
    ensures i <= e <= |tokens|
    ensures e < |tokens| ==> !InValueRun(tokens[e])
    decreases |tokens| - i
  {
    if i == |tokens| || !InValueRun(tokens[i]) then i else ValueRunEnd(tokens, i + 1)
  }

  /** The values of the NUMBER tokens of `run`, in order. */
  function Numbers(run: seq<Token>): seq<real>
  {
    if run == [] then []
    else
      var last := run[|run| - 1];
      Numbers(run[..|run| - 1]) + (if last.Number? then [last.value] else [])
  }

  /** The first `MaxValues` elements of `s`, or all of them when there are fewer. */
  function Kept(s: seq<real>): (r: seq<real>)
    ensures |r| <= MaxValues
    ensures |r| == if |s| <= MaxValues then |s| else MaxValues
    ensures r == s[..|r|]
  {
    if |s| <= MaxValues then s else s[..MaxValues]
  }

  /** Where the parser stands: token index, category hash and name index, arena count. */
  datatype Cursor = Cursor(idx: nat, catHash: bv32, category: int, strings: nat)

  /** The cursor `twk_parse` starts with when the arena already holds `count` strings. */
  function Start(count: nat): Cursor
  {
    Cursor(0, 0, -1, count)
  }

  /**
   * What one turn that stands on a NAME does; each interns exactly one name.
   * A header is `name {`, an assignment `name : …`, and any other successor is skipped.
   */
  datatype Event =
    | Header(name: seq<char>)
    | Assigned(assignment: Assignment)
    | Skipped(name: seq<char>)

  function NameOf(e: Event): seq<char>
  {
    match e
    case Header(n) => n
    case Assigned(a) => a.name
    case Skipped(n) => n
  }

  datatype Turn = Turn(next: Cursor, event: Option<Event>)

  /**
   * One turn of the cursor loop. `None` marks the turns the C code gives no meaning:
   * a name of `NameCapacity` characters or more overflows `name`, and a NAME or
   * `:` as the last token makes the parser read past the token list.
   */
  function ParseTurn(text: seq<char>, tokens: seq<Token>, c: Cursor): (r: Option<Turn>)
    requires c.idx < |tokens| && NamesInText(text, tokens, 0)
    ensures r.Some? ==> c.idx < r.value.next.idx <= |tokens|
    ensures r.Some? ==> r.value.next.strings == c.strings + (if r.value.event.Some? then 1 else 0)
    ensures r.Some? ==> (r.value.event.Some? <==> tokens[c.idx].Name?)
  {
    var t := tokens[c.idx];
    if !t.Name? then Some(Turn(c.(idx := c.idx + 1), None))
    else if t.size >= NameCapacity || c.idx + 1 == |tokens| then None
    else if tokens[c.idx + 1].Assign? && c.idx + 2 == |tokens| then None
    else Some(NameTurnOf(text, tokens, c))
  }

  /** A turn on a NAME with a successor (and a value after a `:`): an assignment, a header or a skip. */
  function NameTurnOf(text: seq<char>, tokens: seq<Token>, c: Cursor): (r: Turn)
    requires c.idx + 1 < |tokens| && tokens[c.idx].Name? && NamesInText(text, tokens, 0)
    requires tokens[c.idx + 1].Assign? ==> c.idx + 2 < |tokens|
    ensures c.idx < r.next.idx <= |tokens| && r.next.strings == c.strings + 1 && r.event.Some?
  {
    if tokens[c.idx + 1].Assign? then AssignmentTurn(text, tokens, c) else HeaderOrSkipTurn(text, tokens, c)
  }

  /** The characters of the NAME token at `i`. */
  function TokenText(text: seq<char>, tokens: seq<Token>, i: nat): (r: seq<char>)
    requires i < |tokens| && tokens[i].Name? && NamesInText(text, tokens, 0)
    ensures |r| == tokens[i].size
  {
    text[tokens[i].index..tokens[i].index + tokens[i].size]
  }

  /** `name : v, …`: the kept numbers of the value run after the `:` are assigned to the name. */
  function AssignmentTurn(text: seq<char>, tokens: seq<Token>, c: Cursor): (r: Turn)
    requires c.idx + 2 < |tokens| && tokens[c.idx].Name? && NamesInText(text, tokens, 0)
    ensures c.idx < r.next.idx <= |tokens| && r.next.strings == c.strings + 1
    ensures r.event.Some? && r.event.value.Assigned?
  {
    var e := ValueRunEnd(tokens, c.idx + 2);
    Turn(c.(idx := e, strings := c.strings + 1), Some(Assigned(AssignmentOf(text, tokens, c, e))))
  }

  /** The assignment of a `name : …` turn whose value run ends at `end`. */
  function AssignmentOf(text: seq<char>, tokens: seq<Token>, c: Cursor, end: nat): Assignment
    requires c.idx + 2 <= end <= |tokens| && tokens[c.idx].Name? && NamesInText(text, tokens, 0)
  {
    Assignment(c.catHash, c.category, TokenText(text, tokens, c.idx), c.strings, tokens[c.idx].size,
               Kept(Numbers(tokens[c.idx + 2..end])))
  }

  /** `name {` opens a category (its hash and arena index); `name x` skips both tokens. */
  function HeaderOrSkipTurn(text: seq<char>, tokens: seq<Token>, c: Cursor): (r: Turn)
    requires c.idx + 1 < |tokens| && tokens[c.idx].Name? && NamesInText(text, tokens, 0)
    ensures c.idx < r.next.idx <= |tokens| && r.next.strings == c.strings + 1
    ensures r.event.Some? && !r.event.value.Assigned?
  {
    var name := TokenText(text, tokens, c.idx);
    if tokens[c.idx + 1].OpenBraces? then
      Turn(Cursor(c.idx + 1, Fnv1a(name, FnvSeed), c.strings, c.strings + 1), Some(Header(name)))
    else
      Turn(c.(idx := c.idx + 2, strings := c.strings + 1), Some(Skipped(name)))
  }

  function EmitEvent(e: Option<Event>): seq<Event>
  {
    if e.Some? then [e.value] else []
  }

  /** The events of the cursor loop from `c` to the end, `None` if it reaches undefined behaviour. */
  function ParseFrom(text: seq<char>, tokens: seq<Token>, c: Cursor): Option<seq<Event>>
    requires c.idx <= |tokens| && NamesInText(text, tokens, 0)
    decreases |tokens| - c.idx
  {
    if c.idx == |tokens| then Some([])
    else
      match ParseTurn(text, tokens, c)
      case None => None
      case Some(turn) =>
        match ParseFrom(text, tokens, turn.next)
        case None => None
        case Some(rest) => Some(EmitEvent(turn.event) + rest)
  }

  /**
   * The events of the whole loop. The C code binds a reference to `tokens[0]` before
   * the loop, which has no meaning for an empty token list.
   */
  function ParseTokens(text: seq<char>, tokens: seq<Token>, count: nat): Option<seq<Event>>
    requires NamesInText(text, tokens, 0)
  {
    if tokens == [] then None else ParseFrom(text, tokens, Start(count))
  }

  /** The arena strings the events intern, in order. */
  function Names(events: seq<Event>): (r: seq<seq<char>>)
    ensures |r| == |events|
  {
    if events == [] then [] else Names(events[..|events| - 1]) + [NameOf(events[|events| - 1])]
  }

  /** The `twk_set_value` calls the events make, in order. */
  function Assignments(events: seq<Event>): seq<Assignment>
  {
    if events == [] then []
    else
      var last := events[|events| - 1];
      Assignments(events[..|events| - 1]) + (if last.Assigned? then [last.assignment] else [])
  }

  /** The item table after the `twk_set_value` call of event `e`, if it is an assignment. */
  function EventItems(items: seq<Item>, e: Event): seq<Item>
  {
    if e.Assigned? then AssignedItems(items, e.assignment) else items
  }

  /** The contents of target `t` after the `twk_set_value` call of event `e`, from contents `s`. */
  function EventTarget(items: seq<Item>, e: Event, t: array<real>, s: seq<real>): seq<real>
  {
    if e.Assigned? then Apply(WriteOf(items, e.assignment), t, s) else s
  }

  /**
   * The category in force after the events `prefix`, interned from `c.strings` on:
   * the hash and arena index of the last header, or those of `c` when there is none.
   */
  function CategoryAfter(c: Cursor, prefix: seq<Event>): (bv32, int)
  {
    if prefix == [] then (c.catHash, c.category)
    else
      var last := prefix[|prefix| - 1];
      if last.Header? then (Fnv1a(last.name, FnvSeed), c.strings + |prefix| - 1)
      else CategoryAfter(c, prefix[..|prefix| - 1])
  }
}

/** What the cursor loop promises about the names it interns and the assignments it makes. */
module ParserFacts {
  import opened Wrappers
  import opened Chars
  import opened Fnv
  import opened Tokenizer
  import opened TokenizerFacts
  import opened Bindings
  import opened Parser

  lemma EmitEventAppend(e: Option<Event>, rest: seq<Event>, k: nat)
    requires k < |EmitEvent(e) + rest|
    ensures (EmitEvent(e) + rest)[k] == if e.Some? && k == 0 then e.value else rest[k - |EmitEvent(e)|]
  {
  }

  /** A well-formed name event: a NUL-free name of 1 to 127 name characters. */
  predicate GoodName(name: seq<char>)
  {
    && 1 <= |name| < NameCapacity
    && forall k :: 0 <= k < |name| ==> IsNameChar(name[k])
  }

  /** What every event of a parse satisfies on its own. */
  predicate GoodEvent(e: Event, index: nat)
  {
    && GoodName(NameOf(e))
    && (e.Assigned? ==>
         && e.assignment.nameIndex == index
         && e.assignment.length == |e.assignment.name|
         && |e.assignment.values| <= MaxValues)
  }

  /**
   * Every event interns one well-formed name; an assignment carries the arena index
   * of its own name, the name's length, and at most `MaxValues` numbers.
   */
  lemma {:induction false} EventsWellFormed(text: seq<char>, tokens: seq<Token>, c: Cursor)
    requires c.idx <= |tokens| && NamesInText(text, tokens, 0)
    requires ParseFrom(text, tokens, c).Some?
    ensures var ev := ParseFrom(text, tokens, c).value;
      forall k :: 0 <= k < |ev| ==> GoodEvent(ev[k], c.strings + k)
    decreases |tokens| - c.idx
  {
    if c.idx < |tokens| {
      var turn := ParseTurn(text, tokens, c).value;
      EventsWellFormed(text, tokens, turn.next);
      var rest := ParseFrom(text, tokens, turn.next).value;
      var ev := ParseFrom(text, tokens, c).value;
      assert ev == EmitEvent(turn.event) + rest;
      if turn.event.Some? {
        var t := tokens[c.idx];
        assert NameSpan(text, t.index, t.size);
        assert GoodEvent(turn.event.value, c.strings);
      }
      forall k | 0 <= k < |ev| ensures GoodEvent(ev[k], c.strings + k) {
        EmitEventAppend(turn.event, rest, k);
        if !(turn.event.Some? && k == 0) {
          assert GoodEvent(rest[k - |EmitEvent(turn.event)|], turn.next.strings + (k - |EmitEvent(turn.event)|));
        }
      }
    }
  }

  /** The category after one more event, seen from the cursor before and after it. */
  lemma {:induction false} CategoryShift(c: Cursor, e: Event, c': Cursor, prefix: seq<Event>)
    requires c'.strings == c.strings + 1
    requires (c'.catHash, c'.category) == CategoryAfter(c, [e])
    ensures CategoryAfter(c, [e] + prefix) == CategoryAfter(c', prefix)
    decreases |prefix|
  {
    if prefix != [] {
      var all := [e] + prefix;
      assert all[..|all| - 1] == [e] + prefix[..|prefix| - 1];
      assert all[|all| - 1] == prefix[|prefix| - 1];
      CategoryShift(c, e, c', prefix[..|prefix| - 1]);
    } else {
      assert [e] + prefix == [e];
    }
  }

  /** The category in force does not depend on where in the token list the cursor stands. */
  lemma {:induction false} CategoryIgnoresIndex(c: Cursor, idx: nat, prefix: seq<Event>)
    ensures CategoryAfter(c, prefix) == CategoryAfter(c.(idx := idx), prefix)
    decreases |prefix|
  {
    if prefix != [] {
      CategoryIgnoresIndex(c, idx, prefix[..|prefix| - 1]);
    }
  }

  /**
   * The category hash persists from one header to the next: every assignment
   * carries the hash and arena index of the last header before it, or those the
   * cursor started with when there is none.
   */
  lemma {:induction false} AssignmentsUseLastHeader(text: seq<char>, tokens: seq<Token>, c: Cursor)
    requires c.idx <= |tokens| && NamesInText(text, tokens, 0)
    requires ParseFrom(text, tokens, c).Some?
    ensures var ev := ParseFrom(text, tokens, c).value;
      forall k :: 0 <= k < |ev| && ev[k].Assigned? ==>
        (ev[k].assignment.catHash, ev[k].assignment.categoryNameIndex) == CategoryAfter(c, ev[..k])
    decreases |tokens| - c.idx
  {
    if c.idx < |tokens| {
      var turn := ParseTurn(text, tokens, c).value;
      AssignmentsUseLastHeader(text, tokens, turn.next);
      var rest := ParseFrom(text, tokens, turn.next).value;
      var ev := ParseFrom(text, tokens, c).value;
      assert ev == EmitEvent(turn.event) + rest;
      if turn.event.None? {
        assert turn.next == c.(idx := turn.next.idx);
        assert ev == rest;
        forall k | 0 <= k < |ev| ensures CategoryAfter(c, ev[..k]) == CategoryAfter(turn.next, ev[..k]) {
          CategoryIgnoresIndex(c, turn.next.idx, ev[..k]);
        }
      } else {
        var e := turn.event.value;
        assert (turn.next.catHash, turn.next.category) == CategoryAfter(c, [e]) by {
          assert [e][..0] == [];
        }
        forall k | 0 <= k < |ev| && ev[k].Assigned?
          ensures (ev[k].assignment.catHash, ev[k].assignment.categoryNameIndex) == CategoryAfter(c, ev[..k])
        {
          if k == 0 {
            assert ev[..0] == [];
          } else {
            assert ev[k] == rest[k - 1];
            assert ev[..k] == [e] + rest[..k - 1];
            CategoryShift(c, e, turn.next, rest[..k - 1]);
          }
        }
      }
    }
  }

  /** From the start with no header yet, the category index is -1 or names a header in the same parse. */
  lemma {:induction false} CategoryAfterStart(count: nat, prefix: seq<Event>)
    ensures var (h, i) := CategoryAfter(Start(count), prefix);
      || (h == 0 && i == -1)
      || (count <= i < count + |prefix| && prefix[i - count].Header? &&
          h == Fnv1a(prefix[i - count].name, FnvSeed))
    decreases |prefix|
  {
    if prefix != [] {
      var init := prefix[..|prefix| - 1];
      CategoryAfterStart(count, init);
      if !prefix[|prefix| - 1].Header? {
        var (h, i) := CategoryAfter(Start(count), init);
        if count <= i < count + |init| {
          assert prefix[i - count] == init[i - count];
        }
      }
    }
  }

  lemma AssignmentNamed(text: seq<char>, tokens: seq<Token>, count: nat, ev: seq<Event>, k: nat)
    requires NamesInText(text, tokens, 0) && ParseFrom(text, tokens, Start(count)) == Some(ev)
    requires k < |ev| && ev[k].Assigned?
    ensures GoodEvent(ev[k], count + k)
  {
    EventsWellFormed(text, tokens, Start(count));
  }

  lemma AssignmentCategory(text: seq<char>, tokens: seq<Token>, count: nat, ev: seq<Event>, k: nat)
    requires NamesInText(text, tokens, 0) && ParseFrom(text, tokens, Start(count)) == Some(ev)
    requires k < |ev| && ev[k].Assigned?
    ensures var a := ev[k].assignment;
      || (a.catHash == 0 && a.categoryNameIndex == -1)
      || (count <= a.categoryNameIndex < count + k && ev[a.categoryNameIndex - count].Header? &&
          a.catHash == Fnv1a(ev[a.categoryNameIndex - count].name, FnvSeed))
  {
    AssignmentsUseLastHeader(text, tokens, Start(count));
    assert (ev[k].assignment.catHash, ev[k].assignment.categoryNameIndex) == CategoryAfter(Start(count), ev[..k]);
    CategoryAfterStart(count, ev[..k]);
    var (h, i) := CategoryAfter(Start(count), ev[..k]);
    if count <= i < count + k {
      assert ev[..k][i - count] == ev[i - count];
    }
  }

  /** The facts of one assignment of a whole parse, from the lemmas above. */
  lemma AssignmentAt(text: seq<char>, tokens: seq<Token>, count: nat, k: nat)
    requires NamesInText(text, tokens, 0) && ParseTokens(text, tokens, count).Some?
    requires var ev := ParseTokens(text, tokens, count).value; k < |ev| && ev[k].Assigned?
    ensures var ev := ParseTokens(text, tokens, count).value;
      var a := ev[k].assignment;
      && a.nameIndex == count + k
      && Names(ev)[k] == a.name
      && |a.values| <= MaxValues
      && 0 < |a.name| < NameCapacity
      && (|| (a.catHash == 0 && a.categoryNameIndex == -1)
          || (count <= a.categoryNameIndex < count + k && ev[a.categoryNameIndex - count].Header? &&
              a.catHash == Fnv1a(Names(ev)[a.categoryNameIndex - count], FnvSeed)))
  {
    var ev := ParseTokens(text, tokens, count).value;
    AssignmentNamed(text, tokens, count, ev, k);
    AssignmentCategory(text, tokens, count, ev, k);
    NamesAt(ev, k);
    var i := ev[k].assignment.categoryNameIndex;
    if count <= i < count + k {
      NamesAt(ev, i - count);
    }
  }

  /**
   * The assignments of a whole parse: each one's name lies in the arena at its
   * `nameIndex`, and its category is either none (hash 0, index -1) or a header
   * interned earlier in the same parse whose name hashes to the category hash.
   */
  lemma ParseTokensAssignments(text: seq<char>, tokens: seq<Token>, count: nat)
    requires NamesInText(text, tokens, 0) && ParseTokens(text, tokens, count).Some?
    ensures var ev := ParseTokens(text, tokens, count).value;
      forall k :: 0 <= k < |ev| && ev[k].Assigned? ==>
        var a := ev[k].assignment;
        && a.nameIndex == count + k
        && Names(ev)[k] == a.name
        && |a.values| <= MaxValues
        && 0 < |a.name| < NameCapacity
        && (|| (a.catHash == 0 && a.categoryNameIndex == -1)
            || (count <= a.categoryNameIndex < count + k && ev[a.categoryNameIndex - count].Header? &&
                a.catHash == Fnv1a(Names(ev)[a.categoryNameIndex - count], FnvSeed)))
  {
    var ev := ParseTokens(text, tokens, count).value;
    forall k | 0 <= k < |ev| && ev[k].Assigned?
      ensures var a := ev[k].assignment;
        && a.nameIndex == count + k
        && Names(ev)[k] == a.name
        && |a.values| <= MaxValues
        && 0 < |a.name| < NameCapacity
        && (|| (a.catHash == 0 && a.categoryNameIndex == -1)
            || (count <= a.categoryNameIndex < count + k && ev[a.categoryNameIndex - count].Header? &&
                a.catHash == Fnv1a(Names(ev)[a.categoryNameIndex - count], FnvSeed)))
    {
      AssignmentAt(text, tokens, count, k);
    }
  }

  lemma NumbersAppend(run: seq<Token>, t: Token)
    ensures Numbers(run + [t]) == Numbers(run) + (if t.Number? then [t.value] else [])
  {
    assert (run + [t])[..|run|] == run;
  }

  /** The kept values grow by one number while fewer than `MaxValues` are kept, and not at all after. */
  lemma KeptAppend(s: seq<real>, x: real)
    ensures Kept(s + [x]) == if |s| < MaxValues then Kept(s) + [x] else Kept(s)
  {
    if |s| >= MaxValues {
      assert (s + [x])[..MaxValues] == s[..MaxValues];
    }
  }

  /** A defined turn that stands on a NAME is the NAME turn: the name has a successor. */
  lemma ParseTurnOnName(text: seq<char>, tokens: seq<Token>, c: Cursor)
    requires c.idx < |tokens| && NamesInText(text, tokens, 0) && tokens[c.idx].Name?
    requires ParseTurn(text, tokens, c).Some?
    ensures c.idx + 1 < |tokens| && (tokens[c.idx + 1].Assign? ==> c.idx + 2 < |tokens|)
    ensures ParseTurn(text, tokens, c).value == NameTurnOf(text, tokens, c)
  {
  }

  /** A NAME turn is an assignment when the successor is `:`, a header or a skip otherwise. */
  lemma NameTurnCases(text: seq<char>, tokens: seq<Token>, c: Cursor)
    requires c.idx + 1 < |tokens| && tokens[c.idx].Name? && NamesInText(text, tokens, 0)
    requires tokens[c.idx + 1].Assign? ==> c.idx + 2 < |tokens|
    ensures tokens[c.idx + 1].Assign? ==> NameTurnOf(text, tokens, c) == AssignmentTurn(text, tokens, c)
    ensures !tokens[c.idx + 1].Assign? ==> NameTurnOf(text, tokens, c) == HeaderOrSkipTurn(text, tokens, c)
  {
  }

  /** The assignment turn, from the pieces the cursor loop computes. */
  lemma AssignmentTurnIs(text: seq<char>, tokens: seq<Token>, c: Cursor, name: seq<char>, values: seq<real>, end: nat)
    requires c.idx + 2 < |tokens| && tokens[c.idx].Name? && NamesInText(text, tokens, 0)
    requires name == TokenText(text, tokens, c.idx)
    requires end == ValueRunEnd(tokens, c.idx + 2) && values == Kept(Numbers(tokens[c.idx + 2..end]))
    ensures AssignmentTurn(text, tokens, c) ==
      Turn(c.(idx := end, strings := c.strings + 1),
           Some(Assigned(Assignment(c.catHash, c.category, name, c.strings, tokens[c.idx].size, values))))
  {
  }

  /** The effect of one event on the table and on a target is that of its `twk_set_value` calls. */
  lemma EventEffects(items: seq<Item>, e: Event)
    ensures ItemsAfter(items, Assignments([e])) == EventItems(items, e)
    ensures forall t: array<real>, s: seq<real> :: TargetAfter(items, Assignments([e]), t, s) == EventTarget(items, e, t, s)
  {
    assert [e][..0] == [];
    if e.Assigned? {
      assert [e.assignment][..0] == [];
    }
  }

  /** One more token of a value run: a number is kept while fewer than `MaxValues` are, anything else adds nothing. */
  lemma CollectAppend(tokens: seq<Token>, start: nat, end: nat)
    requires start <= end < |tokens|
    ensures var kept := Kept(Numbers(tokens[start..end]));
      Kept(Numbers(tokens[start..end + 1])) ==
        if tokens[end].Number? && |kept| < MaxValues then kept + [tokens[end].value] else kept
  {
    var v := tokens[end];
    assert tokens[start..end + 1] == tokens[start..end] + [v];
    NumbersAppend(tokens[start..end], v);
    if v.Number? {
      KeptAppend(Numbers(tokens[start..end]), v.value);
    } else {
      assert Numbers(tokens[start..end]) + [] == Numbers(tokens[start..end]);
    }
  }

  /** A comma contributes no value: the numbers of a run are those of its NUMBER tokens only. */
  lemma {:induction false} DelimitersCarryNoValues(run: seq<Token>)
    requires forall k :: 0 <= k < |run| ==> run[k].Delimiter?
    ensures Numbers(run) == []
  {
    if run != [] {
      DelimitersCarryNoValues(run[..|run| - 1]);
    }
  }

  lemma {:induction false} NamesAppend(first: seq<Event>, second: seq<Event>)
    ensures Names(first + second) == Names(first) + Names(second)
    decreases |second|
  {
    if second == [] {
      assert first + second == first;
    } else {
      var all := first + second;
      assert all[..|all| - 1] == first + second[..|second| - 1];
      assert all[|all| - 1] == second[|second| - 1];
      NamesAppend(first, second[..|second| - 1]);
    }
  }

  /** String `k` a parse interns is the name of its event `k`. */
  lemma {:induction false} NamesAt(events: seq<Event>, k: nat)
    requires k < |events|
    ensures Names(events)[k] == NameOf(events[k])
    decreases |events|
  {
    if k < |events| - 1 {
      NamesAt(events[..|events| - 1], k);
    }
  }

  lemma {:induction false} AssignmentsAppend(first: seq<Event>, second: seq<Event>)
    ensures Assignments(first + second) == Assignments(first) + Assignments(second)
    decreases |second|
  {
    if second == [] {
      assert first + second == first;
    } else {
      var all := first + second;
      assert all[..|all| - 1] == first + second[..|second| - 1];
      assert all[|all| - 1] == second[|second| - 1];
      AssignmentsAppend(first, second[..|second| - 1]);
    }
  }
}
