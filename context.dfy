/**
 * `SettingsContext` of `ds_tweakable.h`: the registered items, the reload state
 * and the string arena (`InternalCharBuffer`), with the operations that update
 * them in place. A C address of 0 is a `null` array.
 */
module Tweakable {
  import opened Wrappers
  import opened Chars
  import opened Fnv
  import opened Tokenizer
  import opened TokenizerFacts
  import opened Bindings
  import opened BindingFacts
  import opened Parser
  import opened ParserFacts
  import opened Arena
  import opened CharBuffers
  import opened Saving
  import opened SaveLoop

  /**
   * The body of the value loop of `twk_parse`: walks the NUMBER/DELIMITER run
   * that starts at `start`, copying the first `MaxValues` numbers into the
   * `values` buffer.
   */
  method CollectValues(tokens: seq<Token>, start: nat) returns (values: seq<real>, end: nat)
    requires start < |tokens|
    ensures end == ValueRunEnd(tokens, start)
    ensures values == Kept(Numbers(tokens[start..end]))
  {
    var buffer := new real[MaxValues];
    var count := 0;
    end := start;
    while end < |tokens| && InValueRun(tokens[end])
      invariant start <= end <= |tokens|
      invariant ValueRunEnd(tokens, end) == ValueRunEnd(tokens, start)
      invariant count <= MaxValues && buffer[..count] == Kept(Numbers(tokens[start..end]))
      decreases |tokens| - end
    {
      var v := tokens[end];
      CollectAppend(tokens, start, end);
      if v.Number? && count < MaxValues {
        buffer[count] := v.value;
        assert buffer[..count + 1] == buffer[..count] + [v.value];
        count := count + 1;
      }
      end := end + 1;
    }
    values := buffer[..count];
  }

  /**
   * The typed writes of `twk_set_value`, for a value count equal to the type's
   * arity: integer types truncate, colours divide by 255, the rest copy.
   */
  method StoreValues(item: Item, v: seq<real>)
    requires Fits(item) && |v| == Arity(item)
    modifies item.target
    ensures item.target[..] == Stored(item, v)
  {
    var t := item.target;
    match item.settingsType
    case Int =>
      t[0] := Trunc(v[0]) as real;
    case UInt =>
      t[0] := Trunc(v[0]) as real;
    case Float =>
      t[0] := v[0];
    case Vec2 =>
      t[0] := v[0];
      t[1] := v[1];
    case Vec3 =>
      t[0] := v[0];
      t[1] := v[1];
      t[2] := v[2];
    case Vec4 =>
      t[0] := v[0];
      t[1] := v[1];
      t[2] := v[2];
      t[3] := v[3];
    case Color =>
      t[0] := v[0] / 255.0;
      t[1] := v[1] / 255.0;
      t[2] := v[2] / 255.0;
      t[3] := v[3] / 255.0;
    case Array =>
      var i := 0;
      while i < |v|
        invariant 0 <= i <= |v|
        invariant t[..i] == v[..i]
      {
        t[i] := v[i];
        i := i + 1;
      }
  }


  /**
   * The decision of `twk_requires_loading`: always before the first load, later
   * only when the file's modification time `now` could be read and is later
   * than the remembered one.
   */
  predicate NeedsReload(loaded: bool, filetime: int, now: Option<int>)
  {
    !loaded || (now.Some? && filetime < now.value)
  }

  class SettingsContext {
    const fileName: seq<char>
    var filetime: int
    var loaded: bool
    var items: seq<Item>
    const charBuffer: CharBuffer

    /** The string arena is well formed and every registered target fits its type. */
    ghost predicate Valid()
      reads this`items, charBuffer, charBuffer.data, charBuffer.indices, charBuffer.sizes
    {
      charBuffer.Valid() && AllFit(items)
    }

    /**
     * `twk_init`: nothing registered, not loaded, an empty arena with no buffers.
     * The modification time the C code leaves unset is a parameter.
     */
    constructor (fileName: seq<char>, filetime: int)
      ensures Valid() && fresh(charBuffer)
      ensures this.fileName == fileName && this.filetime == filetime
      ensures !loaded && items == [] && charBuffer.strings == []
      ensures charBuffer.data == null && charBuffer.indices == null && charBuffer.sizes == null
      ensures charBuffer.capacity == 0 && charBuffer.size == 0 && charBuffer.count == 0
      ensures charBuffer.indexCapacity == 0
    {
      this.fileName := fileName;
      this.filetime := filetime;
      loaded := false;
      items := [];
      charBuffer := new CharBuffer();
    }

    /**
     * `twk_internal_add`: appends one item for `category`/`name` with the given
     * type and target and `arrayLength == 0`; name index, length and category
     * name index stay unset until a file assigns the item. Registration interns
     * nothing in the arena.
     */
    method InternalAdd(category: seq<char>, name: seq<char>, settingsType: SettingsType, target: array<real>)
      returns (idx: nat)
      modifies this`items
      ensures idx == |old(items)|
      ensures items == old(items) + [Item(Fnv1a(category, FnvSeed), None, Fnv1a(name, FnvSeed), settingsType,
                                          None, None, target, 0)]
    {
      var categoryHash := ComputeFnv1a(category, FnvSeed);
      var hash := ComputeFnv1a(name, FnvSeed);
      items := items + [Item(categoryHash, None, hash, settingsType, None, None, target, 0)];
      idx := |items| - 1;
    }

    /**
     * The scalar, vector and colour `twk_add` overloads: the target is the
     * caller's variable, as many values as the type has components.
     */
    method Add(category: seq<char>, name: seq<char>, settingsType: SettingsType, target: array<real>)
      requires AllFit(items) && settingsType != Array
      requires target.Length == Arity(Item(0, None, 0, settingsType, None, None, target, 0))
      modifies this`items
      ensures AllFit(items)
      ensures items == old(items) + [Item(Fnv1a(category, FnvSeed), None, Fnv1a(name, FnvSeed), settingsType,
                                          None, None, target, 0)]
    {
      var idx := InternalAdd(category, name, settingsType, target);
    }

    /** The array overload of `twk_add`: an array item whose `arrayLength` is `size`. */
    method AddArray(category: seq<char>, name: seq<char>, target: array<real>, size: int)
      requires AllFit(items)
      requires size < 0 || target.Length == size
      modifies this`items
      ensures AllFit(items)
      ensures items == old(items) + [Item(Fnv1a(category, FnvSeed), None, Fnv1a(name, FnvSeed), Array,
                                          None, None, target, size)]
    {
      var idx := InternalAdd(category, name, Array, target);
      items := items[idx := items[idx].(arrayLength := size)];
    }

    /** `twk_find`: the first item whose name hash and category hash match, or -1. */
    method FindItem(categoryHash: bv32, name: seq<char>) returns (r: int)
      ensures r == Find(items, categoryHash, Fnv1a(name, FnvSeed))
    {
      var hash := ComputeFnv1a(name, FnvSeed);
      var i := 0;
      while i < |items|
        invariant 0 <= i <= |items|
        invariant FindFrom(items, categoryHash, hash, i) == FindFrom(items, categoryHash, hash, 0)
      {
        if items[i].hash == hash && items[i].categoryHash == categoryHash {
          return i;
        }
        i := i + 1;
      }
      return -1;
    }

    /**
     * `twk_set_value`: when an item matches, records the name index, length and
     * category name index (whatever the value count), and writes the values into
     * the item's target only when their count is the type's arity.
     */
    method SetValue(a: Assignment)
      requires AllFit(items) && WriteDefined(items, a)
      modifies this`items, Targets(items)
      ensures AllFit(items)
      ensures items == AssignedItems(old(items), a)
      ensures forall t :: t in old(Targets(items)) ==> t[..] == Apply(WriteOf(old(items), a), t, old(t[..]))
    {
      var idx := FindItem(a.catHash, a.name);
      if idx != -1 {
        var item := items[idx];
        assert item.target in Targets(items);
        items := items[idx := item.(nameIndex := Some(a.nameIndex), length := Some(a.length),
                                    categoryNameIndex := Some(a.categoryNameIndex))];
        AssignedKeepsBindings(old(items), a);
        if |a.values| == Arity(item) {
          StoreValues(item, a.values);
        }
        assert WriteOf(old(items), a).Some? ==> item.target[..] == WriteOf(old(items), a).value.contents;
      }
    }

    /** The write of `twk_set_value` is defined for the assignment a turn makes, if it makes one. */
    ghost predicate TurnDefined(turn: Turn)
      reads this`items
    {
      turn.event.Some? && turn.event.value.Assigned? ==> WriteDefined(items, turn.event.value.assignment)
    }

    /** The arena arrays are the ones of the pre-state or were allocated since. */
    twostate predicate ArenaGrown()
      reads charBuffer
    {
      && (charBuffer.data == old(charBuffer.data) || fresh(charBuffer.data))
      && (charBuffer.indices == old(charBuffer.indices) || fresh(charBuffer.indices))
      && (charBuffer.sizes == old(charBuffer.sizes) || fresh(charBuffer.sizes))
    }

    /**
     * One turn of the cursor loop of `twk_parse`: a NAME is interned and, with its
     * successor, starts a header, an assignment (dispatched to `twk_set_value`)
     * or is skipped together with the successor; any other token is passed over.
     */
    method ParseTurnAt(text: seq<char>, tokens: seq<Token>, c: Cursor) returns (next: Cursor, ghost event: Option<Event>)
      requires Valid() && c.idx < |tokens| && NamesInText(text, tokens, 0)
      requires c.strings == charBuffer.count
      requires ParseTurn(text, tokens, c).Some? && TurnDefined(ParseTurn(text, tokens, c).value)
      modifies this`items, charBuffer, charBuffer.data, charBuffer.indices, charBuffer.sizes, Targets(items)
      ensures Valid() && ArenaGrown()
      ensures ParseTurn(text, tokens, c) == Some(Turn(next, event)) && next.strings == charBuffer.count
      ensures charBuffer.strings == old(charBuffer.strings) + Names(EmitEvent(event))
      ensures items == ItemsAfter(old(items), Assignments(EmitEvent(event)))
      ensures forall t :: t in old(Targets(items)) ==>
        t[..] == TargetAfter(old(items), Assignments(EmitEvent(event)), t, old(t[..]))
    {
      if tokens[c.idx].Name? {
        ghost var e;
        ParseTurnOnName(text, tokens, c);
        EventEffects(items, ParseTurn(text, tokens, c).value.event.value);
        next, e := NameTurn(text, tokens, c);
        event := Some(e);
      } else {
        next, event := c.(idx := c.idx + 1), None;
      }
    }

    /** A turn that stands on a NAME: intern it, then look at its successor. */
    method NameTurn(text: seq<char>, tokens: seq<Token>, c: Cursor) returns (next: Cursor, ghost event: Event)
      requires Valid() && c.idx + 1 < |tokens| && tokens[c.idx].Name? && NamesInText(text, tokens, 0)
      requires tokens[c.idx + 1].Assign? ==> c.idx + 2 < |tokens|
      requires TurnDefined(NameTurnOf(text, tokens, c)) && c.strings == charBuffer.count
      modifies this`items, charBuffer, charBuffer.data, charBuffer.indices, charBuffer.sizes, Targets(items)
      ensures Valid() && ArenaGrown()
      ensures Turn(next, Some(event)) == NameTurnOf(text, tokens, c) && next.strings == charBuffer.count
      ensures charBuffer.strings == old(charBuffer.strings) + [NameOf(event)]
      ensures items == EventItems(old(items), event)
      ensures forall t :: t in old(Targets(items)) ==> t[..] == EventTarget(old(items), event, t, old(t[..]))
    {
      NameTurnCases(text, tokens, c);
      if tokens[c.idx + 1].Assign? {
        next, event := AssignNameTurn(text, tokens, c);
      } else {
        next, event := OtherNameTurn(text, tokens, c);
      }
    }

    /** A NAME followed by `:`: intern the name, then collect the values and assign them. */
    method AssignNameTurn(text: seq<char>, tokens: seq<Token>, c: Cursor) returns (next: Cursor, ghost event: Event)
      requires Valid() && c.idx + 2 < |tokens| && tokens[c.idx].Name? && NamesInText(text, tokens, 0)
      requires WriteDefined(items, AssignmentTurn(text, tokens, c).event.value.assignment)
      requires c.strings == charBuffer.count
      modifies this`items, charBuffer, charBuffer.data, charBuffer.indices, charBuffer.sizes, Targets(items)
      ensures Valid() && ArenaGrown()
      ensures Turn(next, Some(event)) == AssignmentTurn(text, tokens, c)
      ensures charBuffer.strings == old(charBuffer.strings) + [NameOf(event)]
      ensures items == EventItems(old(items), event)
      ensures forall t :: t in old(Targets(items)) ==> t[..] == EventTarget(old(items), event, t, old(t[..]))
    {
      var name, strIdx := InternName(text, tokens, c.idx);
      next, event := AssignTurn(text, tokens, c, name, strIdx);
    }

    /** A NAME followed by anything but `:`: intern the name, then open a category or skip. */
    method OtherNameTurn(text: seq<char>, tokens: seq<Token>, c: Cursor) returns (next: Cursor, ghost event: Event)
      requires Valid() && c.idx + 1 < |tokens| && tokens[c.idx].Name? && NamesInText(text, tokens, 0)
      requires c.strings == charBuffer.count
      modifies charBuffer, charBuffer.data, charBuffer.indices, charBuffer.sizes
      ensures Valid() && ArenaGrown()
      ensures Turn(next, Some(event)) == HeaderOrSkipTurn(text, tokens, c)
      ensures charBuffer.strings == old(charBuffer.strings) + [NameOf(event)]
    {
      var name, strIdx := InternName(text, tokens, c.idx);
      next, event := HeaderOrSkip(text, tokens, c, name, strIdx);
    }

    /** `twk_add_string` on the characters of the NAME token at `i`: the name enters the arena. */
    method InternName(text: seq<char>, tokens: seq<Token>, i: nat) returns (name: seq<char>, strIdx: nat)
      requires charBuffer.Valid() && i < |tokens| && tokens[i].Name? && NamesInText(text, tokens, 0)
      modifies charBuffer, charBuffer.data, charBuffer.indices, charBuffer.sizes
      ensures charBuffer.Valid() && ArenaGrown() && name == TokenText(text, tokens, i)
      ensures strIdx == old(charBuffer.count) && charBuffer.count == old(charBuffer.count) + 1
      ensures charBuffer.strings == old(charBuffer.strings) + [name]
    {
      var t := tokens[i];
      assert NameSpan(text, t.index, t.size);
      name := text[t.index..t.index + t.size];
      assert NulFree(name) by {
        forall k | 0 <= k < |name| ensures name[k] != '\0' {
          assert name[k] == text[t.index + k];
        }
      }
      strIdx := charBuffer.AddString(name);
    }

    /**
     * The other successors of a NAME: `{` makes the name the current category
     * (its hash and arena index), anything else is skipped with the name.
     */
    method HeaderOrSkip(text: seq<char>, tokens: seq<Token>, c: Cursor, name: seq<char>, strIdx: nat)
      returns (next: Cursor, ghost event: Event)
      requires c.idx + 1 < |tokens| && tokens[c.idx].Name? && NamesInText(text, tokens, 0)
      requires name == TokenText(text, tokens, c.idx) && strIdx == c.strings
      ensures Turn(next, Some(event)) == HeaderOrSkipTurn(text, tokens, c)
    {
      if tokens[c.idx + 1].OpenBraces? {
        var h := ComputeFnv1a(name, FnvSeed);
        next, event := Cursor(c.idx + 1, h, strIdx, c.strings + 1), Header(name);
      } else {
        next, event := c.(idx := c.idx + 2, strings := c.strings + 1), Skipped(name);
      }
    }

    /** The assignment branch of a NAME turn, once its name is interned at `strIdx`. */
    method AssignTurn(text: seq<char>, tokens: seq<Token>, c: Cursor, name: seq<char>, strIdx: nat)
      returns (next: Cursor, ghost event: Event)
      requires c.idx + 2 < |tokens| && tokens[c.idx].Name? && NamesInText(text, tokens, 0)
      requires name == TokenText(text, tokens, c.idx) && strIdx == c.strings
      requires AllFit(items) && WriteDefined(items, AssignmentTurn(text, tokens, c).event.value.assignment)
      modifies this`items, Targets(items)
      ensures AllFit(items)
      ensures Turn(next, Some(event)) == AssignmentTurn(text, tokens, c)
      ensures items == EventItems(old(items), event)
      ensures forall t :: t in old(Targets(items)) ==> t[..] == EventTarget(old(items), event, t, old(t[..]))
    {
      var values, e := CollectValues(tokens, c.idx + 2);
      var a := Assignment(c.catHash, c.category, name, strIdx, tokens[c.idx].size, values);
      AssignmentTurnIs(text, tokens, c, name, values, e);
      SetValue(a);
      next, event := c.(idx := e, strings := c.strings + 1), Assigned(a);
    }

    /** The parse of `tokens` from the current arena count is defined, writes included. */
    ghost predicate TokensParsable(text: seq<char>, tokens: seq<Token>)
      reads this`items, charBuffer
    {
      && NamesInText(text, tokens, 0)
      && ParseTokens(text, tokens, charBuffer.count).Some?
      && AllWritesDefined(items, Assignments(ParseTokens(text, tokens, charBuffer.count).value))
    }

    /**
     * The cursor loop of `twk_parse`: interns the names, and makes the
     * `twk_set_value` calls, of the events the parse of `tokens` produces, in order.
     */
    method Parse(text: seq<char>, tokens: seq<Token>)
      requires Valid() && TokensParsable(text, tokens)
      modifies this`items, charBuffer, charBuffer.data, charBuffer.indices, charBuffer.sizes, Targets(items)
      ensures Valid() && ArenaGrown()
      ensures var ev := ParseTokens(text, tokens, old(charBuffer.count)).value;
        && charBuffer.strings == old(charBuffer.strings) + Names(ev)
        && items == ItemsAfter(old(items), Assignments(ev))
        && forall t :: t in old(Targets(items)) ==> t[..] == TargetAfter(old(items), Assignments(ev), t, old(t[..]))
    {
      ghost var items0, strings0 := items, charBuffer.strings;
      ghost var snapshot := map t | t in Targets(items) :: t[..];
      ghost var all := ParseTokens(text, tokens, charBuffer.count).value;
      ghost var done: seq<Event> := [];
      var c := Start(charBuffer.count);
      assert all == [] + ParseFrom(text, tokens, c).value;
      while c.idx < |tokens|
        invariant Valid() && ArenaGrown() && c.idx <= |tokens| && c.strings == charBuffer.count
        invariant ParseFrom(text, tokens, c).Some?
        invariant all == done + ParseFrom(text, tokens, c).value
        invariant charBuffer.strings == strings0 + Names(done)
        invariant items == ItemsAfter(items0, Assignments(done))
        invariant TargetsHold(items0, Assignments(done), snapshot)
        invariant Targets(items) == Targets(items0)
        decreases |tokens| - c.idx
      {
        c, done := ParseLoopTurn(text, tokens, c, all, done, items0, strings0, snapshot);
      }
      assert done == all;
    }

    /** The caller memory holds what the writes `assignments` leave in it, from the contents `snapshot`. */
    ghost predicate TargetsHold(items0: seq<Item>, assignments: seq<Assignment>, snapshot: map<array<real>, seq<real>>)
      reads Targets(items0)
    {
      forall t :: t in Targets(items0) ==> t in snapshot && t[..] == TargetAfter(items0, assignments, t, snapshot[t])
    }

    /** One turn of the loop of `Parse`, keeping its invariant. */
    method ParseLoopTurn(text: seq<char>, tokens: seq<Token>, c: Cursor, ghost all: seq<Event>, ghost done: seq<Event>,
                         ghost items0: seq<Item>, ghost strings0: seq<seq<char>>,
                         ghost snapshot: map<array<real>, seq<real>>)
      returns (next: Cursor, ghost done': seq<Event>)
      requires Valid() && c.idx < |tokens| && c.strings == charBuffer.count && NamesInText(text, tokens, 0)
      requires ParseFrom(text, tokens, c).Some? && all == done + ParseFrom(text, tokens, c).value
      requires AllWritesDefined(items0, Assignments(all))
      requires charBuffer.strings == strings0 + Names(done)
      requires items == ItemsAfter(items0, Assignments(done))
      requires TargetsHold(items0, Assignments(done), snapshot)
      requires Targets(items) == Targets(items0)
      modifies this`items, charBuffer, charBuffer.data, charBuffer.indices, charBuffer.sizes, Targets(items)
      ensures Valid() && ArenaGrown() && c.idx < next.idx <= |tokens| && next.strings == charBuffer.count
      ensures ParseFrom(text, tokens, next).Some? && all == done' + ParseFrom(text, tokens, next).value
      ensures charBuffer.strings == strings0 + Names(done')
      ensures items == ItemsAfter(items0, Assignments(done'))
      ensures TargetsHold(items0, Assignments(done'), snapshot)
      ensures Targets(items) == Targets(items0)
    {
      ParseStepFacts(text, tokens, c, all, done, items0);
      ghost var itemsBefore, stringsBefore := items, charBuffer.strings;
      ghost var before := map t | t in Targets(items0) :: t[..];
      ghost var event;
      next, event := ParseTurnAt(text, tokens, c);
      done' := done + EmitEvent(event);
      StringsStep(strings0, done, EmitEvent(event), stringsBefore, charBuffer.strings);
      ItemsStep(items0, done, EmitEvent(event), itemsBefore, items);
      ghost var after := map t | t in Targets(items0) :: t[..];
      TargetsStep(items0, itemsBefore, done, EmitEvent(event), snapshot, before, after);
    }

    /** `text` tokenizes, and the parse of its tokens from the current state is defined. */
    ghost predicate TextParsable(text: seq<char>)
      reads this`items, charBuffer
    {
      && Terminated(text)
      && TokensFrom(text, 0).Some?
      && TokensParsable(text, TokensFrom(text, 0).value)
    }

    /** The events the parse of `text` produces from the current state. */
    ghost function ParsedEvents(text: seq<char>): seq<Event>
      requires TextParsable(text)
      reads this`items, charBuffer
    {
      ParseTokens(text, TokensFrom(text, 0).value, charBuffer.count).value
    }

    /**
     * `twk_parse`: tokenize the whole text, then run the cursor loop over the
     * tokens; the names of its events are interned and its assignments made.
     */
    method ParseText(text: seq<char>)
      requires Valid() && TextParsable(text)
      modifies this`items, charBuffer, charBuffer.data, charBuffer.indices, charBuffer.sizes, Targets(items)
      ensures Valid() && ArenaGrown()
      ensures var ev := old(ParsedEvents(text));
        && charBuffer.strings == old(charBuffer.strings) + Names(ev)
        && items == ItemsAfter(old(items), Assignments(ev))
        && forall t :: t in old(Targets(items)) ==> t[..] == TargetAfter(old(items), Assignments(ev), t, old(t[..]))
    {
      var tokens := Tokenize(text);
      Parse(text, tokens);
    }

    /**
     * `twk_save`: walks the items in order, opening a block with the category
     * name whenever the category name index changes (closing the previous one
     * first) and writing one entry per item, then closes the last block.
     */
    method Save() returns (lines: seq<Line>)
      requires Valid() && Saveable(items, charBuffer.count)
      ensures lines == SaveLines(items, charBuffer.strings, PrintedAll(items))
    {
      lines := WriteLines(items, charBuffer);
    }

    /**
     * `twk_requires_loading`: true before the first load; afterwards true, and the
     * remembered time advanced to `now`, exactly when the file's modification
     * time could be read and is later than the remembered one.
     */
    method RequiresLoading(now: Option<int>) returns (r: bool)
      modifies this`filetime
      ensures r == NeedsReload(loaded, old(filetime), now)
      ensures filetime == if loaded && r then now.value else old(filetime)
      ensures old(filetime) <= filetime
      ensures loaded ==> !NeedsReload(loaded, filetime, now)
    {
      if !loaded {
        return true;
      }
      if now.Some? && filetime < now.value {
        filetime := now.value;
        return true;
      }
      return false;
    }

    /**
     * `twk_load`: when a reload is due, marks the context loaded, reads the file
     * (`file`, whose modification time `readTime` is taken when it can be read)
     * and parses its text with a terminating NUL. The C code parses a null text
     * when the file cannot be opened, so the model requires it to be present then.
     */
    method Load(now: Option<int>, file: Option<seq<char>>, readTime: Option<int>) returns (r: bool)
      requires Valid()
      requires NeedsReload(loaded, filetime, now) ==> file.Some? && TextParsable(file.value + ['\0'])
      modifies this`filetime, this`loaded, this`items, charBuffer, charBuffer.data, charBuffer.indices, charBuffer.sizes
      modifies Targets(items)
      ensures Valid() && ArenaGrown() && loaded
      ensures r == NeedsReload(old(loaded), old(filetime), now)
      ensures !r ==> && filetime == old(filetime) && items == old(items)
                     && charBuffer.strings == old(charBuffer.strings)
                     && forall t :: t in old(Targets(items)) ==> t[..] == old(t[..])
      ensures r ==> filetime == if readTime.Some? then readTime.value
                               else if old(loaded) then now.value else old(filetime)
      ensures r ==> var ev := old(ParsedEvents(file.value + ['\0']));
        && charBuffer.strings == old(charBuffer.strings) + Names(ev)
        && items == ItemsAfter(old(items), Assignments(ev))
        && forall t :: t in old(Targets(items)) ==> t[..] == TargetAfter(old(items), Assignments(ev), t, old(t[..]))
    {
      r := StartLoad(now, readTime);
      if r {
        ParseText(file.value + ['\0']);
      }
    }

    /** The reload decision of `twk_load` and, when it is taken, the state updates before the parse. */
    method StartLoad(now: Option<int>, readTime: Option<int>) returns (r: bool)
      modifies this`filetime, this`loaded
      ensures loaded && r == NeedsReload(old(loaded), old(filetime), now)
      ensures filetime == if !r then old(filetime) else if readTime.Some? then readTime.value
                          else if old(loaded) then now.value else old(filetime)
    {
      r := RequiresLoading(now);
      if r {
        loaded := true;
        if readTime.Some? {
          filetime := readTime.value;
        }
      }
    }

    /** The interned strings after a turn: the names of the events so far, in order. */
    static lemma StringsStep(strings0: seq<seq<char>>, done: seq<Event>, emitted: seq<Event>,
                             stringsBefore: seq<seq<char>>, stringsAfter: seq<seq<char>>)
      requires stringsBefore == strings0 + Names(done)
      requires stringsAfter == stringsBefore + Names(emitted)
      ensures stringsAfter == strings0 + Names(done + emitted)
    {
      NamesAppend(done, emitted);
    }

    /** The binding table after a turn: the writes of the events so far, applied in order. */
    static lemma ItemsStep(items0: seq<Item>, done: seq<Event>, emitted: seq<Event>,
                           itemsBefore: seq<Item>, itemsAfter: seq<Item>)
      requires itemsBefore == ItemsAfter(items0, Assignments(done))
      requires itemsAfter == ItemsAfter(itemsBefore, Assignments(emitted))
      ensures itemsAfter == ItemsAfter(items0, Assignments(done + emitted))
      ensures SameBindings(items0, itemsBefore)
      ensures Targets(itemsAfter) == Targets(items0)
    {
      AssignmentsAppend(done, emitted);
      ItemsAfterAppend(items0, Assignments(done), Assignments(emitted));
      ItemsAfterKeepsBindings(items0, Assignments(done));
      ItemsAfterKeepsBindings(items0, Assignments(done + emitted));
    }

    /** The contents of the targets after a turn, from those before it. */
    lemma TargetsStep(items0: seq<Item>, itemsBefore: seq<Item>, done: seq<Event>, emitted: seq<Event>,
                      snapshot: map<array<real>, seq<real>>, before: map<array<real>, seq<real>>,
                      after: map<array<real>, seq<real>>)
      requires SameBindings(items0, itemsBefore)
      requires forall t :: t in Targets(items0) ==>
        t in snapshot && t in before && before[t] == TargetAfter(items0, Assignments(done), t, snapshot[t])
      requires forall t :: t in Targets(items0) ==>
        t in after && after[t] == TargetAfter(itemsBefore, Assignments(emitted), t, before[t])
      ensures forall t :: t in Targets(items0) ==>
        t in snapshot && after[t] == TargetAfter(items0, Assignments(done + emitted), t, snapshot[t])
    {
      forall t | t in Targets(items0)
        ensures after[t] == TargetAfter(items0, Assignments(done + emitted), t, snapshot[t])
      {
        TargetStep(items0, itemsBefore, done, emitted, t, snapshot[t]);
      }
    }

    /** Before a turn: it is defined, and its write is defined in the current table. */
    lemma ParseStepFacts(text: seq<char>, tokens: seq<Token>, c: Cursor, all: seq<Event>, done: seq<Event>,
                         items0: seq<Item>)
      requires c.idx < |tokens| && NamesInText(text, tokens, 0)
      requires ParseFrom(text, tokens, c).Some? && all == done + ParseFrom(text, tokens, c).value
      requires AllWritesDefined(items0, Assignments(all))
      requires items == ItemsAfter(items0, Assignments(done))
      ensures ParseTurn(text, tokens, c).Some?
      ensures var turn := ParseTurn(text, tokens, c).value;
        && ParseFrom(text, tokens, turn.next).Some?
        && all == (done + EmitEvent(turn.event)) + ParseFrom(text, tokens, turn.next).value
        && TurnDefined(turn)
    {
      var turn := ParseTurn(text, tokens, c).value;
      var rest := ParseFrom(text, tokens, turn.next).value;
      assert ParseFrom(text, tokens, c).value == EmitEvent(turn.event) + rest;
      assert all == (done + EmitEvent(turn.event)) + rest;
      if turn.event.Some? && turn.event.value.Assigned? {
        var a := turn.event.value.assignment;
        AssignmentsAppend(done, EmitEvent(turn.event) + rest);
        AssignmentsAppend(EmitEvent(turn.event), rest);
        assert Assignments(EmitEvent(turn.event)) == [a] by {
          assert EmitEvent(turn.event)[..0] == [];
        }
        var k := |Assignments(done)|;
        assert Assignments(all)[k] == a;
        assert WriteDefined(items0, a);
        ItemsAfterKeepsBindings(items0, Assignments(done));
        WriteOfSameBindings(items0, items, a);
      }
    }

    /** After a turn: each target holds what one more batch of writes leaves in it. */
    lemma TargetStep(items0: seq<Item>, itemsBefore: seq<Item>, done: seq<Event>, emitted: seq<Event>,
                     t: array<real>, s: seq<real>)
      requires SameBindings(items0, itemsBefore)
      ensures TargetAfter(itemsBefore, Assignments(emitted), t, TargetAfter(items0, Assignments(done), t, s))
        == TargetAfter(items0, Assignments(done + emitted), t, s)
    {
      AssignmentsAppend(done, emitted);
      TargetAfterAppend(items0, Assignments(done), Assignments(emitted), t, s);
      TargetAfterSameBindings(items0, itemsBefore, Assignments(emitted), t, TargetAfter(items0, Assignments(done), t, s));
    }

  }
}
