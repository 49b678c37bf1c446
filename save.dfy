/**
 * The block structure `twk_save` writes: items in table order, a `name {` header
 * whenever the category name index changes, a `}` before every header but the
 * first and one `}` at the end. Each entry line records the item it prints and
 * the values it prints; their `%g`/`%d` formatting is not modelled.
 */
module Saving {
  import opened Wrappers
  import opened Bindings

  datatype Line =
    | Open(name: seq<char>)
    | Entry(name: seq<char>, item: nat, values: seq<real>)
    | Close

  /**
   * What `twk_save` needs to read valid arena entries: every item has been
   * assigned, so its name index and category name index name arena strings or,
   * for an assignment before any header, the category index is -1; and once a
   * category is set the next item's is not -1 again, since that change would
   * read `indices[-1]`.
   */
  predicate Saveable(items: seq<Item>, count: nat)
  {
    && (forall i :: 0 <= i < |items| ==>
          && items[i].nameIndex.Some? && 0 <= items[i].nameIndex.value < count
          && items[i].categoryNameIndex.Some? && -1 <= items[i].categoryNameIndex.value < count)
    && (forall i :: 0 < i < |items| && items[i - 1].categoryNameIndex != Some(-1) ==>
          items[i].categoryNameIndex != Some(-1))
  }

  /** The `currentCategory` of the loop when it reaches item `i`. */
  function CurrentAt(items: seq<Item>, i: nat): int
    requires i <= |items|
    requires forall k :: 0 <= k < |items| ==> items[k].categoryNameIndex.Some?
  {
    if i == 0 then -1 else items[i - 1].categoryNameIndex.value
  }

  /**
   * What the type switch prints for an item: its one to four values, or the
   * `arrayLength` values of an array (none when that length is negative).
   */
  function Printed(item: Item): seq<real>
    reads item.target
  {
    if Arity(item) < 0 then [] else item.target[..]
  }

  /** The lines written before item `i`'s entry: a `}` and a header when its category changes. */
  function BlockHeader(items: seq<Item>, strings: seq<seq<char>>, i: nat): seq<Line>
    requires i < |items| && Saveable(items, |strings|)
  {
    var c := items[i].categoryNameIndex.value;
    var current := CurrentAt(items, i);
    if c == current then [] else (if current != -1 then [Close] else []) + [Open(strings[c])]
  }

  /** The values of every item, in table order. */
  function PrintedAll(items: seq<Item>): (r: seq<seq<real>>)
    reads Targets(items)
    ensures |r| == |items|
    ensures forall k :: 0 <= k < |items| ==> r[k] == Printed(items[k])
  {
    if items == [] then []
    else
      var front := items[..|items| - 1];
      assert Targets(front) <= Targets(items) by {
        forall o | o in Targets(front) ensures o in Targets(items) {
          var j :| 0 <= j < |front| && front[j].target == o;
          assert items[j].target == o;
        }
      }
      PrintedAll(front) + [Printed(items[|items| - 1])]
  }

  /**
   * The lines the item loop writes from item `i` on, when item `k` prints
   * `printed[k]`.
   */
  function SaveFrom(items: seq<Item>, strings: seq<seq<char>>, printed: seq<seq<real>>, i: nat): seq<Line>
    requires i <= |items| && Saveable(items, |strings|) && |printed| == |items|
    decreases |items| - i
  {
    if i == |items| then []
    else
      BlockHeader(items, strings, i)
      + [Entry(strings[items[i].nameIndex.value], i, printed[i])]
      + SaveFrom(items, strings, printed, i + 1)
  }

  /** Everything `twk_save` writes: the item loop and the final `}`. */
  function SaveLines(items: seq<Item>, strings: seq<seq<char>>, printed: seq<seq<real>>): (r: seq<Line>)
    requires Saveable(items, |strings|) && |printed| == |items|
    ensures |r| > 0 && r[|r| - 1] == Close
  {
    SaveFrom(items, strings, printed, 0) + [Close]
  }

  /**
   * Reading `lines` from outside (`false`) or inside (`true`) a block: the state
   * after them, or `None` when a header opens inside a block or a `}` closes none.
   */
  function BlockState(lines: seq<Line>, inBlock: bool): Option<bool>
  {
    if lines == [] then Some(inBlock)
    else
      match lines[0]
      case Open(_) => if inBlock then None else BlockState(lines[1..], true)
      case Close => if inBlock then BlockState(lines[1..], false) else None
      case Entry(_, _, _) => BlockState(lines[1..], inBlock)
  }

  /** The item indices of the entries, in order. */
  function Listed(lines: seq<Line>): seq<nat>
  {
    if lines == [] then []
    else (if lines[0].Entry? then [lines[0].item] else []) + Listed(lines[1..])
  }

  /** `lo, lo + 1, ..., hi - 1`. */
  function Indices(lo: nat, hi: nat): seq<nat>
    decreases hi - lo
  {
    if lo < hi then [lo] + Indices(lo + 1, hi) else []
  }

  /** Some item has a category, so at least one header is written. */
  predicate HasCategory(items: seq<Item>)
    requires forall k :: 0 <= k < |items| ==> items[k].categoryNameIndex.Some?
  {
    exists k :: 0 <= k < |items| && items[k].categoryNameIndex.value != -1
  }
}

module SavingFacts {
  import opened Wrappers
  import opened Bindings
  import opened Saving

  lemma AppendAssoc(a: seq<Line>, b: seq<Line>, c: seq<Line>)
    ensures (a + b) + c == a + (b + c)
  {
  }

  /** What one turn of the item loop of `twk_save` appends keeps the loop invariant. */
  lemma SaveLoopStep(items: seq<Item>, strings: seq<seq<char>>, printed: seq<seq<real>>, i: nat,
                     lines: seq<Line>, step: seq<Line>)
    requires i < |items| && Saveable(items, |strings|) && |printed| == |items|
    requires lines + SaveFrom(items, strings, printed, i) == SaveFrom(items, strings, printed, 0)
    requires step == BlockHeader(items, strings, i) + [Entry(strings[items[i].nameIndex.value], i, printed[i])]
    ensures (lines + step) + SaveFrom(items, strings, printed, i + 1) == SaveFrom(items, strings, printed, 0)
  {
    SaveFromStep(items, strings, printed, i);
    AppendAssoc(lines, step, SaveFrom(items, strings, printed, i + 1));
  }

  /** One turn of the item loop: the header lines, the entry, then the rest. */
  lemma SaveFromStep(items: seq<Item>, strings: seq<seq<char>>, printed: seq<seq<real>>, i: nat)
    requires i < |items| && Saveable(items, |strings|) && |printed| == |items|
    ensures SaveFrom(items, strings, printed, i) ==
      BlockHeader(items, strings, i)
      + [Entry(strings[items[i].nameIndex.value], i, printed[i])]
      + SaveFrom(items, strings, printed, i + 1)
  {
  }

  lemma {:induction false} BlockStateAppend(a: seq<Line>, b: seq<Line>, inBlock: bool)
    ensures BlockState(a + b, inBlock) ==
      if BlockState(a, inBlock).None? then None else BlockState(b, BlockState(a, inBlock).value)
    decreases |a|
  {
    if a == [] {
      assert a + b == b;
    } else {
      assert (a + b)[0] == a[0] && (a + b)[1..] == a[1..] + b;
      match a[0]
      case Open(_) => BlockStateAppend(a[1..], b, true);
      case Close => BlockStateAppend(a[1..], b, false);
      case Entry(_, _, _) => BlockStateAppend(a[1..], b, inBlock);
    }
  }

  lemma {:induction false} ListedAppend(a: seq<Line>, b: seq<Line>)
    ensures Listed(a + b) == Listed(a) + Listed(b)
    decreases |a|
  {
    if a == [] {
      assert a + b == b;
    } else {
      assert (a + b)[0] == a[0] && (a + b)[1..] == a[1..] + b;
      ListedAppend(a[1..], b);
    }
  }

  /** The loop from item `i` on keeps the blocks nested: it ends inside a block iff the last category is not -1. */
  lemma {:induction false} SaveFromBlocks(items: seq<Item>, strings: seq<seq<char>>, printed: seq<seq<real>>, i: nat)
    requires i <= |items| && Saveable(items, |strings|) && |printed| == |items|
    ensures BlockState(SaveFrom(items, strings, printed, i), CurrentAt(items, i) != -1) ==
      Some(CurrentAt(items, |items|) != -1)
    decreases |items| - i
  {
    if i < |items| {
      var c := items[i].categoryNameIndex.value;
      var current := CurrentAt(items, i);
      var header := BlockHeader(items, strings, i);
      var entry := [Entry(strings[items[i].nameIndex.value], i, printed[i])];
      var rest := SaveFrom(items, strings, printed, i + 1);
      assert SaveFrom(items, strings, printed, i) == header + (entry + rest);
      SaveFromBlocks(items, strings, printed, i + 1);
      BlockStateAppend(header, entry + rest, current != -1);
      BlockStateAppend(entry, rest, c != -1);
      if c != current {
        assert c != -1;
        if current != -1 {
          assert BlockState(header, true) == BlockState([Open(strings[c])], false);
        }
      }
    }
  }

  /** Once an item has a category, every later item has one. */
  lemma {:induction false} CategoryPersists(items: seq<Item>, count: nat, k: nat, m: nat)
    requires Saveable(items, count) && k <= m < |items|
    requires items[k].categoryNameIndex != Some(-1)
    ensures items[m].categoryNameIndex != Some(-1)
    decreases m - k
  {
    if k < m {
      CategoryPersists(items, count, k, m - 1);
    }
  }

  /** The last item's category is -1 only when every item's is. */
  lemma LastCategory(items: seq<Item>, count: nat)
    requires Saveable(items, count)
    ensures CurrentAt(items, |items|) != -1 <==> HasCategory(items)
  {
    if HasCategory(items) {
      var k :| 0 <= k < |items| && items[k].categoryNameIndex.value != -1;
      CategoryPersists(items, count, k, |items| - 1);
    }
  }

  /**
   * `twk_save` writes balanced blocks exactly when some item has a category:
   * every header is closed before the next one and the last by the final `}`.
   * Otherwise the final `}` closes nothing.
   */
  lemma SaveBalanced(items: seq<Item>, strings: seq<seq<char>>, printed: seq<seq<real>>)
    requires Saveable(items, |strings|) && |printed| == |items|
    ensures BlockState(SaveLines(items, strings, printed), false) == if HasCategory(items) then Some(false) else None
  {
    SaveFromBlocks(items, strings, printed, 0);
    BlockStateAppend(SaveFrom(items, strings, printed, 0), [Close], false);
    LastCategory(items, |strings|);
  }

  lemma {:induction false} SaveFromLists(items: seq<Item>, strings: seq<seq<char>>, printed: seq<seq<real>>, i: nat)
    requires i <= |items| && Saveable(items, |strings|) && |printed| == |items|
    ensures Listed(SaveFrom(items, strings, printed, i)) == Indices(i, |items|)
    decreases |items| - i
  {
    if i < |items| {
      var header := BlockHeader(items, strings, i);
      var entry := [Entry(strings[items[i].nameIndex.value], i, printed[i])];
      var rest := SaveFrom(items, strings, printed, i + 1);
      SaveFromStep(items, strings, printed, i);
      AppendAssoc(header, entry, rest);
      SaveFromLists(items, strings, printed, i + 1);
      ListedAppend(header, entry + rest);
      ListedAppend(entry, rest);
      assert Listed(entry) == [i];
      HeaderListsNothing(items, strings, i);
    }
  }

  lemma HeaderListsNothing(items: seq<Item>, strings: seq<seq<char>>, i: nat)
    requires i < |items| && Saveable(items, |strings|)
    ensures Listed(BlockHeader(items, strings, i)) == []
  {
    var c := items[i].categoryNameIndex.value;
    var current := CurrentAt(items, i);
    if c != current {
      ListedAppend(if current != -1 then [Close] else [], [Open(strings[c])]);
    }
  }

  lemma {:induction false} IndicesAt(lo: nat, hi: nat)
    requires lo <= hi
    ensures |Indices(lo, hi)| == hi - lo
    ensures forall k :: 0 <= k < hi - lo ==> Indices(lo, hi)[k] == lo + k
    decreases hi - lo
  {
    if lo < hi {
      IndicesAt(lo + 1, hi);
    }
  }

  /** Every item is written exactly once, in table order. */
  lemma SaveListsItems(items: seq<Item>, strings: seq<seq<char>>, printed: seq<seq<real>>)
    requires Saveable(items, |strings|) && |printed| == |items|
    ensures |Listed(SaveLines(items, strings, printed))| == |items|
    ensures forall k :: 0 <= k < |items| ==> Listed(SaveLines(items, strings, printed))[k] == k
  {
    SaveFromLists(items, strings, printed, 0);
    ListedAppend(SaveFrom(items, strings, printed, 0), [Close]);
    assert Listed([Close]) == [];
    IndicesAt(0, |items|);
  }
}

module SaveLoop {
  import opened Bindings
  import opened CharBuffers
  import opened Saving
  import opened SavingFacts

  /**
   * The item loop of `twk_save` over `items` with names from `buffer`: a `}`
   * before every change of category but the first, the category's `name {`
   * line, one entry per item, and the final `}`.
   */
  method WriteLines(items: seq<Item>, buffer: CharBuffer) returns (lines: seq<Line>)
    requires buffer.Valid() && Saveable(items, buffer.count)
    ensures lines == SaveLines(items, buffer.strings, PrintedAll(items))
  {
    ghost var strings := buffer.strings;
    ghost var printed := PrintedAll(items);
    assert buffer.count == |strings|;
    var current := -1;
    lines := [];
    var i := 0;
    while i < |items|
      invariant 0 <= i <= |items|
      invariant current == CurrentAt(items, i)
      invariant lines + SaveFrom(items, strings, printed, i) == SaveFrom(items, strings, printed, 0)
    {
      assert Printed(items[i]) == old(Printed(items[i])) == printed[i];
      var step := SaveTurn(items, buffer, i, current, lines, printed);
      lines := lines + step;
      current := items[i].categoryNameIndex.value;
      i := i + 1;
    }
    assert SaveFrom(items, strings, printed, i) == [];
    assert lines == lines + SaveFrom(items, strings, printed, i);
    lines := lines + [Close];
    assert PrintedAll(items) == printed by {
      forall k | 0 <= k < |items| ensures PrintedAll(items)[k] == printed[k] {
        assert items[k].target[..] == old(items[k].target[..]);
      }
    }
  }

  /** One turn of the item loop: the header lines when the category changes, then the entry of item `i`. */
  method SaveTurn(items: seq<Item>, buffer: CharBuffer, i: nat, current: int,
                  ghost lines: seq<Line>, ghost printed: seq<seq<real>>) returns (step: seq<Line>)
    requires buffer.Valid() && Saveable(items, buffer.count)
    requires i < |items| && current == CurrentAt(items, i)
    requires |printed| == |items| && printed[i] == Printed(items[i])
    requires |buffer.strings| == buffer.count
    requires lines + SaveFrom(items, buffer.strings, printed, i) == SaveFrom(items, buffer.strings, printed, 0)
    ensures (lines + step) + SaveFrom(items, buffer.strings, printed, i + 1) == SaveFrom(items, buffer.strings, printed, 0)
  {
    var item := items[i];
    var c := item.categoryNameIndex.value;
    var header := [];
    if c != current {
      if current != -1 {
        header := [Close];
      }
      header := header + [Open(buffer.Get(c))];
    }
    var values := if Arity(item) < 0 then [] else item.target[..];
    step := header + [Entry(buffer.Get(item.nameIndex.value), i, values)];
    SaveLoopStep(items, buffer.strings, printed, i, lines, step);
  }
}
