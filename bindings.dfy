/**
 * The binding table of `ds_tweakable.h`: one `GameSettingsItem` per registered
 * variable, the first-match lookup `twk_find` and what `twk_set_value` writes.
 * Caller memory is an `array<real>` per item whose length is the item's arity.
 */
module Bindings {
  import opened Wrappers
  import opened Fnv

  /** `GameSettingsItem::SettingsType`; `ST_NONE` is never given to an item and is left out. */
  datatype SettingsType = Float | Int | UInt | Vec2 | Vec3 | Vec4 | Color | Array

  /**
   * `GameSettingsItem`. The name index, the name length and the category name index
   * are left uninitialised by registration and only set by `twk_set_value`: `None`
   * stands for "never written".
   */
  datatype Item = Item(
    categoryHash: bv32,
    categoryNameIndex: Option<int>,
    hash: bv32,
    settingsType: SettingsType,
    nameIndex: Option<int>,
    length: Option<int>,
    target: array<real>,
    arrayLength: int)

  /** How many values an assignment must carry for `twk_set_value` to write the target. */
  function Arity(item: Item): int
  {
    match item.settingsType
    case Float | Int | UInt => 1
    case Vec2 => 2
    case Vec3 => 3
    case Vec4 | Color => 4
    case Array => item.arrayLength
  }

  /** The caller's memory has room for the item's values (an array of negative size is never written). */
  predicate Fits(item: Item)
  {
    Arity(item) < 0 || item.target.Length == Arity(item)
  }

  predicate AllFit(items: seq<Item>)
  {
    forall i :: 0 <= i < |items| ==> Fits(items[i])
  }

  /** The caller memory the table may write. */
  function Targets(items: seq<Item>): set<array<real>>
  {
    set i | 0 <= i < |items| :: items[i].target
  }

  predicate Matches(item: Item, categoryHash: bv32, hash: bv32)
  {
    item.hash == hash && item.categoryHash == categoryHash
  }

  /** The loop of `twk_find` from index `i` on. */
  function FindFrom(items: seq<Item>, categoryHash: bv32, hash: bv32, i: nat): (r: int)
    requires i <= |items|
    ensures r == -1 || i <= r < |items|
    ensures r >= 0 ==> Matches(items[r], categoryHash, hash)
    ensures r >= 0 ==> forall k :: i <= k < r ==> !Matches(items[k], categoryHash, hash)
    ensures r == -1 ==> forall k :: i <= k < |items| ==> !Matches(items[k], categoryHash, hash)
    decreases |items| - i
  {
    if i == |items| then -1
    else if Matches(items[i], categoryHash, hash) then i
    else FindFrom(items, categoryHash, hash, i + 1)
  }

  /**
   * `twk_find`: the lowest index whose name hash and category hash both match,
   * or -1 when none does.
   */
  function Find(items: seq<Item>, categoryHash: bv32, hash: bv32): (r: int)
    ensures -1 <= r < |items|
    ensures r >= 0 ==> Matches(items[r], categoryHash, hash)
    ensures r >= 0 ==> forall k :: 0 <= k < r ==> !Matches(items[k], categoryHash, hash)
    ensures r == -1 <==> forall k :: 0 <= k < |items| ==> !Matches(items[k], categoryHash, hash)
  {
    FindFrom(items, categoryHash, hash, 0)
  }

  /** `static_cast<int>` of a float: truncation toward zero. */
  function Trunc(x: real): (r: int)
    ensures x >= 0.0 ==> r as real <= x < r as real + 1.0
    ensures x < 0.0 ==> r as real - 1.0 < x <= r as real
  {
    if x >= 0.0 then x.Floor else -((-x).Floor)
  }

  /**
   * The float-to-integer conversions of `twk_set_value` have a meaning only when the
   * truncated value fits the target type (32-bit `int`, 32-bit `uint32_t`).
   */
  predicate CastDefined(t: SettingsType, v: real)
  {
    match t
    case Int => -0x8000_0000 <= Trunc(v) <= 0x7FFF_FFFF
    case UInt => 0 <= Trunc(v) <= 0xFFFF_FFFF
    case _ => true
  }

  /** What `twk_set_value` stores when the value count matches the arity. */
  function Stored(item: Item, values: seq<real>): (r: seq<real>)
    requires |values| == Arity(item)
    ensures |r| == |values|
  {
    match item.settingsType
    case Int | UInt => [Trunc(values[0]) as real]
    case Color => [values[0] / 255.0, values[1] / 255.0, values[2] / 255.0, values[3] / 255.0]
    case _ => values
  }

  /** The arguments of one `twk_set_value` call. */
  datatype Assignment = Assignment(
    catHash: bv32,
    categoryNameIndex: int,
    name: seq<char>,
    nameIndex: int,
    length: int,
    values: seq<real>)

  /** The index `twk_set_value` looks the assignment up at. */
  function Target(items: seq<Item>, a: Assignment): int
  {
    Find(items, a.catHash, Fnv1a(a.name, FnvSeed))
  }

  /** The C code behind the assignment is defined: no out-of-range integer conversion. */
  predicate WriteDefined(items: seq<Item>, a: Assignment)
  {
    var i := Target(items, a);
    i < 0 || |a.values| != 1 || CastDefined(items[i].settingsType, a.values[0])
  }

  predicate AllWritesDefined(items: seq<Item>, assignments: seq<Assignment>)
  {
    forall k :: 0 <= k < |assignments| ==> WriteDefined(items, assignments[k])
  }

  /** The item fields `twk_set_value` updates, arity match or not. */
  function AssignedItems(items: seq<Item>, a: Assignment): (r: seq<Item>)
  {
    var i := Target(items, a);
    if i < 0 then items
    else items[i := items[i].(nameIndex := Some(a.nameIndex), length := Some(a.length),
                              categoryNameIndex := Some(a.categoryNameIndex))]
  }

  /** The write `twk_set_value` makes into caller memory, if the value count matches. */
  datatype Write = Write(target: array<real>, contents: seq<real>)

  function WriteOf(items: seq<Item>, a: Assignment): (r: Option<Write>)
    ensures r.Some? ==> r.value.target in Targets(items) && |r.value.contents| == |a.values|
  {
    var i := Target(items, a);
    if i >= 0 && |a.values| == Arity(items[i]) then Some(Write(items[i].target, Stored(items[i], a.values)))
    else None
  }

  /** The contents of target `t` after a write that had contents `s` before it. */
  function Apply(w: Option<Write>, t: array<real>, s: seq<real>): seq<real>
  {
    if w.Some? && w.value.target == t then w.value.contents else s
  }

  /** The item table after a sequence of `twk_set_value` calls, in order. */
  function ItemsAfter(items: seq<Item>, assignments: seq<Assignment>): seq<Item>
    decreases |assignments|
  {
    if assignments == [] then items
    else ItemsAfter(AssignedItems(items, assignments[0]), assignments[1..])
  }

  /** The contents of target `t` after a sequence of `twk_set_value` calls, in order. */
  function TargetAfter(items: seq<Item>, assignments: seq<Assignment>, t: array<real>, s: seq<real>): seq<real>
  {
    if assignments == [] then s
    else TargetAfter(items, assignments[1..], t, Apply(WriteOf(items, assignments[0]), t, s))
  }

  /** Two tables that agree on everything `twk_find` and the writes look at. */
  predicate SameBindings(items: seq<Item>, items': seq<Item>)
  {
    && |items| == |items'|
    && forall i :: 0 <= i < |items| ==>
         && items[i].categoryHash == items'[i].categoryHash
         && items[i].hash == items'[i].hash
         && items[i].settingsType == items'[i].settingsType
         && items[i].target == items'[i].target
         && items[i].arrayLength == items'[i].arrayLength
  }
}

/** What the binding table promises: lookup, registration, writes. */
module BindingFacts {
  import opened Wrappers
  import opened Fnv
  import opened Bindings

  lemma {:induction false} FindFromSameBindings(items: seq<Item>, items': seq<Item>, categoryHash: bv32, hash: bv32, i: nat)
    requires SameBindings(items, items') && i <= |items|
    ensures FindFrom(items, categoryHash, hash, i) == FindFrom(items', categoryHash, hash, i)
    decreases |items| - i
  {
    if i < |items| {
      FindFromSameBindings(items, items', categoryHash, hash, i + 1);
    }
  }

  /** `twk_find` depends only on the hashes, which `twk_set_value` never changes. */
  lemma FindSameBindings(items: seq<Item>, items': seq<Item>, categoryHash: bv32, hash: bv32)
    requires SameBindings(items, items')
    ensures Find(items, categoryHash, hash) == Find(items', categoryHash, hash)
  {
    FindFromSameBindings(items, items', categoryHash, hash, 0);
  }

  /** One `twk_set_value` keeps the bindings: only name index, length and category name index change. */
  lemma AssignedKeepsBindings(items: seq<Item>, a: Assignment)
    ensures SameBindings(items, AssignedItems(items, a))
    ensures AllFit(items) ==> AllFit(AssignedItems(items, a))
    ensures Targets(AssignedItems(items, a)) == Targets(items)
  {
    var r := AssignedItems(items, a);
    forall t | t in Targets(items) ensures t in Targets(r) {
      var i :| 0 <= i < |items| && items[i].target == t;
      assert r[i].target == t;
    }
    forall t | t in Targets(r) ensures t in Targets(items) {
      var i :| 0 <= i < |r| && r[i].target == t;
      assert items[i].target == t;
    }
  }

  lemma {:induction false} ItemsAfterKeepsBindings(items: seq<Item>, assignments: seq<Assignment>)
    ensures SameBindings(items, ItemsAfter(items, assignments))
    ensures AllFit(items) ==> AllFit(ItemsAfter(items, assignments))
    ensures Targets(ItemsAfter(items, assignments)) == Targets(items)
    decreases |assignments|
  {
    if assignments != [] {
      var next := AssignedItems(items, assignments[0]);
      AssignedKeepsBindings(items, assignments[0]);
      ItemsAfterKeepsBindings(next, assignments[1..]);
    }
  }

  /** The writes of a call do not depend on earlier calls: they read only the bindings. */
  lemma WriteOfSameBindings(items: seq<Item>, items': seq<Item>, a: Assignment)
    requires SameBindings(items, items')
    ensures WriteOf(items, a) == WriteOf(items', a)
    ensures WriteDefined(items, a) == WriteDefined(items', a)
  {
    FindSameBindings(items, items', a.catHash, Fnv1a(a.name, FnvSeed));
  }

  lemma {:induction false} FindFromAfterAppend(items: seq<Item>, item: Item, categoryHash: bv32, hash: bv32, i: nat)
    requires i <= |items|
    ensures var old_ := FindFrom(items, categoryHash, hash, i);
      FindFrom(items + [item], categoryHash, hash, i) ==
        if old_ >= 0 then old_
        else if Matches(item, categoryHash, hash) then |items| else -1
    decreases |items| - i
  {
    var all := items + [item];
    if i == |items| {
      assert all[i] == item;
      assert FindFrom(all, categoryHash, hash, i + 1) == -1;
    } else {
      assert all[i] == items[i];
      FindFromAfterAppend(items, item, categoryHash, hash, i + 1);
    }
  }

  /**
   * Registration appends: looking up in the table with one more item finds the
   * old match if there was one (a duplicate registration is shadowed by the first),
   * otherwise the new item if it matches.
   */
  lemma FindAfterAppend(items: seq<Item>, item: Item, categoryHash: bv32, hash: bv32)
    ensures var old_ := Find(items, categoryHash, hash);
      Find(items + [item], categoryHash, hash) ==
        if old_ >= 0 then old_
        else if Matches(item, categoryHash, hash) then |items| else -1
  {
    FindFromAfterAppend(items, item, categoryHash, hash, 0);
  }

  /**
   * A write happens only when the value count equals the arity, writes only the
   * item that `twk_find` returns, and stores the values as the type demands:
   * truncated toward zero for int and uint, divided by 255 for a colour, as given
   * otherwise.
   */
  lemma WriteOfCharacterised(items: seq<Item>, a: Assignment)
    ensures var i := Find(items, a.catHash, Fnv1a(a.name, FnvSeed));
      WriteOf(items, a).Some? <==> (i >= 0 && |a.values| == Arity(items[i]))
    ensures var i := Find(items, a.catHash, Fnv1a(a.name, FnvSeed));
      WriteOf(items, a).Some? ==>
        && WriteOf(items, a).value.target == items[i].target
        && var c := WriteOf(items, a).value.contents;
        && |c| == |a.values|
        && (items[i].settingsType in {Int, UInt} ==> c == [Trunc(a.values[0]) as real])
        && (items[i].settingsType == Color ==> forall k :: 0 <= k < 4 ==> c[k] * 255.0 == a.values[k])
        && (items[i].settingsType !in {Int, UInt, Color} ==> c == a.values)
  {
  }

  /** Running two batches of `twk_set_value` calls one after the other runs their concatenation. */
  lemma {:induction false} ItemsAfterAppend(items: seq<Item>, first: seq<Assignment>, second: seq<Assignment>)
    ensures ItemsAfter(items, first + second) == ItemsAfter(ItemsAfter(items, first), second)
    decreases |first|
  {
    if first == [] {
      assert first + second == second;
    } else {
      assert (first + second)[0] == first[0] && (first + second)[1..] == first[1..] + second;
      ItemsAfterAppend(AssignedItems(items, first[0]), first[1..], second);
    }
  }

  lemma {:induction false} TargetAfterAppend(items: seq<Item>, first: seq<Assignment>, second: seq<Assignment>,
                                             t: array<real>, s: seq<real>)
    ensures TargetAfter(items, first + second, t, s) == TargetAfter(items, second, t, TargetAfter(items, first, t, s))
    decreases |first|
  {
    if first == [] {
      assert first + second == second;
    } else {
      assert (first + second)[0] == first[0] && (first + second)[1..] == first[1..] + second;
      TargetAfterAppend(items, first[1..], second, t, Apply(WriteOf(items, first[0]), t, s));
    }
  }

  /** The writes of a batch depend only on the bindings of the table it starts from. */
  lemma {:induction false} TargetAfterSameBindings(items: seq<Item>, items': seq<Item>, assignments: seq<Assignment>,
                                                   t: array<real>, s: seq<real>)
    requires SameBindings(items, items')
    ensures TargetAfter(items, assignments, t, s) == TargetAfter(items', assignments, t, s)
    decreases |assignments|
  {
    if assignments != [] {
      WriteOfSameBindings(items, items', assignments[0]);
      TargetAfterSameBindings(items, items', assignments[1..], t, Apply(WriteOf(items, assignments[0]), t, s));
    }
  }

  /** A target no item of the table owns is never written. */
  lemma {:induction false} TargetAfterForeign(items: seq<Item>, assignments: seq<Assignment>, t: array<real>, s: seq<real>)
    requires t !in Targets(items)
    ensures TargetAfter(items, assignments, t, s) == s
    decreases |assignments|
  {
    if assignments != [] {
      var w := WriteOf(items, assignments[0]);
      if w.Some? {
        var i := Target(items, assignments[0]);
        assert items[i].target in Targets(items);
      }
      TargetAfterForeign(items, assignments[1..], t, s);
    }
  }
}
