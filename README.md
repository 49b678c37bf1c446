# ds_tweakable, modelled in Dafny

`ds_tweakable.h` is a single-header C++ library for "tweakable" game settings.
A program registers its own variables under a category and a name: ints, uints,
floats, 2/3/4-vectors, colours and float arrays. The library then polls a small
text file and writes the values it finds into those variables:

```
player {
    speed : 200.0
    colour : 255, 128, 0, 255      # read as 0..255, stored divided by 255
}
```

The core of the library is modelled here:

- the FNV-1a hash of category and binding names;
- the tokenizer and its number reader `twk_strtof`;
- the single-pass cursor parser;
- the binding table: registration, the first-match lookup and the typed writes;
- the string arena in which the parser stores every name it stands on;
- the reload decision and the load;
- the block structure of the file `twk_save` writes.

Modules follow the header's parts:

| module | part of the header |
|---|---|
| `Fnv` | `twk_fnv1a`, over bytes with 32-bit wrap-around (`bv32`) |
| `Tokenizer`, `TokenizerFacts` | the character classes, `twk_strtof` and the first loop of `twk_parse` |
| `Bindings`, `BindingFacts` | `GameSettingsItem`, `twk_find` and `twk_set_value` on values |
| `Parser`, `ParserFacts` | the cursor loop of `twk_parse` as a function |
| `Arena`, `CharBuffers` | `InternalCharBuffer` as a class over arrays, with `twk_realloc_char_buffer`, `twk_reallocate_indices` and `twk_add_string` |
| `Tweakable` | `SettingsContext` as a class: `twk_init`, `twk_add`, `twk_parse`, `twk_requires_loading`, `twk_load`, `twk_save` |
| `Saving`, `SavingFacts`, `SaveLoop` | the line structure `twk_save` writes and its loop |
| `IndexCopy` | the byte-count `memcpy` of `twk_reallocate_indices` (see Findings) |

How the C code is represented:

- Text is a `seq<char>` that ends in the NUL added by `twk_load_file`. Each `char`
  stands for one byte of the C string, so only characters below 256 occur.
- Caller memory is an `array<real>` per binding, whose length is the type's arity.
- The file system appears as parameters: the current modification time is
  `Option<int>` (`None` when it cannot be read), and likewise the file's contents
  and the time read together with them.
- Behaviour the C code leaves undefined becomes `None` in a specification function,
  and a precondition of the method that runs it.

Each imperative part is a method proved against a specification function: the
parser loop against `ParseTokens`, the arena against the list of interned strings
`strings`, and the save loop against `SaveLines`. The lemmas state what those
functions promise.

Behaviour of the code worth stating, which the model follows:

- `twk_add_string` (ds_tweakable.h:276-293) appends every string it is given and
  never looks for an equal one, so each interned name takes a new slot.
- `twk_internal_add` (ds_tweakable.h:145-153) stores the two hashes, the type and
  an array length of 0 and interns nothing. The name index, the length and the
  category name index of an item stay unset until `twk_set_value`
  (ds_tweakable.h:484-486) finds it.
- The header defines no `twk_verify`, `twk_get` or `twk_num_categories` and no
  error handler, although test/main.cpp:18-98 uses them. The model covers what the
  header defines.
- `twk_load` (ds_tweakable.h:638-648) parses whatever `twk_load_file` returns. When
  the file cannot be opened that is a null text (ds_tweakable.h:392), and nothing
  is reported.
- `twk_add_string` grows the character buffer by twice the incoming length
  (ds_tweakable.h:279) and the index arrays by 16 slots (ds_tweakable.h:282).
- A NAME followed by anything but `{` or `:` skips that token as well
  (ds_tweakable.h:622-624), without interning it.
- A header `name {` (ds_tweakable.h:600-603) interns its name again each time it
  appears, and the category in force is just its hash and that new slot.
- `twk_save` writes its final `}` (ds_tweakable.h:354) even when no item has a
  category, so that file closes a block it never opened.

## Model

| member | source | states |
|---|---|---|
| Fnv.ComputeFnv1a | ds_tweakable.h:134-140 | the byte loop returns the FNV-1a fold of the text up to its first NUL, from the given seed |
| Fnv.Byte | ds_tweakable.h:135-137 | `(unsigned char)c`: the byte value of a character, its code modulo 256 |
| Fnv.Fold | ds_tweakable.h:136-138 | the FNV-1a fold: xor each byte into the hash and multiply by `FNV_Prime` modulo 2^32, first character first |
| Fnv.Fnv1a | ds_tweakable.h:131-140 | `twk_fnv1a(text, seed)`: the fold of the bytes before the first NUL, from the seed (`FNV_Seed` by default) |
| Fnv.EmptyIsSeed | ds_tweakable.h:134-140 | an empty text, or one starting with NUL, hashes to the seed |
| Fnv.FoldAppend | ds_tweakable.h:136-138 | folding a concatenation equals folding the second part from the hash of the first |
| Fnv.FoldLastByte | ds_tweakable.h:136-138 | folding one more byte is one step of `(byte ^ hash) * FNV_Prime` |
| Fnv.Chain | ds_tweakable.h:134 | passing the hash of a NUL-free text as the seed hashes the concatenation |
| Fnv.StopsAtNul | ds_tweakable.h:136 | nothing after the first NUL changes the hash |
| Fnv.CStringOfNulFree | ds_tweakable.h:595-596 | the C string of a NUL-free text is the text itself |
| Fnv.CStringAppend | ds_tweakable.h:595-596 | the C string of `a + b` for NUL-free `a` is `a` followed by the C string of `b` |
| Tokenizer.RunEnd | ds_tweakable.h:429-431 | the first position whose character leaves the run, stopping before the trailing NUL; every character before it is in the run |
| Tokenizer.DigitsValue | ds_tweakable.h:441-445 | the decimal value of a digit run, as `value * 10 + (c - '0')` accumulates it |
| Tokenizer.Pow10 | ds_tweakable.h:448-455 | the divisor `dec` after k fraction digits, 10^k, which is positive |
| Tokenizer.Magnitude | ds_tweakable.h:440-457 | the unsigned part of the number ends on a non-digit, and a digit or `.` start consumes at least one character |
| Tokenizer.NumberAt | ds_tweakable.h:428-462 | the end position lies within the text, on a non-digit, after at least one character for any start `twk_is_digit` accepts |
| Tokenizer.ScanDigits | ds_tweakable.h:441-445 | the digit loop ends where the digit run ends, with the run's decimal value and 10 to the run's length |
| Tokenizer.MagnitudeWithFraction | ds_tweakable.h:446-457 | digits, `.`, digits read as the whole part plus the fraction digits divided by 10^(their count) |
| Tokenizer.MagnitudeWithoutFraction | ds_tweakable.h:440-446 | digits without a following `.` read as their decimal value |
| Tokenizer.ScanMagnitude | ds_tweakable.h:440-457 | the unsigned-part loops compute exactly `Magnitude` |
| Tokenizer.NumberAtIs | ds_tweakable.h:429-439 | after skipping whitespace, `-` negates and `+` is skipped before the magnitude |
| Tokenizer.ScanNumber | ds_tweakable.h:428-462 | `twk_strtof` returns exactly `NumberAt`: value and end position |
| Tokenizer.SkipWhitespace | ds_tweakable.h:418-431 | the whitespace loop stops at the first non-whitespace character |
| Tokenizer.TokenStep | ds_tweakable.h:549-584 | one step advances within the text, and is undefined exactly for a `#` just before the NUL |
| Tokenizer.NextToken | ds_tweakable.h:550-581 | one body of the tokenizer loop computes exactly `TokenStep`: token or none, and the next position |
| Tokenizer.Tokenize | ds_tweakable.h:545-585 | the tokenizer loop returns exactly the token list of the text |
| Tokenizer.TokensFrom | ds_tweakable.h:545-585 | the token list the loop produces from position p to the NUL, one step at a time; `None` when a step is undefined |
| TokenizerFacts.NamesAreSpans | ds_tweakable.h:556-561 | every NAME token is a non-empty span of name characters lying inside the text |
| TokenizerFacts.StepNameIsSpan | ds_tweakable.h:556-561 | a single step that emits a NAME emits a span of the text |
| TokenizerFacts.TokenCountBound | ds_tweakable.h:549-584 | a text yields at most as many tokens as it has characters before the final NUL |
| TokenizerFacts.SilentStep | ds_tweakable.h:582-584 | a step that emits no token leaves the rest of the token list unchanged |
| TokenizerFacts.WhitespaceEmitsNothing | ds_tweakable.h:576 | whitespace contributes no tokens |
| TokenizerFacts.CommentLineEmitsNothing | ds_tweakable.h:563-571 | a `#` comment up to its newline contributes no tokens, so a comment before `}` leaves the tokens that follow unchanged |
| TokenizerFacts.UnknownEmitsNothing | ds_tweakable.h:572-580 | a character that is no number start, name character, `#` or punctuation (whitespace included) is stepped over and emits no token |
| TokenizerFacts.MinusStartsNumber | ds_tweakable.h:551-554 | a `-` starts a NUMBER token holding the negated magnitude that follows, even before a name |
| Bindings.FindFrom | ds_tweakable.h:469-474 | the first index from `i` on where both hashes match, or -1 when none does |
| Bindings.Find | ds_tweakable.h:467-475 | the lowest index whose name hash and category hash both match; -1 exactly when none does |
| Bindings.Trunc | ds_tweakable.h:488 | `static_cast<int>` truncates toward zero: it returns the integer between 0 and x that is less than 1 away from x |
| Bindings.CastDefined | ds_tweakable.h:488-491 | the truncated value fits the 32-bit `int` or `uint32_t` target, so the conversion is defined |
| Bindings.WriteDefined | ds_tweakable.h:481-491 | a single value written to the found int or uint item converts without undefined behaviour |
| Bindings.Stored | ds_tweakable.h:487-521 | the contents a matching write stores: the truncated value for int and uint, each colour channel divided by 255, otherwise the values; as many as given |
| Bindings.AssignedItems | ds_tweakable.h:481-486 | the table after one `twk_set_value`: the found item gets the name index, length and category name index, nothing else changes; no item found, no change |
| Bindings.WriteOf | ds_tweakable.h:481-521 | the write of one `twk_set_value`: to the found item's target, only when the value count equals its arity, with as many values as given; the target is always a registered one |
| Bindings.ItemsAfter | ds_tweakable.h:480-486 | the table after a sequence of `twk_set_value` calls, each looking up in the table left by the previous one |
| Bindings.TargetAfter | ds_tweakable.h:487-521 | the contents of one caller array after a sequence of `twk_set_value` calls, in order |
| BindingFacts.FindFromSameBindings | ds_tweakable.h:469-474 | the lookup from `i` on depends only on the hashes |
| BindingFacts.FindSameBindings | ds_tweakable.h:467-475 | `twk_set_value` never changes which item a later lookup finds |
| BindingFacts.AssignedKeepsBindings | ds_tweakable.h:483-486 | a `twk_set_value` updates only the indices and the length: hashes, types, targets and arities stay |
| BindingFacts.ItemsAfterKeepsBindings | ds_tweakable.h:480-523 | a sequence of `twk_set_value` calls keeps the hashes, types, targets and fits of the table |
| BindingFacts.WriteOfSameBindings | ds_tweakable.h:480-523 | what a `twk_set_value` writes depends only on the bindings, not on earlier index updates |
| BindingFacts.FindFromAfterAppend | ds_tweakable.h:151 | appending an item changes the lookup from `i` only when nothing earlier matched and the new item does |
| BindingFacts.FindAfterAppend | ds_tweakable.h:151 | a duplicate registration is never found: the earlier item keeps the lookup |
| BindingFacts.WriteOfCharacterised | ds_tweakable.h:481-521 | caller memory is written exactly when the item is found and the value count equals its arity; integers truncate, colours divide by 255, the rest are copied |
| BindingFacts.ItemsAfterAppend | ds_tweakable.h:480-486 | the table after two runs of calls is the table after the first, updated by the second |
| BindingFacts.TargetAfterAppend | ds_tweakable.h:487-521 | a target's contents after two runs of writes compose in order |
| BindingFacts.TargetAfterSameBindings | ds_tweakable.h:487-521 | the writes to a target depend only on the bindings |
| BindingFacts.TargetAfterForeign | ds_tweakable.h:487-521 | memory that no item targets is never written |
| Parser.ValueRunEnd | ds_tweakable.h:605-619 | the value loop stops at the first token that is neither a NUMBER nor a `,`, or at the end of the list |
| Parser.Kept | ds_tweakable.h:609-613 | the `values` buffer keeps the first 128 numbers, and all of them when there are fewer |
| Parser.ParseTurn | ds_tweakable.h:593-631 | a defined turn moves the cursor forward, and interns one string exactly when it stands on a NAME |
| Parser.NameTurnOf | ds_tweakable.h:594-625 | a turn on a NAME interns one name, always produces an event and moves forward |
| Parser.TokenText | ds_tweakable.h:595-596 | the copied name has the token's length |
| Parser.AssignmentTurn | ds_tweakable.h:604-621 | `name :` produces an assignment, interns one name and moves past the value run |
| Parser.HeaderOrSkipTurn | ds_tweakable.h:600-603 | `name {` produces a header and any other successor a skip; either interns one name |
| Parser.ParseFrom | ds_tweakable.h:593-632 | the events of the cursor loop from cursor c to the end of the token list; `None` when a turn is undefined |
| Parser.ParseTokens | ds_tweakable.h:586-632 | the events of the whole loop from index 0, no category and the current arena count; `None` for an empty token list, where `tokens[0]` has no meaning |
| ParserFacts.EventsWellFormed | ds_tweakable.h:593-632 | each event's name is 1 to 127 name characters; an assignment's name index is the arena slot of its own name, its length is the name's length, and it carries at most 128 values |
| ParserFacts.CategoryShift | ds_tweakable.h:600-603 | the category in force after a header is the header's hash and arena index |
| ParserFacts.CategoryIgnoresIndex | ds_tweakable.h:590-591 | the category in force does not depend on the token position |
| ParserFacts.AssignmentsUseLastHeader | ds_tweakable.h:590-620 | each assignment carries the hash and the arena index of the last header before it |
| ParserFacts.CategoryAfterStart | ds_tweakable.h:590-591 | from the start, the category is either none (hash 0, index -1) or the last header seen |
| ParserFacts.AssignmentNamed | ds_tweakable.h:595-620 | an assignment of a parse from the start is well formed at its position |
| ParserFacts.AssignmentCategory | ds_tweakable.h:600-620 | an assignment's category is none or an earlier header, with that header's name hash |
| ParserFacts.AssignmentAt | ds_tweakable.h:586-632 | the k-th event, when an assignment, names arena slot count+k, whose string is its name; its category is none or an earlier header, hashed by name |
| ParserFacts.ParseTokensAssignments | ds_tweakable.h:586-632 | the same facts for every assignment of a whole parse |
| ParserFacts.NumbersAppend | ds_tweakable.h:609-612 | a NUMBER token adds its value and a `,` adds nothing |
| ParserFacts.KeptAppend | ds_tweakable.h:610-612 | a value is kept only while fewer than 128 are in the buffer |
| ParserFacts.ParseTurnOnName | ds_tweakable.h:594-625 | a defined turn on a NAME has a successor, and a value after `:` |
| ParserFacts.NameTurnCases | ds_tweakable.h:600-624 | a turn on a NAME is an assignment after `:`, and otherwise a header or a skip |
| ParserFacts.AssignmentTurnIs | ds_tweakable.h:604-621 | the assignment carries the current category, the name, its arena index and length, and the kept values |
| ParserFacts.EventEffects | ds_tweakable.h:620 | only an assignment calls `twk_set_value` |
| ParserFacts.CollectAppend | ds_tweakable.h:608-618 | one more token of the run adds its value when it is a number and the buffer has room |
| ParserFacts.DelimitersCarryNoValues | ds_tweakable.h:608-613 | a run of commas carries no values |
| ParserFacts.NamesAppend | ds_tweakable.h:597 | the names interned by two runs of events are those of the first, then those of the second |
| ParserFacts.NamesAt | ds_tweakable.h:597 | the k-th interned string is the name of the k-th event |
| ParserFacts.AssignmentsAppend | ds_tweakable.h:620 | the `twk_set_value` calls of two runs of events concatenate |
| Arena.OffsetsAppend | ds_tweakable.h:284-290 | a new string is indexed at the old used size, with its own length |
| Arena.Flatten | ds_tweakable.h:284-290 | the strings one after another, as they lie in the used part of the char buffer |
| Arena.Offsets | ds_tweakable.h:286 | the contents of `indices`: where each string starts, one entry per string |
| Arena.Lengths | ds_tweakable.h:287 | the contents of `sizes`: each string's length, one entry per string |
| Arena.OffsetsAt | ds_tweakable.h:286-287 | the k-th index is the total length of the strings before it; the k-th size is the k-th string's length |
| Arena.FlattenAppend | ds_tweakable.h:289-290 | appending a string appends its characters to the used part of the arena |
| Arena.FlattenPrefix | ds_tweakable.h:289-290 | appending never moves what earlier strings stored |
| Arena.StringAt | ds_tweakable.h:310-313 | reading `sizes[k]` characters at `indices[k]` gives back the k-th string |
| Arena.OffsetNext | ds_tweakable.h:290 | each index is the previous index plus the previous size |
| CharBuffers.CopyGrown | ds_tweakable.h:250-251 | a fresh longer array that starts with the old contents |
| CharBuffers.CharBuffer.constructor | ds_tweakable.h:101-107 | no buffers, zero capacity, size and count; no strings |
| CharBuffers.CharBuffer.ReadBack | ds_tweakable.h:310-321 | for every interned string, its slice of `data` at `indices[k]` of length `sizes[k]` lies in the used part and is that string |
| CharBuffers.CharBuffer.Get | ds_tweakable.h:310-321 | reading string k back gives the k-th interned string |
| CharBuffers.CharBuffer.Realloc | ds_tweakable.h:241-256 | the first call allocates `additional` characters and 16 index slots; later calls grow the characters by `additional`, keeping them and the index arrays |
| CharBuffers.CharBuffer.ReallocateIndices | ds_tweakable.h:261-270 | both index arrays grow by `additional` slots and keep their first `count` entries (the corrected copy, see Findings) |
| CharBuffers.CharBuffer.CopyInto | ds_tweakable.h:289 | the text lands at `at` and nothing else in the array changes |
| CharBuffers.CharBuffer.AddString | ds_tweakable.h:276-293 | appends the string and returns its index, the old count; index, size and characters are stored; old characters stay; capacity grows by 2·len exactly when len + size reaches capacity |
| CharBuffers.CharBuffer.Reserve | ds_tweakable.h:277-283 | after the two growth checks there is room for the text, its NUL and one more index slot, and the old characters stay |
| CharBuffers.CharBuffer.Place | ds_tweakable.h:284-292 | writes the index, the size and the characters, and yields a well-formed arena with one more string |
| CharBuffers.CharBuffer.Commit | ds_tweakable.h:288-290 | with index and characters written, count and size advance to a well-formed arena holding the new string |
| CharBuffers.CharBuffer.WriteIndex | ds_tweakable.h:286-287 | slot `count` of the two index arrays is set to the used size and the length; earlier slots stay |
| CharBuffers.CharBuffer.WriteText | ds_tweakable.h:289-291 | the text and a NUL are written after the used part, which stays |
| Tweakable.CollectValues | ds_tweakable.h:605-619 | the value loop stops where the value run ends and holds the kept numbers of the run |
| Tweakable.StoreValues | ds_tweakable.h:487-521 | the target holds the truncated integer, the colour divided by 255, or the values themselves |
| Tweakable.SettingsContext.constructor | ds_tweakable.h:97-107 | `twk_init`: the file name, not loaded, no items, an empty arena without buffers |
| Tweakable.SettingsContext.InternalAdd | ds_tweakable.h:145-153 | appends one item with the two name hashes, the type and array length 0, and returns its index |
| Tweakable.SettingsContext.Add | ds_tweakable.h:158-209 | registers a scalar, vector or colour target: exactly one item appended, nothing interned |
| Tweakable.SettingsContext.AddArray | ds_tweakable.h:214-218 | registers an array target with its length: exactly one item appended |
| Tweakable.SettingsContext.FindItem | ds_tweakable.h:467-475 | `twk_find` returns the first matching index of the table, or -1 |
| Tweakable.SettingsContext.SetValue | ds_tweakable.h:480-523 | the found item's indices and length are updated; caller memory changes only where the write applies |
| Tweakable.SettingsContext.ParseTurnAt | ds_tweakable.h:593-631 | one loop turn interns its event's name, makes its `twk_set_value` call and moves the cursor as `ParseTurn` says |
| Tweakable.SettingsContext.NameTurn | ds_tweakable.h:594-625 | a turn on a NAME interns the name and then assigns, opens a category or skips |
| Tweakable.SettingsContext.AssignNameTurn | ds_tweakable.h:595-621 | `name : values` interns the name and makes the assignment |
| Tweakable.SettingsContext.OtherNameTurn | ds_tweakable.h:595-603 | `name {` or `name x` interns the name and leaves the table alone |
| Tweakable.SettingsContext.InternName | ds_tweakable.h:595-597 | copies the token's characters and appends them to the arena, returning the new index |
| Tweakable.SettingsContext.HeaderOrSkip | ds_tweakable.h:600-603 | the cursor and category after `name {` or `name x` |
| Tweakable.SettingsContext.AssignTurn | ds_tweakable.h:604-621 | collects the values and calls `twk_set_value` with the current category and the name's index |
| Tweakable.SettingsContext.Parse | ds_tweakable.h:586-632 | the cursor loop interns the names of the events of `ParseTokens` and makes their assignments in order |
| Tweakable.SettingsContext.ParseLoopTurn | ds_tweakable.h:593-632 | one loop turn keeps the loop invariant: arena, table and targets stand after the events done so far |
| Tweakable.SettingsContext.ParseText | ds_tweakable.h:545-633 | `twk_parse`: tokenizes the text, then interns the names and makes the assignments of the parsed events |
| Tweakable.SettingsContext.Save | ds_tweakable.h:298-357 | `twk_save` writes exactly the lines of `SaveLines` for the items, names and current values |
| Tweakable.SettingsContext.RequiresLoading | ds_tweakable.h:528-540 | true before the first load; afterwards true and the remembered time advanced exactly when the file time is later; the time never goes back, and asking again with the same time says no |
| Tweakable.NeedsReload | ds_tweakable.h:528-540 | a reload is due before the first load, and later exactly when the file time can be read and is later than the remembered one |
| Tweakable.SettingsContext.Load | ds_tweakable.h:638-648 | when no reload is due nothing changes; otherwise the context is loaded, the time updated and the file parsed; it returns whether a reload was due |
| Tweakable.SettingsContext.StartLoad | ds_tweakable.h:639-642 | the reload decision, the `loaded` flag and the time `twk_load_file` records |
| Saving.PrintedAll | ds_tweakable.h:323-351 | one printed value list per item, in item order, each the item target's current contents |
| Saving.Saveable | ds_tweakable.h:305-318 | every item's name index names an arena string and its category index names one or is -1; once an item has a category, the next one has one too |
| Saving.BlockHeader | ds_tweakable.h:305-316 | the lines before item i's entry: none when its category index equals the current one, else a `}` when a block is open and then the category's name |
| Saving.SaveFrom | ds_tweakable.h:303-353 | the lines of the item loop from item i on: each item's block lines, then its name and values |
| Saving.SaveLines | ds_tweakable.h:298-357 | everything `twk_save` writes: the item loop's lines, always ending in a `}` |
| SavingFacts.BlockStateAppend | ds_tweakable.h:305-316 | the open/closed balance of two runs of lines composes |
| SavingFacts.ListedAppend | ds_tweakable.h:317-322 | the entries of two runs of lines concatenate |
| SavingFacts.SaveFromBlocks | ds_tweakable.h:303-353 | block opens and closes from item i on never close more blocks than are open, and end in the state of the last item's category |
| SavingFacts.CategoryPersists | ds_tweakable.h:305-315 | once an item has a category, every later item has one |
| SavingFacts.LastCategory | ds_tweakable.h:305-315 | after the last item a block is open exactly when some item has a category |
| SavingFacts.SaveBalanced | ds_tweakable.h:301-354 | the saved file's braces balance exactly when some item has a category; otherwise its final `}` has no block to close |
| SavingFacts.SaveFromLists | ds_tweakable.h:303-322 | from item i on, one entry per item, in order |
| SavingFacts.HeaderListsNothing | ds_tweakable.h:305-316 | block lines hold no entries |
| SavingFacts.SaveListsItems | ds_tweakable.h:303-322 | the saved file has exactly one entry per item, the k-th for item k |
| SaveLoop.WriteLines | ds_tweakable.h:298-357 | the save loop produces exactly `SaveLines` |
| SaveLoop.SaveTurn | ds_tweakable.h:304-352 | one loop turn writes the block lines and the entry `SaveFrom` expects for item i |
| IndexCopy.MemcpyEntries | ds_tweakable.h:262-263 | copying into a fresh `size_t[newLength]` gives `newLength` entries |
| IndexCopy.MemcpyKeepsWholeEntries | ds_tweakable.h:263 | an entry survives `memcpy` exactly when all eight of its bytes are copied |
| IndexCopy.ElementBytesKeepEntries | ds_tweakable.h:263 | copying `count * sizeof(size_t)` bytes keeps all of the first `count` entries |
| IndexCopy.ByteCountLosesEntries | ds_tweakable.h:263 | copying `count` bytes keeps entry k exactly when k < count / 8; from two strings on, the last entry is lost |
| IndexCopy.FirstReallocation | ds_tweakable.h:281-282 | at the first index growth (15 strings, 16 to 32 slots), only entry 0 survives the copy as written; the intended copy keeps all fifteen |

## Left out

- File I/O is left out: `twk_get_filetime` and `twk_load_file` reading through the
  file system. The file's modification time and contents are parameters of
  `RequiresLoading` and `Load`. `CompareFileTime` on `FILETIME` becomes `<` on integers.
- `twk_shutdown` is left out: deallocation has no counterpart in Dafny.
- The global `_settingsCtx` is left out; the context is an ordinary object.
- `twk_init` leaves the remembered file time unset. The model takes it as a
  constructor parameter.
- Floating point is left out. Values are `real`, so the model has no rounding in
  `twk_strtof`'s `value * 10 + digit`, in `frac / dec` or in the division by 255.
  A float narrowed to an `int` is modelled by `Trunc` on reals.
- The text formatting of `twk_save` is left out: `%g`, `%d` and the colour's
  `static_cast<int>(c * 255)`. Each entry carries the target's contents, and
  `Line` records only the block structure, the names and the values.
- `twk_save` writes to a fixed path, `test.txt`, rather than to the settings file.
  This is not modelled, since the file system is left out.
- Fnv.Byte: a character stands for a byte, but the model does not require the
  characters of a name or a text to be below 256. A character of 256 or more is
  reduced modulo 256 when hashed, which no C string can hold.
- `ds::vec2`/`vec3`/`vec4`/`Color` are arrays of 2, 3 or 4 reals. `ST_NONE` is never
  given to an item.
- `twk_set_value` works on the item table as a value (`seq<Item>`). Only the caller's
  memory is updated in place. Two items may share a target, and the writes are then
  applied in order.
- Undefined behaviour is a precondition, not modelled behaviour:
  - an empty token list (`tokens[0]` before the loop);
  - a NAME or a `:` as the last token;
  - a name of 128 characters or more, which overflows `name[128]`;
  - a `#` just before the final NUL;
  - a float outside the target's range narrowed to `int` or `uint32_t`;
  - a missing file when a (re)load is due;
  - interning an empty string into an arena that has no buffer yet.
- `Tweakable.SettingsContext.Save`: `twk_save` reads `nameIndex` and
  `categoryNameIndex` even of items no assignment reached, and those values are
  uninitialised. It also indexes the arena at -1 when an item without a category
  follows one with a category. Both cases are excluded by the precondition `Saveable`.
- `Tweakable.SettingsContext.Load`: the C code marks the context loaded before it
  reads the file. The model requires the file when a reload is due, so it does not
  state what follows once `twk_load_file` returns null.
- `CharBuffers.CharBuffer.ReallocateIndices` models the corrected element copy, not the
  byte copy as written. The as-written copy is modelled in `IndexCopy`.
- The `strncpy` into `name` in `twk_save` is modelled as reading the arena slice
  (`Get`), which is what the copy yields for names shorter than 128 characters.

## Findings

| source | as written | input that shows it | evidently intended | confidence | as-written member | corrected member |
|---|---|---|---|---|---|---|
| ds_tweakable.h:263, ds_tweakable.h:267 | `memcpy(tmpi, buffer->indices, buffer->count)` copies `count` bytes of the `size_t` index and size arrays | register floats `c`/`n1` … `c`/`n15` and load `c { n1 : 1 … n15 : 15 }`. `c` takes slot 0 and `n1` … `n15` slots 1 to 15. The 16th `twk_add_string` (for `n15`, `count == 15`, 16 slots) copies only 15 bytes of each index array, so only entry 0 stays whole. `twk_save` then reads the names of `n1` … `n14` at slots 1 to 14 from indeterminate offsets and sizes | copy `count * sizeof(size_t)` bytes, keeping all `count` entries | not executed | IndexCopy.ByteCountLosesEntries | CharBuffers.CharBuffer.ReallocateIndices |
