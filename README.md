# campfire core in Dafny

campfire is a small TypeScript library for the browser. Its core consists of:

- a reactive `Store`, which holds a value and notifies subscribers per event type;
- a `ListStore`, a store whose value is a list and which sends "push", "remove" and "mutation" events;
- the HTML sanitizer `escape` and its inverse `unescape`;
- `_parseEltString`, which splits an element description `tag#id.class1.class2` into its parts.

This project models that core and proves properties of the model.

- `values.dfy` (`Values`): the values a store passes around.
  - JavaScript values appear as far as a store looks into them.
  - Subscribers are opaque tokens.
  - `Call` records one subscriber invocation.
  - `Outcome` says whether an operation returned normally or threw a `RangeError` or `TypeError`.
- `dispatch.dfy` (`Dispatch`): the dispatch loop of `_sendEvent`, modelled as a function of one subscriber table.
  - The source iterates `for (const idx in Object.keys(table))`. That visits the positions 0..k-1 of the key array, where k is the number of live handles, not the handles themselves.
  - With the live handles exactly 0..k-1, each subscriber is called once, in handle order.
  - After an `unsubscribe` leaves a gap, the first position that is not a live handle throws a `TypeError`, after the earlier subscribers have run.
- `stores.dfy` (`Stores`): `Store` and `ListStore` as classes whose methods update their fields in place.
  - Every subscriber invocation is appended to the log `calls`. This lets the postconditions state who was notified, with what and in which order.
  - The twostate predicate `Store.Sent` states what `_sendEvent` does to the store, in terms of `Dispatch.Send`.
- `scenarios.dfy` (`StoreScenarios`): client methods on concrete stores that rely only on the contracts above:
  - handle numbering per type, which restarts after `dispose`;
  - notification order;
  - the gap that an `unsubscribe` leaves;
  - the `get`/`remove`/`setAt` bounds;
  - a disposed list store that still changes its list.
- `escaping.dfy` (`Escaping`): `escape` as the chain of five global replacements, and `unescape` as a one-pass scanner of its regular expression.
  - `Escape` is proved equal to a character-by-character reference `EscapeEach`.
  - Its output is proved safe, and `Unescape(Escape(s)) == s`.
- `elt_string.dfy` (`EltString`): `_parseEltString`.
  - The regular expression is modelled as a deterministic scanner: it is matched once, unanchored, and every group may be empty, so no backtracking happens.
  - It is followed by trimming, `#` removal, `split('.')` and the filter that drops blank pieces.
  - The white-space and line-terminator predicates are those of ECMAScript's `String.prototype.trim` and of `.` in a regular expression.
  - Proved: what each returned part may contain, and that parsing a well-formed description in the documented format returns its parts.

## Model

| member | source | states |
|---|---|---|
| Stores.Store.constructor | src/campfire.ts:65-90 | a new store holds the given value, is live and has no tables, counters or calls |
| Stores.Store.On | src/campfire.ts:100-109 | returns the type's counter (0 for a new type), which is not a live handle of that type; the counter becomes handle + 1; `fn` is stored under the handle in the type's table, which is created if missing; `fn` is called once with the current value iff `callNow` and the type is none of push/remove/mutation/setAt; a disposed store is treated alike; nothing else changes |
| Stores.Store.Unsubscribe | src/campfire.ts:115-117 | a type without a table throws a TypeError and changes nothing; otherwise the entry `id` is deleted (a missing entry is ignored) and nothing else changes |
| Stores.Store.Update | src/campfire.ts:123-127 | a disposed store is left unchanged; otherwise the value becomes `v` and "update" is dispatched with `v` as `Sent` states |
| Stores.Store.Refresh | src/campfire.ts:132-134 | the value is unchanged and "refresh" is dispatched with it as `Sent` states |
| Stores.Store.SendEvent | src/campfire.ts:140-146 | a disposed store is unchanged; otherwise the type gets a table if it had none, the log grows by exactly the calls of `Send` on that table, and the outcome is that of `Send`; value and counters are unchanged |
| Stores.Store.Dispose | src/campfire.ts:151-155 | the store is dead, every table and counter is dropped, value and log are unchanged |
| Stores.ListStore.constructor | src/campfire.ts:167-169 | a new list store holds the given list in a fresh live store without subscribers |
| Stores.ListStore.Clear | src/campfire.ts:171-173 | on a live store the list becomes empty and "update" is dispatched with the empty list; a disposed store is unchanged |
| Stores.ListStore.Push | src/campfire.ts:182-188 | the list becomes the old list plus `val`, also on a disposed store; "push" is dispatched with `{value: val, idx: old length}` |
| Stores.ListStore.Remove | src/campfire.ts:197-203 | a RangeError iff `idx < 0` or `idx >= length`, and then nothing changes; otherwise the list loses element `idx` (also on a disposed store) and "remove" is dispatched with the removed element and `idx` |
| Stores.ListStore.Get | src/campfire.ts:210-213 | a RangeError iff `idx < 0` or `idx > length`; element `idx` for an index inside the list, `undefined` for `idx == length` |
| Stores.ListStore.SetAt | src/campfire.ts:221-228 | a RangeError iff `idx < 0` or `idx >= length`, and then nothing changes; otherwise slot `idx` holds `val` (also on a disposed store) and "mutation" is dispatched with `val` and `idx` |
| Stores.ListStore.Length | src/campfire.ts:233-235 | the number of elements of the list |
| Dispatch.Send | src/campfire.ts:140-146 | the dispatch on a live store is the loop run over as many positions as the table has keys: it completes normally or throws a TypeError, and makes at most one call per key; `SendShape` states which calls, in which order |
| Stores.Store.Sent | src/campfire.ts:140-146 | the two-state description of `_sendEvent` that every sending method ensures: counters and the dead flag unchanged; on a dead store no table is created, no call made and no error thrown; on a live one the type gets a table if it had none, the log grows by the calls of `Dispatch.Send` on that table, and the outcome is that of `Send` |
| Dispatch.Loop | src/campfire.ts:143-145 | after examining n positions the loop has made at most n calls and has either completed normally or thrown a TypeError |
| Dispatch.LoopShape | src/campfire.ts:143-145 | after n positions the calls are to the subscribers at handles 0, 1, ... in order, all with the payload; the loop completed normally iff it made n calls; if it threw, the next position is not a live handle |
| Dispatch.LoopStopsAtThrow | src/campfire.ts:143-145 | once a position has thrown, examining further positions changes neither the calls nor the outcome |
| Dispatch.SendShape | src/campfire.ts:140-146 | a dispatch calls the subscribers at handles 0..m-1 in order with the payload, where at most the table's size are called; it throws a TypeError iff some position below the table's size is not a live handle, and that first position is m |
| Dispatch.SendContiguous | src/campfire.ts:140-146 | when the live handles are exactly 0..k-1, every subscriber is called once, in ascending handle order, and the dispatch completes normally |
| Dispatch.SendOkIffContiguous | src/campfire.ts:140-146 | a dispatch completes normally if and only if the live handles are exactly 0..k-1 |
| Dispatch.Range | src/campfire.ts:143 | the set of key-array positions 0..k-1 has exactly those members and size k |
| Escaping.Zeros | src/campfire.ts:293 | the length of the run of `0` that `(0+)?` consumes: all of them zeros, and no zero follows |
| Escaping.ReferenceLength | src/campfire.ts:293 | a match of the unescape pattern at the front lies inside the string and runs from `&` to `;` |
| Escaping.ReplaceAll | src/campfire.ts:278-282 | `str.replace(/c/g, with)`: every `c` replaced by `with`; no `c` is left when `with` holds none, and the result is no shorter when `with` is non-empty; `ReplaceAllAppend` and `ReplaceAllAbsent` state how it composes |
| Escaping.Chain | src/campfire.ts:278-282 | the five global replacements in the source's order (`&` first); never shortens; equal to per-character escaping by `ChainPerChar` |
| Escaping.Escape | src/campfire.ts:275-283 | `''` for the empty string, otherwise `Chain`; empty exactly when the input is, and never shorter; equal to `EscapeEach` by `EscapeIsPerChar`, safe by `EscapeIsSafe` |
| Escaping.Decode | src/campfire.ts:295-303 | the replacement of a matched reference: its table entry, or `'` when the table has none; always one of the five special characters |
| Escaping.UnescapeAll | src/campfire.ts:293-303 | one left-to-right pass of the global pattern: at each position a matched reference (`ReferenceLength`) is replaced by `Decode`, otherwise one character is copied; never longer, and non-empty for a non-empty input; it inverts `EscapeEach` by `UnescapeAllEscapeEach` |
| Escaping.Unescape | src/campfire.ts:291-304 | `''` for the empty string, otherwise `UnescapeAll`; empty exactly when the input is, and never longer; `Unescape(Escape(s)) == s` by `UnescapeEscape` |
| Escaping.ReplaceAllAppend | src/campfire.ts:278-282 | a global replacement of one character distributes over concatenation |
| Escaping.ReplaceAllAbsent | src/campfire.ts:278-282 | replacing a character that does not occur leaves the string unchanged |
| Escaping.EscapeIsPerChar | src/campfire.ts:275-283 | the chain of five replacements equals escaping each character on its own (`&` first, so no entity is escaped twice) |
| Escaping.EscapeIsSafe | src/campfire.ts:268-283 | the result of `escape` contains no `<`, `>`, `"` or `'`, and each `&` in it begins one of the five entities |
| Escaping.EscapeFixesOnlyPlainText | src/campfire.ts:275-283 | `escape(s) == s` if and only if `s` contains none of the five special characters |
| Escaping.EscapeEachLength | src/campfire.ts:275-283 | escaping never shortens a string |
| Escaping.ReferenceOfEscaped | src/campfire.ts:293 | at the front of an escaped special character followed by anything, the pattern matches exactly that entity |
| Escaping.UnescapeEscapedChar | src/campfire.ts:291-304 | unescaping an escaped character followed by a rest gives the character, then the unescaped rest |
| Escaping.UnescapeEscape | src/campfire.ts:285-304 | `unescape(escape(s)) == s` for every string |
| Escaping.UnescapeAllEscapeEach | src/campfire.ts:291-304 | the scanner inverts the per-character escaping |
| Escaping.UnescapePlainText | src/campfire.ts:291-304 | a string without `&` is returned unchanged |
| Escaping.UnescapeGraveAccent | src/campfire.ts:293-303 | `&#96;` matches the pattern but is not in the table, so it becomes `'` |
| Escaping.UnescapeZeroPadded | src/campfire.ts:293-303 | `&#039;` matches through `(0+)?`, is not in the table, and becomes `'` |
| Escaping.UnescapeSinglePass | src/campfire.ts:293-303 | `&amp;lt;` becomes `&lt;`: the replacement is one pass, and its output is not scanned again |
| EltString.WordLength | src/campfire.ts:10 | the length of the greedy `[0-9a-zA-Z\-]*` at the front, within the string; `WordLengthLongest` states that it is the longest word prefix |
| EltString.WordLengthLongest | src/campfire.ts:10 | `[0-9a-zA-Z\-]*` takes the longest prefix of word characters: everything taken is a word character, and the next one is not |
| EltString.ClassRunLength | src/campfire.ts:10 | the greedy class group lies inside the string |
| EltString.IdLength | src/campfire.ts:10 | the length of `(#[0-9a-zA-Z\-]*)?` at the front: `#` and the longest word run, or nothing; a non-empty match starts with `#` |
| EltString.Match | src/campfire.ts:10 | the three capture groups of the single match at index 0, taken greedily one after another; they lie end to end at the start of the string; their shapes by `MatchShape` |
| EltString.Trim | src/campfire.ts:11 | `elem.trim()`: `TrimEnd` of `TrimStart`, never longer; `TrimSpec` states exactly what it keeps |
| EltString.TrimSpec | src/campfire.ts:11 | trimming keeps one contiguous block of the string and drops only white space before and after it; the block neither starts nor ends with white space |
| EltString.RemoveHashes | src/campfire.ts:13 | `replace(/#*/g, "")`: the result holds no `#` and is no longer; a word is left as it is by `RemoveHashesWord` |
| EltString.DropBlank | src/campfire.ts:18 | `filter((elem) => elem.trim())`: never more pieces than given; the kept pieces are given pieces that are not blank by `DropBlankKeeps`, and a list of words is kept whole by `DropBlankOfWords` |
| EltString.ParseEltString | src/campfire.ts:9-20 | no part for a missing or empty string; otherwise the trimmed groups, the id without `#`, the class group split at `.` without blank pieces, and an empty part as absent; a present tag or id is never empty; `ParsedParts`, `ParsedClassesNonEmpty` and `ParseRendered` state the rest |
| EltString.Split | src/campfire.ts:18 | `split` always returns at least one piece |
| EltString.SplitJoin | src/campfire.ts:18 | joining the pieces of `split('.')` with `.` gives back the string, and no piece contains `.` |
| EltString.MatchShape | src/campfire.ts:10 | the tag group is a run of word characters; the id group is empty or `#` followed by word characters |
| EltString.ParsedParts | src/campfire.ts:9-20 | a returned tag and a returned id are non-empty runs of word characters (all `#` removed); every returned class is non-blank and contains no `.` |
| EltString.ParsedClassesNonEmpty | src/campfire.ts:10-18 | a returned class list is never empty |
| EltString.ParseEmpty | src/campfire.ts:10-19 | a missing or empty description yields no tag, id or classes |
| EltString.MatchParts | src/campfire.ts:10 | a word, an id group and a class run laid end to end match as exactly those three groups |
| EltString.ParseRendered | src/campfire.ts:9-28 | parsing `tag#id.c1.c2...` for non-empty word parts gives back exactly the tag, id and classes, each absent part coming back absent |

## Left out

- `nu`, `mustache` and `template`: they build DOM elements or perform regular-expression templating, and are not part of this model. Of the modelled code, `nu` uses only `_parseEltString`.
- The type declarations `src/types.ts` and `dist/types.d.ts`, and the module's exports: they hold types and packaging only.
- Subscriber callbacks: the model records each invocation and assumes it returns normally. A callback that throws, or that re-enters the store (subscribing, unsubscribing or updating during a dispatch), is not modelled.
- Event types whose names are properties of `Object.prototype` (such as "constructor"): `this._subscribers[type] || {}` would find the inherited property. The model treats every name as absent until it is set.
- Stores.ListStore.Push, Stores.ListStore.Remove, Stores.ListStore.SetAt: the list is a value (`seq`) here. In the source the list is a JavaScript array shared by reference: `super(ls)` keeps the caller's own array, and `push`, `splice` and `value[idx] =` change it in place. So the caller's array, an array passed to `update`, and the array a subscriber received (with `on(..., true)` or through "update") all see later changes. This aliasing is not modelled; each `Call` in the log holds the value as it was when the call was made.
- Stores.Store.Unsubscribe: `delete table[id]` converts `id` to a property key. The model takes `id` as an integer, so non-integer or string ids are not modelled.
- Stores.ListStore.Get: the `this.value instanceof Array &&` guard always holds in the model, because a list store's value is a list. An `update` with a non-list value through the underlying store, which `Valid` excludes, is not modelled.
- Stores.ListStore.Remove, Stores.ListStore.Get, Stores.ListStore.SetAt: indices are mathematical integers. JavaScript number oddities (fractional, `NaN` or very large indices) are not modelled.
- Escaping.Escape, Escaping.Unescape, EltString.ParseEltString: a falsy argument other than the empty string or `undefined` (for example `null`) is represented only by the empty string, or by `None` for the parser.
- EltString.Match: `.` in a regular expression without the `u` flag matches one UTF-16 code unit. Dafny characters are Unicode scalar values, so a character outside the Basic Multilingual Plane counts as one character here, and as two code units in the source.
- EltString.ParseEltString: an id group that the regular expression leaves unmatched (`undefined`) and an empty one (`""`) are both represented as the empty string, because the source treats them alike (both are falsy).
