# ESP32 events aggregator — Dafny model

The repository is a small Express server for an ESP32 alarm device. Its only
logic is the `GET /esp32/events` handler in `server.js`. The handler reads two
Firestore collections: `normalEvents` holds recurring records and
`specialEvents` holds dated ones. It maps every document to a uniform event
descriptor and fills in defaults for missing fields. It lists the recurring
descriptors first, then the dated ones, and sorts the whole list by its `time`
string. If either read throws, it answers `{ error: message }` instead.

The model is written in the same order:

- `wrappers.dfy` — `Result`, the outcome of one collection read.
- `js_values.dfy` — `JsValues.Value`, the dynamically typed field values of a
  document. It defines JavaScript truthiness and nullishness, and the two
  defaulting operators the handler uses: `||` (`OrElse`) and `??` (`NullishOr`).
- `lex_order.dfy` — `LexOrder.LexLe`, the string order used to sort, with its
  total-order laws.
- `events.dfy` — stored documents (`Doc`: id plus field map), the
  `Descriptor` datatype (`Normal` / `Special`, the `type` tag), and the two
  per-record mappings with their defaulting laws.
- `time_sort.dfy` — a stable insertion sort keyed on `time`. It comes as a
  function and as a loop-based method. The module also proves that the sort
  is the unique stable ordering.
- `aggregator.dfy` — `Aggregate`, the handler as a function of the two reads,
  and `HandleEvents`, the handler with its push loops. `HandleEvents` maps the
  recurring snapshot after the dated read rather than between the two reads
  (see "## Left out").

## Model

| member | source | states |
|---|---|---|
| JsValues.OrElse | server.js:38-40 | `v \|\| d` keeps a truthy `v` and otherwise yields `d`, so `false \|\| 0` is `0`; the result is truthy iff `v` or `d` is |
| JsValues.NullishOr | server.js:41 | `v ?? d` keeps any non-nullish `v`, `false` included, and yields `d` only for null or undefined; the result is nullish only when both are |
| JsValues.OrElseAndNullishOrDiffer | server.js:38-41 | when the stored value is not the default itself, the two defaulting operators give different results exactly on `false`, `0` and `""` |
| LexOrder.LexLe | server.js:61 | the sort comparator `a.time.localeCompare(b.time)`, abstracted to plain lexicographic order of characters: a prefix sorts first, otherwise the first differing character decides |
| LexOrder.LexLeTotal | server.js:61 | any two time strings are comparable |
| LexOrder.LexLeAntisymmetric | server.js:61 | two times compare equal only when they are the same string |
| LexOrder.LexLeTransitive | server.js:61 | the time comparison is transitive, so sorting by it is well defined |
| Events.Descriptor.TypeTag | server.js:35-51 | the `type` field is "normal" exactly for a recurring descriptor and "special" exactly for a dated one |
| Events.MapNormal | server.js:31-43 | a recurring record yields a `normal` descriptor; `id`, `time` and `tone` are copied; `delay`, `title` and `days` keep a truthy stored value and otherwise get 0, "No Title" and []; `active` keeps any non-nullish value, `false` included, and otherwise gets true |
| Events.MapSpecial | server.js:47-58 | a dated record yields a `special` descriptor; `id`, `time` and `tone` are copied; `delay` is 0; `date` is copied even when absent; `description` keeps a truthy value and otherwise gets "No Description" |
| Events.MapNormals | server.js:31-43 | every recurring record maps to one descriptor, in snapshot order |
| Events.MapSpecials | server.js:47-58 | every dated record maps to one descriptor, in snapshot order |
| Events.NormalDefaults | server.js:38-41 | a recurring record without `delay`, `title`, `days` or `active` gets 0, "No Title", [] and true |
| Events.FalsyVersusNullish | server.js:39-41 | a stored `active: false` survives, while an empty `title` becomes "No Title" and a `false` `delay` becomes 0 |
| Events.SpecialIgnoresStoredDelay | server.js:54 | whatever `delay` a dated record stores, its descriptor is the same |
| Events.RenormalizeNormal | server.js:33-42 | mapping is idempotent: a recurring descriptor stored back and mapped again is unchanged (this holds for any choice of defaults; the defaults themselves are fixed by `NormalDefaults` and `FalsyVersusNullish`) |
| Events.RenormalizeSpecial | server.js:49-57 | the same idempotence for dated descriptors, absent `date` included |
| TimeSort.Insert | server.js:61 | the result has one more element, holds the old elements plus `x`, and is ascending whenever the list it was inserted into is |
| TimeSort.Sort | server.js:61 | the output is a permutation of the input, of the same length, and ascending by `time` |
| TimeSort.SortStable | server.js:61 | for every time, the descriptors with that time keep their input order |
| TimeSort.SortedAllPairs | server.js:61 | in an ascending list every earlier time sorts at or before every later one |
| TimeSort.StableSortUnique | server.js:61 | two ascending lists with the same time groups in the same order are equal |
| TimeSort.SortCharacterized | server.js:61 | any ascending list that keeps every time group of the input in input order is exactly the sort's output |
| TimeSort.SortKeepsAscending | server.js:61 | an ascending list is left unchanged by the sort, so sorting twice equals sorting once |
| TimeSort.InsertByTime | server.js:61 | the scanning insertion loop computes the insertion function |
| TimeSort.SortByTime | server.js:61 | the loop-based insertion sort, inserting from the back, computes `Sort` |
| Aggregator.Merged | server.js:27-58 | the unsorted list has one entry per record: recurring descriptors at positions 0..n-1, then dated descriptors |
| Aggregator.Aggregate | server.js:26-67 | an error exactly when a read fails, carrying the recurring read's message first; otherwise a list whose length is the sum of the two collection sizes, which is a permutation of the mapped records and ascending by `time` (every adjacent pair in order) |
| Aggregator.NormalFailureIgnoresSpecialRead | server.js:26-46 | once the recurring read fails, the answer is that error, whatever the dated read would return |
| Aggregator.SpecialFailureDiscardsNormals | server.js:30-66 | once the dated read fails, the answer is that error, whatever the recurring snapshot held: no partial list |
| Aggregator.RecordsAppearInAnswer | server.js:31-61 | nothing is filtered: the descriptor of every record of either collection is in the answer |
| Aggregator.EntriesComeFromTheirCollection | server.js:31-61 | nothing is invented: every `normal` entry is the descriptor of some recurring record, and every `special` entry of some dated record |
| Aggregator.MergedEntriesOrigin | server.js:31-58 | every entry of the unsorted list is the descriptor of a record of the collection its variant names |
| Aggregator.EqualTimesKeepStoreOrder | server.js:27-61 | among entries with equal times, the recurring ones come first in snapshot order, then the dated ones |
| Aggregator.AnswerIsTheStableOrder | server.js:27-61 | the answer is the one list that is ascending and keeps the store order among equal times |
| Aggregator.EmptyStore | server.js:27-63 | two empty collections give an empty list, not an error |
| Aggregator.MorningScenario | server.js:31-61 | a recurring 07:00 event and a dated 06:30 event come out dated first, each with its defaults |
| Aggregator.MorningMerged | server.js:31-58 | the two records of that scenario map to their defaulted descriptors, recurring first |
| Aggregator.MorningSorted | server.js:61 | sorting puts the 06:30 descriptor before the 07:00 one |
| Aggregator.HandleEvents | server.js:25-67 | the push loops and the sort compute `Aggregate` on every input `Aggregate` accepts; the dated collection is read only after the recurring read succeeds |

## Notes on behaviour

- `delay`, `title`, `days` and `description` are defaulted with `||`. A
  stored `0`, `false` or `""` is therefore replaced too, not only a missing
  field. `active` uses `??`, so a stored `false` is kept.
- `Array.prototype.sort` has been stable since ECMAScript 2019, and the
  model's sort is stable too. The recurring descriptors are pushed first, so
  among equal times recurring events come before dated ones.
- A record's `time` matters only when both reads succeed. If either read
  fails, the answer is that error whatever the records hold.

## Left out

- Express setup, CORS, the root route, port binding and logging
  (server.js:1-8, 19-22, 65, 70-74): transport plumbing.
- Firebase credential loading, `initializeApp` and the collection reads
  (server.js:11-17, 30, 46): foreign I/O. Each read is an input of type
  `Result<seq<Doc>, string>`, and a failure carries `err.message`.
- `async`/`await`: the two reads are two sequential inputs. `HandleEvents`
  reports which collections it read.
- `localeCompare`: it depends on the locale. The model compares strings by
  plain lexicographic order of their characters.
- Records without a string `time` when both reads succeed: depending on
  the records, the comparator may throw, may compare a value converted to a
  string, or may not run at all (a single record is never compared). No
  behaviour is designed for this. In that case every record is required to
  have a string `time` (`TimedWhenRead`).
- Aggregator.HandleEvents: maps the recurring snapshot after the dated read,
  not between the two reads (server.js:31-46). Mapping cannot throw, so the
  answer and the collections read are the same; mapping afterwards means a
  failed dated read needs no well-formed recurring records.
- Numbers: field values are integers. NaN, -0 and fractions are not modelled.
  NaN and -0 are also falsy for `||`.
- HTTP status codes and JSON serialisation of the answer (server.js:63, 66).
  A field holding `undefined`, such as an absent `date`, is kept as
  `Undefined` and not dropped from the object.
