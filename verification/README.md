# compat-check: index-state JSON mapping and the compatibility table

This project models the two pieces of pure logic of the compat-check
harness. The harness checks whether one release of a storage engine can
read the on-disk index state written by another release.

- **The JSON field mapping of `compat_check.h`.** Typed `read_value`
  decoders check the kind and width of one JSON number. A generic overload
  handles named types and another handles `fragmented_vector`. `read_member`
  treats a missing key as a no-op. `from_json` builds an `index_state` from
  a parsed document and `to_json` writes one. `read_corpus` compares the
  decoded state with the binary one. `make_random_index_state` builds the
  state that is written. The parsed document is the datatype `Json.Json`.
  Object members keep their order and their duplicates. `index_state` is
  the record `Storage.IndexState`.
- **The compatibility table of `check.py`.** The script builds an n-by-n
  table of booleans over the known versions, all true at first. It narrows
  each version's row by that version's indicator strings. `>v` clears every
  later column, `<v` clears every earlier one, `+v` sets one column and any
  other first character is ignored. Finally it classifies every cell as an
  upgrade, downgrade or self check. The table is `seq<seq<bool>>`. The loops
  are methods whose contracts tie them to functional references
  (`ApplyList`, `ApplyEntries`). Lemmas state properties of those
  references: the last writer wins, idempotence, the frame, and the verdicts.

The script's lines 14-15 join the row lookup and the following `for` into
one line (`]for`) that does not parse. The model follows the evident
intent: look up the version's row, then loop over its indicators.

Modules:

- `Wrappers`: `Option`, `Result`, `Outcome`.
- `Ints`: the fixed-width integer ranges.
- `Json`: the document, the rapidjson kind queries and `FindMember`.
- `Storage`: `index_state`.
- `CompatCheck` and `CompatCheckLemmas`.
- `CompatTable` and `CompatTableLemmas`.

## Model

| member | source | states |
|---|---|---|
| CompatCheck.Verify | compat_check.h:17-21 | `verify(b)` passes exactly when `b` holds; otherwise it fails with the one error it throws |
| CompatCheck.ReadInt64 | compat_check.h:23-26 | succeeds exactly on an integer in the signed 64-bit range, and the value stored is the number itself; otherwise it fails with the verify error |
| CompatCheck.ReadUint64 | compat_check.h:28-31 | succeeds exactly on an integer in [0, 2^64), and stores that number unchanged; otherwise it fails |
| CompatCheck.ReadUint32 | compat_check.h:33-36 | succeeds exactly on an integer in [0, 2^32), and stores that number unchanged; otherwise it fails |
| CompatCheck.ReadInt32 | compat_check.h:38-41 | succeeds exactly on an integer in the signed 32-bit range, and stores that number unchanged; otherwise it fails |
| CompatCheckLemmas.PrimitiveReadsInvertWrite | compat_check.h:23-41 | every value of each of the four target types, once written as a JSON number, decodes back to itself |
| CompatCheckLemmas.NoSignOrKindConversion | compat_check.h:28-36 | a negative number never decodes into an unsigned type, and a non-integer value never decodes into any of the four types |
| CompatCheck.ReadNamed | compat_check.h:43-50 | the named-type overload fails exactly when the decode of the underlying type fails, with the same error; otherwise it wraps that decoded value unchanged |
| CompatCheck.ReadOffset | compat_check.h:43-50 | `model::offset` decodes exactly from a signed 64-bit integer and holds that integer |
| CompatCheckLemmas.OffsetReadInvertsWrite | compat_check.h:43-50 | every offset, written as its number, decodes back to the same offset |
| CompatCheck.ReadElems | compat_check.h:54-58 | the element loop succeeds exactly when every element decodes; the result is the old target followed by the decoded elements in order; a failure carries the error of the first element that fails |
| CompatCheck.ReadArray | compat_check.h:52-59 | on an array it succeeds exactly when every element decodes, and it appends them to the target in order; on anything else it trips the array assertion |
| CompatCheckLemmas.ReadArrayAppendsToTarget | compat_check.h:52-59 | decoding into a non-empty target gives that target followed by what decoding into an empty one gives: the overload appends and never replaces |
| CompatCheckLemmas.ReadArrayInvertsWrite | compat_check.h:52-59 | a serialized sequence of 32- or 64-bit unsigned integers decodes back to the same sequence |
| Json.FindMemberFirst | compat_check.h:63 | a member lookup finds nothing exactly when no member has the key; otherwise it finds the value of a member with the key that no earlier member shares |
| Json.FindMemberAt | compat_check.h:63 | the first member carrying a key decides what the lookup returns |
| CompatCheck.ReadMember | compat_check.h:61-66 | with the key absent the target comes back unchanged and nothing fails; with it present the result is that of decoding the first matching member into the target |
| CompatCheck.ReadUint32Member | compat_check.h:61-66 | reading a `uint32_t` member succeeds exactly when the member is absent or holds a 32-bit unsigned integer; the field then holds that integer, or keeps its value when the key is absent |
| CompatCheck.ReadInt64Member | compat_check.h:61-66 | the same for a signed 64-bit member |
| CompatCheck.ReadOffsetMember | compat_check.h:61-66 | the same for an offset member, through the named-type overload |
| CompatCheck.ReadUint32sMember | compat_check.h:61-66 | reading a vector member succeeds exactly when the member is absent or is an array of 32-bit unsigned integers; the result is the old vector followed by those integers in order |
| CompatCheck.ReadUint64sMember | compat_check.h:61-66 | the same for a vector of 64-bit unsigned integers |
| CompatCheck.ReadFields | compat_check.h:74-90 | the seven `read_member` calls succeed exactly when every member read is absent or of the kind its field needs; each field then holds the member's number(s), or the starting value when the key is absent |
| CompatCheck.FromJson | compat_check.h:69-93 | a non-object fails the first verify; for an object, decoding succeeds exactly when every field read fits; `max_offset` stays default; `base_timestamp` comes from its member, or from the uninitialised local when absent; `max_timestamp` always equals `base_timestamp`; the three vectors hold the members' arrays in order |
| CompatCheck.ReadCorpus | compat_check.h:101-103 | the corpus check passes exactly when the state decoded from the document equals the binary-decoded state, and it fails with the verify error when only that equality fails |
| CompatCheckLemmas.ReadCorpusOfEmptyDocumentFails | compat_check.h:95-103 | the document parsed from the placeholder empty buffer is null, so the corpus check always fails at the object verify |
| CompatCheck.WriteInts | compat_check.h:149-155 | a serialized sequence is an array with one number per element, in order |
| CompatCheck.ToJson | compat_check.h:131-158 | `to_json` writes an object with exactly the seven keys, in order, none of them `max_offset`; the "max_timestamp" member holds `max_timestamp` |
| CompatCheckLemmas.ToJsonKeysDistinct | compat_check.h:136-154 | the seven keys `to_json` writes are pairwise different |
| CompatCheckLemmas.ToJsonLookupAt | compat_check.h:134-157 | looking up the k-th written key finds the k-th written value |
| CompatCheckLemmas.ToJsonLookups | compat_check.h:134-157 | each of the seven keys looks up the serialized value of its own field |
| CompatCheckLemmas.ToJsonIsDecodable | compat_check.h:131-158 | every document `to_json` writes passes every kind check `from_json` makes |
| CompatCheckLemmas.FromJsonOfToJson | compat_check.h:74-90 | round trip: decoding what `to_json` wrote gives back the state with `max_offset` reset to the default and `max_timestamp` replaced by `base_timestamp`, and every other field (the vectors element by element) unchanged |
| CompatCheckLemmas.FromJsonRecoversExactly | compat_check.h:101-103 | the round trip gives back the very same state exactly when `max_offset` is the default and `max_timestamp == base_timestamp` |
| CompatCheckLemmas.ReadCorpusOfWrittenState | compat_check.h:101-103 | a corpus written for a state (binary part decoding back to it) passes `read_corpus`'s check exactly when `max_offset` is the default and `max_timestamp == base_timestamp` |
| CompatCheckLemmas.MaxTimestampMemberIgnored | compat_check.h:82-84 | changing the written `max_timestamp` never changes what `from_json` decodes |
| CompatCheckLemmas.MaxTimestampLost | compat_check.h:84 | a concrete state (base 1, max 2) does not survive the round trip |
| CompatCheckLemmas.MissingBaseTimestampIndeterminate | compat_check.h:78-80 | with no "base_timestamp" member the decoded timestamps depend on the uninitialised local: two different indeterminate values give two different states |
| CompatCheckLemmas.FirstDuplicateMemberWins | compat_check.h:61-66 | with duplicate keys only the first member is read: a good first member is decoded and a bad second one ignored, and the other way round it fails |
| CompatCheck.FromJsonIntended | compat_check.h:78-84 | the corrected decoder: the same checks and fields as `from_json`, but `max_timestamp` comes from its own member and a missing timestamp keeps its default |
| CompatCheckLemmas.FromJsonIntendedOfToJson | compat_check.h:74-90 | the corrected round trip gives back everything `to_json` writes, `max_timestamp` included; only `max_offset` comes back as the default |
| CompatCheckLemmas.FromJsonIntendedOfEmptyObject | compat_check.h:69-93 | the corrected decoder maps an empty object to the default state |
| CompatCheck.MakeRandomIndexState | compat_check.h:109-129 | the builder as written copies the five drawn header fields, and for every count n in [1, 10000] it holds exactly one entry, the first one drawn |
| CompatCheck.MakeIndexStateIntended | compat_check.h:119-126 | the corrected builder holds exactly n entries, the drawn ones in order, with the same header fields |
| CompatTable.NewTable | check.py:7 | the initial table is n rows of n entries, every entry true |
| CompatTable.IndexOf | check.py:17 | `versions.index(name)` finds nothing exactly when the name is missing; otherwise it finds the first position holding the name |
| CompatTable.LeadingSpaces | check.py:17 | the whitespace prefix that `strip` removes is all whitespace and stops at the first other character |
| CompatTable.TrailingSpaces | check.py:17 | the whitespace suffix that `strip` removes is all whitespace and stops at the last other character |
| CompatTable.Strip | check.py:17 | `str.strip()` returns a slice of its input with only whitespace cut from both ends, and the result neither starts nor ends with whitespace |
| CompatTableLemmas.StripOfClean | check.py:17 | a name with no surrounding whitespace strips to itself |
| CompatTable.ParseIndicator | check.py:16-28 | an empty indicator raises `IndexError`; a first character other than `>`, `<`, `+` is ignored; otherwise it raises `ValueError` exactly when the stripped rest is not a version, and it otherwise names the first column of that version, with the kind given by the first character |
| CompatTable.ApplyOp | check.py:16-28 | `>v` sets false every column after v's, `<v` every column before it, `+v` sets v's column true, an unknown indicator writes nothing; every column not written keeps its value |
| CompatTable.ParseAll | check.py:15-28 | a list parses exactly when every indicator parses, to one op per indicator in order, each naming a real column; otherwise it raises the exception of the first bad indicator |
| CompatTable.ApplyList | check.py:15-28 | a list raises exactly when its parse raises, with the same exception, and otherwise keeps the row's length |
| CompatTable.ApplyIndicator | check.py:16-28 | the in-place loops on one indicator raise exactly what its parse raises and otherwise produce the row that the parsed op's effect describes |
| CompatTable.ApplyIndicators | check.py:15-28 | the loop over one version's list agrees with parsing the whole list and then applying its ops in order, exceptions included |
| CompatTable.ParseAllStep | check.py:15-28 | one more good indicator extends the parsed prefix by its op; a bad one makes the whole list raise its exception |
| CompatTable.ApplyOpsSnoc | check.py:15 | a list with one more op applies that op last |
| CompatTable.ApplyEntry | check.py:13-15 | an unknown version raises `ValueError` with its name; otherwise the table stays n-by-n |
| CompatTable.ApplyEntries | check.py:13-28 | applying every item of the mapping keeps the table n-by-n |
| CompatTable.ApplyVersion | check.py:13-28 | one item raises `ValueError` for an unknown version; otherwise only the row of that version changes, it becomes the list applied to the old row, and the table stays n-by-n |
| CompatTable.ApplyNotCompatible | check.py:13-28 | the loop over the mapping agrees with applying its items in order, the first exception ending the run |
| CompatTable.FailureIsFinal | check.py:13-28 | once a prefix of the items raises, the whole run raises the same exception |
| CompatTableLemmas.LastWriterWins | check.py:15-28 | each column ends with the value written by the last indicator that writes it, or its old value when none does |
| CompatTableLemmas.LastWriteStart | check.py:15-28 | a column that no op writes keeps its starting value; a column some op writes does not depend on its starting value |
| CompatTableLemmas.ApplyOpsIdempotent | check.py:15-28 | applying a parsed list a second time changes nothing |
| CompatTableLemmas.ApplyListIdempotent | check.py:15-28 | applying a version's indicator list twice gives the same row as applying it once |
| CompatTableLemmas.ApplyOpsConcat | check.py:15-28 | applying two lists one after the other is applying their concatenation |
| CompatTableLemmas.OnlyEnableSets | check.py:16-26 | without a `+` indicator a list can only clear entries, never set one |
| CompatTableLemmas.NoEnableNeverTrue | check.py:16-23 | with only clearing and unknown indicators the last write of a column is never true unless its start was |
| CompatTableLemmas.UntouchedRowsKept | check.py:13-15 | a row that no item's version maps to is the same after the run as before |
| CompatTableLemmas.EnableAfterClearWins | check.py:16-26 | with versions a, b, c, the list `>a`, `+c` leaves the row true, false, true: a later `+` re-enables a cleared column |
| CompatTableLemmas.ClearAfterEnableWins | check.py:16-26 | the same two indicators in the other order leave true, false, false: a later `>` clears an enabled column |
| CompatTableLemmas.ParseClearSample | check.py:16-17 | `>a` against the versions a, b, c clears after column 0 |
| CompatTableLemmas.ParseEnableSample | check.py:24-25 | `+c` against the versions a, b, c enables column 2 |
| CompatTableLemmas.ParseTwo | check.py:15 | a two-indicator list parses to its two ops in order |
| CompatTableLemmas.ParseOne | check.py:15 | a one-indicator list parses to its op |
| CompatTableLemmas.ApplyTwo | check.py:15 | two ops in a list apply one after the other |
| CompatTableLemmas.SelfIncompatibilityReachable | check.py:16-19 | with versions a, b, the item b: `>a` clears b's own column, and that cell is reported as not self-compatible |
| CompatTable.DirectionOf | check.py:32-33 | a cell is an upgrade exactly when j < i, a downgrade exactly when i < j, and self exactly when i == j |
| CompatTableLemmas.ClassifyDecodes | check.py:30-47 | the printed verdict of a cell gives back exactly its entry and its direction, so every cell gets exactly one of the six lines |
| CompatTableLemmas.NotSelfCompatibleExactly | check.py:41-47 | "not self-compatible" is printed exactly for a false entry on the diagonal |
| CompatTable.ClassifyTable | check.py:30-47 | the loops give every cell of the table one verdict, and that verdict matches the cell's entry and direction |

## Left out

- Seastar futures, files, output streams, flushing and closing (compat_check.h:160-184) are I/O plumbing and are not modelled.
- Parsing JSON text with rapidjson (compat_check.h:95-100) is not modelled; the parsed `Json` value is the input. `ReadCorpusOfEmptyDocumentFails` takes the document parsed from the empty placeholder buffer to be null.
- The serde binary codec (compat_check.h:103, 179) is not part of this model. `ReadCorpus` takes the binary-decoded state as a parameter, and `ReadCorpusOfWrittenState` assumes serde decodes what it encoded.
- `json::rjson_serialize` is not part of this model. `WriteInt` and `WriteInts` assume it writes an integer as a JSON integer of the same value and a vector as an array of its elements in order.
- `storage/index_state.h` is not part of this model. `AddEntry` assumes `add_entry` appends one element to each of the three vectors, `ReadCorpus` assumes `operator==` compares field by field, and `Storage.Default` assumes every field default-constructs to zero or empty.
- The random generators become the `Draws` parameter of the builders. `MakeRandomIndexState` requires the drawn count to lie in [1, 10000], as `get_int(1, 10000)` promises.
- An integer literal beyond 64 bits is stored by rapidjson as a double. The model keeps it as `JInt` but makes every integer query false for it, which has the same effect on the decoders.
- `GetArray()` on a non-array is a debug assertion in rapidjson, not a `verify`. It is modelled as the separate error `NotAnArray`.
- Uninitialised reads (compat_check.h:78, 82) are modelled by the `uninit` parameter of `FromJson`. `uninit` stands for the indeterminate value of both timestamp locals, since the starting value of `max_t` is never observed.
- check.py: opening and loading `rpc_compat.json`, the "downloading" prints and the wording of the printed command lines (check.py:3-11, 28, 36-47) are left out. Only the choice between the six printed lines is modelled, as `Verdict`.
- `Strip` models `str.strip()` with Python's `str.isspace` set of characters.

## Findings

| source | as written | input that shows it | evidently intended | confidence | as-written member | corrected member |
|---|---|---|---|---|---|---|
| compat_check.h:84 | `st.max_timestamp = model::timestamp{base_t}` reads the "base_timestamp" local, so the decoded "max_timestamp" member is dropped | an index state with base_timestamp 1 and max_timestamp 2, written by `to_json` and read back, gives max_timestamp 1, so the check at line 103 fails for a correct corpus | `model::timestamp{max_t}` | high (not executed) | CompatCheckLemmas.MaxTimestampLost | CompatCheckLemmas.FromJsonIntendedOfToJson |
| compat_check.h:125 | `return st;` inside the `for` body ends the builder after the first `add_entry` | any drawn count n >= 2 yields a state with one entry instead of n | no `return` inside the loop | high (not executed) | CompatCheck.MakeRandomIndexState | CompatCheck.MakeIndexStateIntended |
| compat_check.h:78 | `model::timestamp::type base_t;` is left uninitialised and is only assigned when "base_timestamp" is present | the empty object `{}` decodes to timestamps holding an indeterminate value, so two runs can disagree | initialise the locals from the state's defaults | medium (not executed) | CompatCheckLemmas.MissingBaseTimestampIndeterminate | CompatCheckLemmas.FromJsonIntendedOfEmptyObject |
