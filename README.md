# Partition templates, partition keys, the query log and catalog cache peers

This project is a Dafny model of three parts of the InfluxDB 3 core.

- **Partition templates** (`PartitionTemplate`, with the byte-level codec in
  `KeyCodec`). A template lists up to eight parts: tag values, strftime time
  formats and hash buckets.
  - A user-supplied template is validated. The part count is checked first,
    then each part in order. Tag names must be non-empty, must not mention
    `time`, and may not repeat. Formats must be non-empty, free of `%#z`, and
    accepted by the formatter. Bucket counts must lie in `[1, 100000)`.
  - A table's template is resolved from its own custom template, else the
    namespace's, else the default of one part, `%Y-%m-%d`.
  - A tag value is hashed into a bucket.
- **Partition keys** (`PartitionKey`). A key is the template's parts joined
  by `|`.
  - A part is percent-encoded. `^` stands for an empty value and `!` for a
    missing one.
  - A part cut to 200 bytes ends in `#`.
  - `build_column_values` reverses a key into column values: exact values,
    value prefixes, time ranges and bucket ids.
  - The model proves that a key written by the encoder described in the
    module documentation reads back as the row's values.
- **The query log** (`QueryLogging`). This is a bounded log of recently
  issued queries.
  - Each query is tracked by a type-state token that moves it from received
    to planned to permit, and then to success, fail or cancel.
  - Its durations are recorded in cells that hold a sentinel until they are
    set.
  - Dropping a token cancels a query that neither failed nor finished. Once
    the permit was granted, it also keeps the partial compute statistics.
- **Catalog cache peers** (`CatalogCache`). The configured peer URLs,
  without this node's own host, must be exactly two.

Dafny's `int` models every duration and instant: time is counted in
nanoseconds. The repository's clock (`TimeProvider`) and UUID generator
become parameters: every method that reads the clock takes the reading
(`now`, and `dropNow` for the drop that ends a consuming call). Three pieces
of code outside these files become function-typed parameters:

- the murmur3 hash (`IcebergHash`);
- the strftime formatter's validity check (`StrftimeCheck`);
- chrono's parser and calendar (`Chrono`).

Where the documentation and the code disagree, the model follows the code.

- `QueryLog::push` evicts only while the log holds more than `max_size`
  entries, and then appends. So the log retains `max_size + 1` entries,
  not the `size` promised at iox_query/src/query_log.rs:306-307
  (`QueryLogging.PushedAllKeepsNewest`, `QueryLogging.RetentionScenario`).
- The part-count check counts unset parts. A template whose only part is
  unset therefore validates, and its `len()` is 0, although the comment at
  data_types/src/partition_template.rs:407 says there are always parts
  (`PartitionTemplate.UnsetOnlyTemplateHasNoParts`).
- If the clock goes backwards between the permit and `success`, the
  execute duration stays unset. Dropping the token then turns the
  `Success` phase into `Cancel` (`QueryLogging.OnDrop`: the cancel test
  reads the execute duration).

## Model

| member | source | states |
|---|---|---|
| KeyCodec.HexDigit | data_types/src/partition_template.rs:277-282 | escapes are written as upper-case hex digits that read back as the nibble they encode |
| KeyCodec.PercentEncode | data_types/src/partition_template.rs:27-48 | an encoded value is at most three times as long as the value |
| KeyCodec.PercentDecode | data_types/src/partition_template.rs:806-842 | decoding never lengthens its input |
| KeyCodec.EncodeLength | data_types/src/partition_template.rs:27-48 | encoding never shortens a value, and only the empty value encodes to nothing |
| KeyCodec.EncodeHasNoRawSentinel | data_types/src/partition_template.rs:103-115 | an encoded value holds no raw delimiter, `!`, `^` or `#`, and every `%` in it starts an escape |
| KeyCodec.EscapeRoundTrip | data_types/src/partition_template.rs:277-282 | the `%XX` escape written for a byte decodes back to that byte |
| KeyCodec.DecodeEncodeAppend | data_types/src/partition_template.rs:27-48 | decoding an encoded value gives it back, whatever bytes follow it |
| KeyCodec.DecodeEncode | data_types/src/partition_template.rs:806-842 | percent-decoding is the inverse of percent-encoding |
| KeyCodec.DecodeAppendLiteral | data_types/src/partition_template.rs:824-838 | a final byte that cannot be part of an escape, such as `#`, decodes to itself without changing the bytes before it |
| KeyCodec.ValidUtf8Append | data_types/src/partition_template.rs:818-820 | well-formed UTF-8 followed by well-formed UTF-8 is well formed |
| KeyCodec.ValidUtf8DropAscii | data_types/src/partition_template.rs:824-838 | removing the final ASCII byte from well-formed UTF-8 leaves it well formed |
| KeyCodec.Split | data_types/src/partition_template.rs:772 | splitting a key on the delimiter yields at least one piece |
| KeyCodec.JoinLength | data_types/src/partition_template.rs:95-101 | a joined key is as long as its parts plus one delimiter between each two |
| KeyCodec.SplitJoin | data_types/src/partition_template.rs:764-804 | splitting a joined key gives back its parts when no part holds the delimiter |
| KeyCodec.SplitPiece | data_types/src/partition_template.rs:772 | a piece without the delimiter is split off whole, and on its own it splits to itself |
| KeyCodec.ParseU32 | data_types/src/partition_template.rs:900-910 | text that parses as a `u32` is not empty and ends in a decimal digit |
| KeyCodec.ParseU32LeadingByte | data_types/src/partition_template.rs:900-910 | text that starts with neither a digit nor `+` is not a `u32` |
| KeyCodec.DigitsValueDecimal | data_types/src/partition_template.rs:900-910 | the decimal digits written for a number read back as that number |
| KeyCodec.ParseDecimal | data_types/src/partition_template.rs:900-910 | parsing the decimal rendering of a `u32` bucket id gives the id |
| KeyCodec.DecimalHasNoReserved | data_types/src/partition_template.rs:103-115 | a decimal bucket id never holds a reserved key byte |
| PartitionTemplate.MissingCharNotContained | data_types/src/partition_template.rs:593-597 | a name that lacks a character of `time` does not contain `time` |
| PartitionTemplate.WrapperTryFrom | data_types/src/partition_template.rs:542-630 | validation of a template, with its parts scanned in order, returns exactly the specified result |
| PartitionTemplate.CheckPartSeen | data_types/src/partition_template.rs:558-626 | a part passes its check exactly when it is valid on its own and its tag name was not claimed before it |
| PartitionTemplate.CheckPartsSound | data_types/src/partition_template.rs:554-627 | parts the scan accepts are each valid, with tag names pairwise distinct and not claimed before |
| PartitionTemplate.CheckPartsComplete | data_types/src/partition_template.rs:554-627 | parts that are each valid, with distinct unclaimed tag names, are accepted |
| PartitionTemplate.ValidateAccepts | data_types/src/partition_template.rs:542-630 | a template validates iff it has 1 to 8 parts, each valid, with distinct tag names; the result wraps the template unchanged |
| PartitionTemplate.Validate | data_types/src/partition_template.rs:542-630 | the result is `NoParts` iff there are no parts and `TooManyParts` iff there are more than 8, whatever the parts hold; too many parts reports the number of parts given; an accepted template has 1 to 8 parts and is wrapped unchanged |
| PartitionTemplate.CheckPart | data_types/src/partition_template.rs:558-626 | an unset part always passes; a part error is never a count error; a bad format comes from a time part, a bad count from a bucket part outside 1 to 99999, and a repeat names the part's own tag name, already claimed |
| PartitionTemplate.CheckParts | data_types/src/partition_template.rs:554-627 | an error found by the scan is one of the per-part kinds and never a count error |
| PartitionTemplate.CheckPartsFirstError | data_types/src/partition_template.rs:554-627 | the error reported is the check of the first failing part; every part before it passed |
| PartitionTemplate.RepeatedMeansClaimedBefore | data_types/src/partition_template.rs:599-619 | a `RepeatedTagValue(name)` error means two parts, an earlier and a later one, claim `name` |
| PartitionTemplate.NinePartsRejected | data_types/src/partition_template.rs:1037-1079 | a nine-part template is rejected with `TooManyParts(9)` |
| PartitionTemplate.RepeatedBananasRejected | data_types/src/partition_template.rs:1081-1133 | a name claimed twice by tag-value parts, bucket parts or one of each is rejected |
| PartitionTemplate.BadFormatsRejected | data_types/src/partition_template.rs:1135-1174 | an empty format and `%#z` are rejected, whatever the formatter says; a format it refuses is rejected |
| PartitionTemplate.BadTagNamesRejected | data_types/src/partition_template.rs:1176-1228 | empty names and `time` are rejected for tag-value and bucket parts |
| PartitionTemplate.BadBucketCountsRejected | data_types/src/partition_template.rs:1230-1259 | bucket counts 0 and 100000 are rejected as `InvalidNumberOfBuckets` |
| PartitionTemplate.NamespaceTryFrom | data_types/src/partition_template.rs:368-376 | a namespace override exists exactly for a valid template and wraps it unchanged |
| PartitionTemplate.SetParts | data_types/src/partition_template.rs:415-431 | every set proto part is yielded, wherever unset parts sit, and unset ones are skipped, so there are never more parts than proto parts |
| PartitionTemplate.SetPartsAppend | data_types/src/partition_template.rs:415-431 | the parts of two runs of proto parts are the parts of the first followed by those of the second |
| PartitionTemplate.SetPartsSingle | data_types/src/partition_template.rs:415-431 | one proto part yields its part when set and nothing when unset; with the row above, the parts are exactly the set proto parts, in order |
| PartitionTemplate.TestTablePartitionOverride | data_types/src/partition_template.rs:967-992 | the test helper builds an override with one proto part per given part |
| PartitionTemplate.SetPartsAllSet | data_types/src/partition_template.rs:415-431 | when every proto part is set, `parts()` yields them all, in order |
| PartitionTemplate.TestOverrideParts | data_types/src/partition_template.rs:967-992 | a test override yields exactly the parts it was built from |
| PartitionTemplate.TryNew | data_types/src/partition_template.rs:391-404 | with a custom table template the result succeeds iff that template validates, and then wraps it unchanged; without one it is the namespace's override |
| PartitionTemplate.Parts | data_types/src/partition_template.rs:415-431 | without an override the parts are the single default `%Y-%m-%d` part; with one, every set proto part is among them and there are at most as many as proto parts |
| PartitionTemplate.Len | data_types/src/partition_template.rs:405-410 | the default template has length 1; an override's length is at most its number of proto parts |
| PartitionTemplate.TryNewPrecedence | data_types/src/partition_template.rs:391-404 | a custom table template wins and must validate; otherwise the namespace's; otherwise the default, whose parts are `[%Y-%m-%d]` and whose `len()` is 1 |
| PartitionTemplate.SetPartsFrom | data_types/src/partition_template.rs:415-431 | every part yielded comes from a set proto part |
| PartitionTemplate.SetPartsOrder | data_types/src/partition_template.rs:415-431 | parts are yielded in proto order |
| PartitionTemplate.TryNewPartsValid | data_types/src/partition_template.rs:391-431 | a resolved template yields only valid parts with distinct tag names |
| PartitionTemplate.UnsetOnlyTemplateHasNoParts | data_types/src/partition_template.rs:405-410 | a template with one unset part validates and has `len()` 0 |
| PartitionTemplate.ClearSignBit | data_types/src/partition_template.rs:339-346 | `hash & i32::MAX` is below 2^31 and equals the hash modulo 2^31 |
| PartitionTemplate.BucketForTagValue | data_types/src/partition_template.rs:320-346 | the bucket is below the bucket count, and it is the hash with its sign bit cleared, modulo the count |
| PartitionKey.Equals | data_types/src/partition_template.rs:736-748 | a value equals a string iff it is an exact value that prefix-matches the string and has its length |
| PartitionKey.IsPrefixMatchOf | data_types/src/partition_template.rs:715-733 | a value prefix-matches a string iff it is an exact value or a prefix whose bytes are the string's first bytes |
| PartitionKey.EqualsIsPrefixMatch | data_types/src/partition_template.rs:715-748 | only an exact value equals a string, and then iff the bytes are the same; an equal value is a prefix match; an exact value or prefix matches iff its bytes start the string; a time range or bucket never matches |
| PartitionKey.ParsePartTagValue | data_types/src/partition_template.rs:806-842 | a tag-value part reads back as an exact value or a prefix, always well-formed UTF-8; otherwise the key panics with a bad encoding |
| PartitionKey.TruncatedDecodesWithMarker | data_types/src/partition_template.rs:824-838 | in a truncated part, the `#` survives decoding as the last byte, so cutting it leaves well-formed UTF-8 |
| PartitionKey.EncodeTagValue | data_types/src/partition_template.rs:27-48 | a present value never encodes to an empty key part |
| PartitionKey.EncodedTagValueNotNull | data_types/src/partition_template.rs:27-48 | a present value never encodes to the NULL sentinel `!` |
| PartitionKey.TagValueRoundTrip | data_types/src/partition_template.rs:806-842 | a tag value the generator writes reads back as exactly that value |
| PartitionKey.TruncatedRoundTrip | data_types/src/partition_template.rs:50-93 | a truncated part reads back as its prefix; the prefix prefix-matches the original and equals no string |
| PartitionKey.TruncatedKeyIsNotEmptyMarker | data_types/src/partition_template.rs:808-815 | a truncated part is never the empty-value sentinel `^` |
| PartitionKey.TruncatedKeyDecodes | data_types/src/partition_template.rs:824-838 | a truncated part decodes to its prefix followed by `#`, and that is well-formed UTF-8 |
| PartitionKey.ParsePartBucket | data_types/src/partition_template.rs:900-910 | a bucket part reads back iff it is a `u32` below the bucket count, as the bucket with that id and count; a non-number panics as a bad bucket encoding, and a number not below the count panics as out of range with that id and count |
| PartitionKey.BucketRoundTrip | data_types/src/partition_template.rs:900-910 | a bucket part the generator writes reads back as the value's bucket |
| PartitionKey.ParsedImplicitDefaults | data_types/src/partition_template.rs:912-959 | the loop fills the chrono fields from the month down and gives up on a gap, exactly as the specified defaults |
| PartitionKey.WithDefaultsCompletes | data_types/src/partition_template.rs:912-959 | a completed parse has every field from month to minute set, and the fields already set are unchanged |
| PartitionKey.WithDefaultsRejectsGaps | data_types/src/partition_template.rs:912-959 | no year, a day without a month, an hour without a day or a second without a minute gives no completion |
| PartitionKey.BuildColumnValues | data_types/src/partition_template.rs:764-804 | a reversed key has at most one entry per template part and per key part |
| PartitionKey.ParsePartTimeFormat | data_types/src/partition_template.rs:844-898 | a time part yields a time range only when chrono parses it and the defaults complete the parse; once they do, it yields exactly the range chrono gives for the completed time, and nothing if there is none |
| PartitionKey.ParsePart | data_types/src/partition_template.rs:785-803 | an entry is named after the column of its template part |
| PartitionKey.ZipParts | data_types/src/partition_template.rs:785-803 | the zip yields at most one entry per template part and per key part |
| PartitionKey.ZipStep | data_types/src/partition_template.rs:785-803 | the head of the zip contributes its entry exactly when its key part is not NULL and parses to one |
| PartitionKey.ZipProvenance | data_types/src/partition_template.rs:764-804 | each entry is what its key part parses to, in key order, and every key part that yields an entry is represented |
| PartitionKey.ZipFailure | data_types/src/partition_template.rs:764-804 | reversal panics iff some non-NULL key part fails to parse, and the panic is that of the first such part |
| PartitionKey.EncodeKeyPart | data_types/src/partition_template.rs:27-48 | a key part is `!` iff the row has no value, and never holds the delimiter |
| PartitionKey.EncodeKeyParts | data_types/src/partition_template.rs:27-48 | there is one key part per template part, each written by the part's encoder |
| PartitionKey.ZipEncodedParts | data_types/src/partition_template.rs:785-803 | zipping a template with the parts written for a row gives the row's values |
| PartitionKey.ReverseGeneratedKey | data_types/src/partition_template.rs:764-804 | a key generated for a row by a tag and bucket template reverses to the row's present values, in template order |
| PartitionKey.MaxKeyLength | data_types/src/partition_template.rs:95-101 | a key of at most 8 parts of at most 200 bytes is at most 1607 bytes long |
| PartitionKey.BucketFixtureExample | data_types/src/partition_template.rs:1624-1637 | under buckets of 41, 91 and 144, the key of parts 1, 2 and 3 reads back as buckets 1, 2 and 3 |
| PartitionKey.BucketOutOfRangeExample | data_types/src/partition_template.rs:1639-1654 | under buckets of 42, the key of parts 1, 1 and 43 panics with bucket id 43 out of range |
| PartitionKey.BucketNotNumberExample | data_types/src/partition_template.rs:1656-1671 | under buckets of 42, the key of parts 1, 1 and `bananas` panics as not a number |
| PartitionKey.EncodePlainPrefix | data_types/src/partition_template.rs:27-48 | bytes that need no escape pass through the encoding unchanged, whatever follows them |
| PartitionKey.DelimiterEncodingExample | data_types/src/partition_template.rs:139-145 | the value `cat`, delimiter, `dog` is written as `cat%7Cdog` |
| PartitionKey.SentinelEncodingExamples | data_types/src/partition_template.rs:139-145 | `!` is written as `%21`, `%50` as `%2550`, and the empty value as `^` |
| PartitionKey.EmptyTagOnlyExample | data_types/src/partition_template.rs:1715-1720 | a single NULL key part reverses to no entries |
| QueryLogging.Id | iox_query/src/query_log.rs:102-111 | a phase is stored as a byte below 6 |
| QueryLogging.FromId | iox_query/src/query_log.rs:114-124 | a stored byte decodes to the phase that stores as that byte |
| QueryLogging.FromIdOfId | iox_query/src/query_log.rs:102-124 | decoding a stored phase gives the phase back |
| QueryLogging.IdInjective | iox_query/src/query_log.rs:102-111 | distinct phases are stored as distinct bytes |
| QueryLogging.DurationSince | iox_query/src/query_log.rs:609-618 | `checked_duration_since` gives a duration exactly when the clock did not go backwards, and that duration bridges the two instants |
| QueryLogging.AtomicDuration.constructor | iox_query/src/query_log.rs:625-629 | a new cell holds the sentinel |
| QueryLogging.AtomicDuration.Get | iox_query/src/query_log.rs:602-607 | the cell reads as unset exactly when it holds the sentinel, else as the stored nanoseconds |
| QueryLogging.AtomicDuration.SetRelative | iox_query/src/query_log.rs:609-618 | the cell stores `now - origin`, or is left unchanged if the clock went backwards |
| QueryLogging.AtomicDuration.SetAbsolute | iox_query/src/query_log.rs:620-622 | the cell stores the given duration |
| QueryLogging.SumOwnAppend | iox_query/src/query_log.rs:632-646 | the reference sum distributes over concatenation |
| QueryLogging.TreeComputeSumsNodes | iox_query/src/query_log.rs:632-646 | the compute time of a plan tree is the sum of every node's recorded compute time |
| QueryLogging.ChildrenComputeSumsNodes | iox_query/src/query_log.rs:640-643 | the children's compute time is the sum over the nodes of their subtrees |
| QueryLogging.CollectComputeDuration | iox_query/src/query_log.rs:632-646 | the loop adds up the compute time recorded anywhere in the plan tree |
| QueryLogging.QueryLogEntry.constructor | iox_query/src/query_log.rs:334-350 | a new entry has the given identity and issue time; it is received, running, not successful, and has no durations |
| QueryLogging.QueryLogEntry.Cancelled | iox_query/src/query_log.rs:254-256 | an entry is cancelled exactly when its stored phase is `Cancel` |
| QueryLogging.OnPlanned | iox_query/src/query_log.rs:481-495 | planning sets the `Planned` phase and a planning time that bridges issue and now (kept if the clock went backwards); nothing else changes |
| QueryLogging.OnPlanningFailed | iox_query/src/query_log.rs:498-510 | a planning failure sets `Fail` and a planning time that bridges issue and now (kept if the clock went backwards); nothing else changes |
| QueryLogging.OnPermit | iox_query/src/query_log.rs:515-531 | the permit sets the `Permit` phase and a permit time that bridges the end of planning and now, keeping the planning time; nothing else changes |
| QueryLogging.OnFinish | iox_query/src/query_log.rs:554-564 | finishing records the compute time and an execution time that bridges the permit's grant and now, keeping the planning and permit times; nothing else changes |
| QueryLogging.OnSuccess | iox_query/src/query_log.rs:536-544 | a success sets the success flag and the `Success` phase, with the compute and execution times; nothing else changes |
| QueryLogging.OnExecutionFailed | iox_query/src/query_log.rs:547-552 | an execution failure sets `Fail` without touching the success flag, with the compute and execution times; nothing else changes |
| QueryLogging.OnDrop | iox_query/src/query_log.rs:567-588 | a drop stops the query, records end-to-end time from issue, and cancels exactly a query that neither failed nor finished |
| QueryLogging.DropEndsQuery | iox_query/src/query_log.rs:567-588 | a drop stops the query and measures end-to-end time from issue; the other durations and the success flag are untouched |
| QueryLogging.DropCancels | iox_query/src/query_log.rs:571-574 | a drop cancels exactly the queries that neither failed nor finished executing; other queries keep their phase |
| QueryLogging.DropKeepsTerminal | iox_query/src/query_log.rs:571-581 | a failed or finished query keeps its phase and compute time through a drop |
| QueryLogging.DropCollectsPartialCompute | iox_query/src/query_log.rs:575-578 | a cancel collects the partial compute time only once the permit was granted |
| QueryLogging.SuccessIsFinal | iox_query/src/query_log.rs:536-564 | a success followed by the drop ends in `Success`, with the success flag and the plan's compute time |
| QueryLogging.TransitionsFollowDiagram | iox_query/src/query_log.rs:23-34 | every token operation moves the phase along an edge of the documented diagram |
| QueryLogging.QueryCompletedToken.constructor | iox_query/src/query_log.rs:441-455 | a token holds its entry and its type state |
| QueryLogging.QueryCompletedToken.Entry | iox_query/src/query_log.rs:463-466 | the entry is the one the token holds |
| QueryLogging.QueryCompletedToken.CollectComputeTime | iox_query/src/query_log.rs:466-476 | a token with a plan stores the plan's compute time; a received token changes nothing |
| QueryLogging.QueryCompletedToken.Planned | iox_query/src/query_log.rs:481-495 | the entry records the planning time and the `Planned` phase, and moves to a new planned token |
| QueryLogging.QueryCompletedToken.Fail | iox_query/src/query_log.rs:498-510 | the planning time is recorded, the phase is `Fail`, and the dropped token ends the query |
| QueryLogging.QueryCompletedToken.Permit | iox_query/src/query_log.rs:515-531 | the permit time is recorded from the end of planning, and the entry moves to a new permit token |
| QueryLogging.QueryCompletedToken.Success | iox_query/src/query_log.rs:536-544 | execution and compute times are recorded, the query is successful, and the dropped token ends it |
| QueryLogging.QueryCompletedToken.FailExecution | iox_query/src/query_log.rs:547-552 | execution and compute times are recorded, the phase is `Fail`, and the dropped token ends the query |
| QueryLogging.QueryCompletedToken.Finish | iox_query/src/query_log.rs:554-564 | execution is timed from the permit, and the plan's compute time is stored |
| QueryLogging.QueryCompletedToken.Drop | iox_query/src/query_log.rs:567-588 | a drop releases the entry and applies the drop transition to it; a token already consumed does nothing |
| QueryLogging.Retained | iox_query/src/query_log.rs:363-367 | the retained entries are the newest `maxSize` of the log |
| QueryLogging.Pushed | iox_query/src/query_log.rs:359-372 | a push into a log of size zero changes nothing; otherwise the new entry is last and the log has at most `maxSize + 1` entries and grows by at most one |
| QueryLogging.PushBound | iox_query/src/query_log.rs:359-372 | a push keeps at most `maxSize + 1` entries, evicts the oldest, appends the new entry, and counts each eviction |
| QueryLogging.PushedAllKeepsNewest | iox_query/src/query_log.rs:306-307 | after any pushes the log holds the newest `maxSize + 1` entries in order, one more than documented |
| QueryLogging.ZeroSizedLogStaysEmpty | iox_query/src/query_log.rs:359-361 | a log of size zero never stores an entry |
| QueryLogging.QueryLog.constructor | iox_query/src/query_log.rs:312-324 | a new log is empty and has evicted nothing |
| QueryLogging.QueryLog.Push | iox_query/src/query_log.rs:326-373 | the new entry is logged as received at `now` and its token handed out; the log is the specified push and evictions are counted |
| QueryLogging.QueryLog.Entries | iox_query/src/query_log.rs:375-382 | the snapshot holds the log, its size limit and the eviction count |
| QueryLogging.TestPlanCompute | iox_query/src/query_log.rs:1000-1008 | the test plan recorded 1337 ms of compute time |
| QueryLogging.LogTestQuery | iox_query/src/query_log.rs:911-940 | the test fixture logs `SELECT 1` at 100 ms as the log's only entry |
| QueryLogging.EndToEndSuccessScenario | iox_query/src/query_log.rs:662-730 | planned after 1 ms, permit after 10 ms and success after 100 ms show the tested getter values at each step |
| QueryLogging.PlanningFailScenario | iox_query/src/query_log.rs:732-760 | failing at planning records 1 ms of planning and ends in `Fail`, not cancelled |
| QueryLogging.ExecutionFailScenario | iox_query/src/query_log.rs:762-800 | failing in execution records all durations, the compute time, and `Fail` |
| QueryLogging.DropBeforePlannedScenario | iox_query/src/query_log.rs:802-832 | dropping before planning cancels with only the end-to-end time |
| QueryLogging.DropBeforeAcquireScenario | iox_query/src/query_log.rs:834-866 | dropping while waiting for a permit cancels with planning and end-to-end times |
| QueryLogging.DropBeforeFinishScenario | iox_query/src/query_log.rs:868-905 | dropping during execution cancels and keeps the partial compute time |
| QueryLogging.RetentionScenario | iox_query/src/query_log.rs:359-372 | four pushes into a log of size 2 keep the newest three and evict one |
| CatalogCache.Filtered | clap_blocks/src/catalog_cache.rs:157-161 | filtering never adds peers |
| CatalogCache.Peers | clap_blocks/src/catalog_cache.rs:154-166 | the result is the two remaining peers in configured order exactly when two remain; otherwise `InvalidPeers` |
| CatalogCache.FilteredMembers | clap_blocks/src/catalog_cache.rs:157-161 | a peer is kept iff it is configured and does not have this node's host |
| CatalogCache.FilteredAppend | clap_blocks/src/catalog_cache.rs:157-161 | filtering preserves the configured order |
| CatalogCache.NoHostnameKeepsAll | clap_blocks/src/catalog_cache.rs:157-161 | without a host name every peer is kept |
| CatalogCache.HostlessPeersKept | clap_blocks/src/catalog_cache.rs:157-161 | peers without a host are never filtered out |
| CatalogCache.FilteredCount | clap_blocks/src/catalog_cache.rs:157-161 | exactly the peers whose host is this node's are removed |
| CatalogCache.TwoPeersSelected | clap_blocks/src/catalog_cache.rs:175-188 | two configured peers are returned in order |
| CatalogCache.ThreePeersRejected | clap_blocks/src/catalog_cache.rs:190-195 | three peers without a host name are rejected |
| CatalogCache.OwnHostFilteredOut | clap_blocks/src/catalog_cache.rs:197-199 | with host name `peer3` the other two peers are returned |

## Left out

- The binary snapshot format of the catalog is not part of this model.
- `iceberg_hash`: the murmur3 hash is the `IcebergHash` parameter. Its body is not modelled, so the fixture hashes of the bucket tests are not checked.
- The strftime formatter's validity test is the `StrftimeCheck` parameter. Only the checks written out in validation (empty format, `%#z`) are modelled.
- `parse_part_time_format`: chrono's parser and its calendar (the next day, month or year, and the conversion to UTC) are the `Chrono` parameter. The model states only how their results are combined.
- PartitionKey.ReverseGeneratedKey: covers templates of tag-value and bucket parts only, because time parts depend on the `Chrono` parameter.
- The key generator lives in `mutable_batch`, which is not part of this model. The encoder in `PartitionKey` is the one the module documentation describes, and the round trips are stated against it.
- The truncation algorithm (where a long value is cut at a character boundary) belongs to the generator. Only reading a truncated part back is modelled.
- `build_column_values` returns a lazy iterator that panics on a bad key. The model evaluates it to the end, and a panic is a `Failure`.
- Durations are `i64` or `u64` nanoseconds in the source. The model does not model their wrap-around, nor overflow when an instant and a duration are added.
- The mutex around the log, the atomics of the entry and the `Arc` sharing are not modelled. Each operation is one atomic step, and entries are shared objects.
- The `log()` tracing calls and `Display`/`Debug`/`name()` are not modelled, because they only produce text.
- `time_provider` and `id_gen` are not modelled. Clock readings and entry ids are parameters.
- URL and host parsing, the other `CatalogConfig` fields and the clap plumbing are not modelled. A URL is its text and its parsed host.
- `size()`, serde, sqlx encoding and the `TryFrom<Option<proto>>` conversion of table overrides are not modelled. They are representation code.
- The `panic_logging`, `iox_tests` and `kube_test` crates are not part of this model.
- QueryLogging.QueryCompletedToken.Permit: the source's `expect("valid state")` on the plan duration is a `requires`, because the panic cannot happen on a clock that does not go backwards.
- QueryLogging.QueryCompletedToken.Success: the `expect` calls on the permit and plan durations are a `requires`.
- QueryLogging.QueryCompletedToken.FailExecution: the `expect` calls on the permit and plan durations are a `requires`.
- QueryLogging.QueryCompletedToken.Finish: the `expect` calls on the permit and plan durations are a `requires`.
- QueryLogging.OnPermit: requires a planning time, as the `expect` on it in `permit` does.
- QueryLogging.OnFinish: requires the permit and planning times, as the `expect` calls in `finish` do.
- QueryLogging.OnSuccess: requires the permit and planning times, as the `expect` calls in `finish` do.
- QueryLogging.OnExecutionFailed: requires the permit and planning times, as the `expect` calls in `finish` do.
- PartitionTemplate.BucketForTagValue: requires a positive bucket count, so the divide-by-zero panic of `bucket_for_tag_value` on zero buckets is not modelled. Validation only accepts bucket counts from 1 to 99999, so a validated template never reaches that panic.
