# Mirror-node transaction-size check: a verified model

This project models the counting engine of the mirror-node transaction-size scripts and
proves what it computes. The engine takes a list of transaction records (consensus
timestamp, transaction name, entity id). It reconstructs "big" Ethereum transactions: a
FILECREATE, FILEAPPEND chunks, the ETHEREUMTRANSACTION and the FILEDELETE of one staging
file. It buckets them by chunk count and counts every other Ethereum transaction as
"small". The project also models the contract-parameter size classifier. That classifier
sorts the `function_parameters` hex payloads of contract results into over and under 5 KiB
and records their sizes.

Files (one module each):

- `records.dfy` (`Records`) holds the shared record type `Tx`, the transaction kinds and
  Python truthiness of an entity id (`Falsy`: `None` or `""`). It also holds the grouping
  `Policy`: `EntityOnly` is `get_statistics.py` and `TimeWindowed(w)` is
  `transaction_endpoint/find_sequence_pattern.py`, with the default window 30.
- `timestamp_sort.dfy` (`TimestampSort`) models the in-place `list.sort` by timestamp.
  `SortInPlace` is an insertion sort on an `array<Tx>`. It is proved equal to the
  functional `SortByTimestamp`, and that function is proved to be the unique stable sort.
- `sequence_collector.dfy` (`SequenceCollector`) models `collect_sequence` for both
  variants. The specification function `Collected` is the forward scan. `CollectSequence`
  is the loop, with its `continue`s and `break`s.
- `sequence_validator.dfy` (`SequenceValidator`) models `is_valid_big_transaction` as the
  pure function `Validate`. It is proved equivalent to a position-free protocol predicate
  `Accepts`.
- `chunk_buckets.dfy` (`ChunkBuckets`) holds the `"k Chunks"` / `">10 Chunks"` key, the
  dictionary increment and the sum of the bucket counts.
- `transaction_counting.dfy` (`TransactionCounting`) models `process_transactions`. The
  first loop is specified as a fold `FirstPass` of one visit `Step`. The methods
  `VisitOpener`, `CountTransactions`, `CountStandalone` and `ProcessTransactions` are
  proved against that fold. An invariant (`PassInvariant`) gives the accounting lemmas.
  Example lemmas prove what each policy gives on concrete logs.
- `param_size.dfy` (`ParamSize`) models lines 61-92 of
  `contract_endpoint/check_function_param_size.py`. `Classify` is the per-payload decision
  over `Option<string>`. `Report` is the fold of the counters. `CountParamSizes` is the
  loop, and `MaxOf` is the maximum.

Modelling choices:

- Timestamps are integers; the scripts parse them as floats. The window test
  `timestamp - create_time > time_window` is kept as written, so a difference equal to the
  window is still inside.
- An entity id is `Option<string>`. A missing id and `""` are both falsy, as in Python's
  `if not entity_id`.
- All transaction names other than the four the engine compares are one kind, `Other`.
  The engine treats them alike: the collector keeps them and the validator ignores them.
- A contract-result fetch that raises is `FetchFailed`: no counter moves. An odd-length
  hex string makes `bytes.fromhex` raise inside the same `try`, so it changes no counter
  either (`Dropped`).
- `bytes.fromhex` skips whitespace. That is never reached, because the all-hex test has
  already refused any whitespace.
- The source's `try`/`except ValueError` around the positions in `is_valid_big_transaction`
  can never fire: the presence test before it guarantees that every `index`, `min` and
  `max` has an argument. `Validate` therefore needs no error path.

## Model

| member | source | states |
|---|---|---|
| TimestampSort.SortInPlace | get_statistics.py:83 | the array afterwards holds `SortByTimestamp` of its old contents |
| TimestampSort.InsertLast | get_statistics.py:83 | one insertion step: the prefix up to `i` becomes the old sorted prefix with `a[i]` inserted after every record with a timestamp no larger than its own; the rest of the array is unchanged |
| TimestampSort.SortIsStable | get_statistics.py:83 | the sorted list is ordered by non-decreasing timestamp, and for every timestamp its records keep their input order |
| TimestampSort.SortIsPermutation | get_statistics.py:83 | sorting keeps the multiset of records |
| TimestampSort.StableSortUnique | get_statistics.py:83 | any list sorted by timestamp that keeps the input order within each timestamp is `SortByTimestamp` of the input, so the model agrees with Python's stable sort |
| TimestampSort.SortOfSortedIsIdentity | get_statistics.py:83 | sorting an already sorted list changes nothing |
| SequenceCollector.CollectSequence | get_statistics.py:126-162 | the returned indices are `Collected` and the returned records are the records at those indices, in order |
| SequenceCollector.Collected | transaction_endpoint/find_sequence_pattern.py:114-150 | the collected positions are strictly increasing and lie between the opener and the end of the list |
| SequenceCollector.Pick | get_statistics.py:154-155 | the k-th collected record is the record at the k-th collected position |
| SequenceCollector.CollectedOpener | get_statistics.py:134-138 | entity-only, a falsy opener entity yields nothing; a FILECREATE opener yields a sequence iff its entity is truthy (entity-only) or the window is not negative (windowed), and a non-empty sequence starts at the opener |
| SequenceCollector.CollectedShape | get_statistics.py:142-162 | every collected FILEAPPEND/FILEDELETE carries the opener's entity id; only the last collected record can be a FILEDELETE; windowed, no record is stamped more than the window after the opener |
| SequenceCollector.CollectedComplete | transaction_endpoint/find_sequence_pattern.py:127-148 | up to the last collected position nothing is past the window and every record the entity rule keeps is collected; unless a FILEDELETE closed the scan, every kept record before the first one past the window is collected |
| SequenceCollector.BoundaryExamples | transaction_endpoint/find_sequence_pattern.py:129-133 | a record exactly 30 after the opener is collected and the next one past the window ends the scan; entity-only, the FILEDELETE is reached and closes it |
| SequenceCollector.UnnamedExamples | transaction_endpoint/find_sequence_pattern.py:122-138 | windowed, an opener without entity id collects the file operations without entity id; entity-only, it collects nothing |
| SequenceValidator.CountKind | get_statistics.py:169 | the count is the number of positions holding the kind, so at most the length and positive iff the kind occurs |
| SequenceValidator.FirstIndex | get_statistics.py:176-177 | the position holds the kind and no earlier position does |
| SequenceValidator.LastIndex | get_statistics.py:179 | the position holds the kind and no later position does |
| SequenceValidator.Validate | get_statistics.py:164-192 | the returned append count is the number of FILEAPPENDs, whatever the verdict |
| SequenceValidator.ValidateMeansAccepts | get_statistics.py:168-192 | valid iff a FILECREATE precedes a FILEAPPEND, every FILEAPPEND precedes every ETHEREUMTRANSACTION, some ETHEREUMTRANSACTION precedes every FILEDELETE and one exists, all file operations carry one entity id, and entity-only that id is not `None` |
| SequenceValidator.ValidateSound | get_statistics.py:173-186 | a valid verdict implies the protocol predicate |
| SequenceValidator.ValidateComplete | get_statistics.py:173-186 | the protocol predicate implies a valid verdict |
| SequenceValidator.EntityCheck | get_statistics.py:182-185 | given one file operation, "one entity id in the set (and no `None`, entity-only)" iff every file operation carries the same id (and it is present) |
| SequenceValidator.AppendAfterEthereumRejected | get_statistics.py:181 | any FILEAPPEND after an ETHEREUMTRANSACTION makes the sequence invalid |
| SequenceValidator.MixedEntitiesRejected | get_statistics.py:182-188 | two file operations on different entity ids make the sequence invalid |
| SequenceValidator.MissingEntityRejected | get_statistics.py:185 | entity-only, a file operation without entity id makes the sequence invalid |
| SequenceValidator.AnonymousVerdicts | transaction_endpoint/find_sequence_pattern.py:172-176 | an upload whose records all lack an entity id is valid under the window variant and invalid under the entity-only one |
| SequenceValidator.RejectedExamples | get_statistics.py:181-188 | `[CREATE, ETH, APPEND(e1), DELETE(e1)]` and a mix of `e1`/`e2` are rejected |
| ChunkBuckets.DecimalString | get_statistics.py:106 | the decimal rendering is a non-empty string of digits, starts with `0` only for zero (no leading zeros) and is one character long iff the number is below 10 |
| ChunkBuckets.DecimalRoundTrip | get_statistics.py:106 | reading the rendering back as a decimal number gives the number |
| ChunkBuckets.DecimalStringInjective | get_statistics.py:106 | different numbers render differently |
| ChunkBuckets.ChunkKeyBoundary | get_statistics.py:106 | 1, 2 and 10 appends give `"1 Chunks"`, `"2 Chunks"`, `"10 Chunks"`; 11 gives `">10 Chunks"` |
| ChunkBuckets.ChunkKeysDistinct | get_statistics.py:106 | two append counts share a key iff they are equal or both exceed 10 |
| ChunkBuckets.Bump | get_statistics.py:107 | the increment adds the key to the dictionary's keys and no other, sets its count to the old count (0 when absent) plus one, and leaves every other count unchanged |
| ChunkBuckets.BumpAddsOne | get_statistics.py:107 | one increment raises the sum of the bucket counts by exactly one |
| ChunkBuckets.SumValuesRemove | get_statistics.py:107 | the bucket sum is one bucket's count plus the sum of the others |
| TransactionCounting.ProcessTransactions | get_statistics.py:78-124 | the array is sorted as `SortByTimestamp`; the buckets are those of the first pass over the sorted list; the small count is the number of unconsumed ETHEREUMTRANSACTIONs; the total is the big total plus the small count and equals the bucket sum plus the small count |
| TransactionCounting.CountTransactions | get_statistics.py:86-124 | the counting that follows the sort, on any list: the returned total is the sum of the buckets plus the small count |
| TransactionCounting.VisitOpener | get_statistics.py:93-107 | one iteration of the first loop updates the consumed set, the total and the buckets exactly as `Step` |
| TransactionCounting.OpenAt | get_statistics.py:96-101 | the collected indices are `Collected`; found iff they are non-empty and validate; the key is the bucket of their FILEAPPEND count |
| TransactionCounting.CountStandalone | get_statistics.py:116-122 | the second loop adds exactly the unconsumed ETHEREUMTRANSACTION positions to the consumed set and counts each once in the small count and the total |
| TransactionCounting.StepOutcome | get_statistics.py:94-107 | a visit accepts the collected sequence iff the position is unconsumed, a FILECREATE, its sequence is non-empty and valid; otherwise it changes nothing (a rejected candidate leaves the consumed set alone) |
| TransactionCounting.SkipVisit | get_statistics.py:94-96 | a consumed position or one that is no FILECREATE leaves the first pass unchanged |
| TransactionCounting.StepAccounting | get_statistics.py:94-107 | a visit either changes nothing, or, at an unconsumed FILECREATE, appends its collected sequence, adds one to the total and strictly enlarges the consumed set, the opener included |
| TransactionCounting.AcceptKeepsInvariant | get_statistics.py:99-107 | accepting the collected sequence of an unconsumed FILECREATE keeps the first-pass invariant |
| TransactionCounting.StepKeepsInvariant | get_statistics.py:93-107 | every visit keeps the first-pass invariant |
| TransactionCounting.FirstPassInvariant | get_statistics.py:92-107 | after any prefix of the first loop: accepted lists are validated collected sequences of their FILECREATE, each disjoint from the earlier ones; the consumed set is their union; its size is their total length; the total is their number and the bucket sum; nothing from the current position up to the frontier that is not a FILEAPPEND/FILEDELETE is left unconsumed |
| TransactionCounting.FirstPassGrows | get_statistics.py:94-104 | the consumed set, the accepted lists and the total only grow along the first loop |
| TransactionCounting.BigPassAccounting | get_statistics.py:92-107 | after the first loop no position belongs to two accepted sequences, the consumed positions are exactly their members, and the total equals the number of accepted sequences and the sum of the buckets |
| TransactionCounting.FirstPassBucketed | get_statistics.py:92-107 | after any prefix of the first loop, every bucket count (0 for an absent key) is the number of accepted sequences whose FILEAPPEND count has that chunk key |
| TransactionCounting.BigPassBuckets | get_statistics.py:105-107 | after the first loop, `big_transactions.get(key, 0)` is the number of accepted sequences whose FILEAPPEND count maps to `key` |
| TransactionCounting.EthereumCountedOnce | get_statistics.py:117-122 | an ETHEREUMTRANSACTION is counted as small iff no accepted sequence holds it, and no two accepted sequences both hold it |
| TransactionCounting.StandaloneStep | get_statistics.py:117-122 | one step of the second loop adds the position to the small set exactly when it is an unconsumed ETHEREUMTRANSACTION |
| TransactionCounting.SampleLogCounts | transaction_endpoint/find_sequence_pattern.py:64-111 | on the six-record sample with window 30 the first pass finds one big transaction `{"2 Chunks": 1}` and the trailing Ethereum call is the one small one, so the total is 2 |
| TransactionCounting.LateLogWindowedCounts | transaction_endpoint/find_sequence_pattern.py:127-133 | when the Ethereum call comes 40 after the FILECREATE, the window cuts the sequence before it, nothing is accepted and the call counts as small |
| TransactionCounting.LateLogEntityOnlyCounts | get_statistics.py:142-162 | on the same log the entity-only collector has no window, so it finds one `"1 Chunks"` big transaction and nothing is left as small |
| ParamSize.StripHexPrefix | contract_endpoint/check_function_param_size.py:67-68 | the result is the input, or the input with one leading `0x` or `0X` removed |
| ParamSize.StripHexPrefixOnce | contract_endpoint/check_function_param_size.py:67-68 | exactly one prefix is removed, even when a second `0x` follows |
| ParamSize.FromHex | contract_endpoint/check_function_param_size.py:72 | on an all-hex string, decoding fails iff the digit count is odd; a decoded payload has half as many bytes as digits |
| ParamSize.FromHexToHex | contract_endpoint/check_function_param_size.py:72-73 | decoding the hex encoding of any byte string gives the byte string back |
| ParamSize.Classify | contract_endpoint/check_function_param_size.py:61-83 | unsized (under, no size) iff missing, empty or not all hex after the prefix; dropped iff all hex with an odd number of digits; measured payloads have half as many bytes as hex digits |
| ParamSize.ClassifyPrefixed | contract_endpoint/check_function_param_size.py:67-73 | a payload written `0x`/`0X` plus hex measures exactly its byte length |
| ParamSize.ClassifyBare | contract_endpoint/check_function_param_size.py:62-73 | a payload written as bare hex measures its byte length, and an empty one is unsized |
| ParamSize.ClassifyEmptyExamples | contract_endpoint/check_function_param_size.py:61-80 | a missing and an empty payload are unsized; `"0x"` alone measures 0 bytes |
| ParamSize.ClassifyNonHexExamples | contract_endpoint/check_function_param_size.py:71-83 | `"0xZZ"` and `"0x0x12"` are unsized |
| ParamSize.ClassifyHexExamples | contract_endpoint/check_function_param_size.py:71-86 | the odd `"abc"` is dropped and `"0xab12"` measures 2 bytes |
| ParamSize.ReportAccounting | contract_endpoint/check_function_param_size.py:51-86 | over plus under is the number of results that move a counter, at most one each, so at most the number of results; over is the number of recorded sizes above 5120; every recorded size was counted |
| ParamSize.ReportSizes | contract_endpoint/check_function_param_size.py:71-74 | the recorded sizes are exactly the decoded byte lengths of the measured payloads, in the order of the results |
| ParamSize.ThresholdBoundary | contract_endpoint/check_function_param_size.py:77-80 | a single payload counts as over exactly when it has more than 5120 bytes (5120 is under, 5121 over), and its size is recorded |
| ParamSize.MaxOf | contract_endpoint/check_function_param_size.py:88-89 | there is a maximum iff some size was recorded; it is one of the sizes and no size exceeds it |
| ParamSize.CountParamSizes | contract_endpoint/check_function_param_size.py:46-89 | the loop's counters and sizes are `Report` of the results, the sizes are the decoded lengths of the measured payloads in order, and the maximum is `MaxOf` of the sizes |

## Left out

- HTTP fetching, pagination, `raise_for_status` and the exception exits of the fetch loops
  are network I/O. The engine receives the records as a list, and the size classifier
  receives each contract result as `Fetched(function_parameters)` or `FetchFailed`.
- Record normalisation is left out: the account filter on the transaction id and the
  parsing of the consensus timestamp. Records arrive normalised, with integer timestamps.
- The URL quoting of transaction ids and the loop that collects them are left out; they
  only build requests.
- Printing and logging are left out. So are the `first_sequence_printed` sanity dump, the
  display sort of the chunk keys and the "maximum size" message. The maximum itself is
  modelled.
- The percentages of `calculate_and_print_statistics` and all of `get_stats.py` are left
  out. They are floating-point output formatting and the scraping of another script's
  printed output.
- Loading `.env` and the environment, and `sys.exit`, are left out.
- The unused `append_count` and `has_ethereum_tx` locals of `collect_sequence` are left
  out. The returned append count comes from the validator.
- Records that lack a key (`tx['entity_id']` raising `KeyError`) are not modelled. Every
  record carries an entity field, which may be `None`.
