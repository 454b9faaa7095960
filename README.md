# MachineLog collector pipeline in Dafny

This project models the core of the MachineLog collector, a log-shipping service. The service:

- tails JSON-lines log files, resuming at a saved byte position;
- validates each line into a `LogEntry`;
- groups the entries into `LogBatch`es bounded by entry count and estimated size;
- sends each batch through a retry policy to an Azure Monitor sink;
- saves a batch to a buffer directory when its send fails;
- replays buffered batches periodically.

The string helpers used along the way are modelled too: truncation, JSON-safe escaping, and Base64 over UTF-8.

Modules, one per source component:

| module | file | models |
|---|---|---|
| `Wrappers` | wrappers.dfy | `Option`, `Result`, and the exceptions the code throws |
| `Text` | text.dfy | UTF-16 strings; UTF-8 encoding, byte count and decoding (section 3 of RFC 3629); `IsNullOrWhiteSpace` |
| `Base64` | base64.dfy | standard-alphabet padded Base64 (section 4 of RFC 4648) |
| `Models` | models.dfy | `LogEntry`, `LogSeverity`, `LogBatch`, the limits of `LogConstants` and the `CollectorSettings` defaults |
| `LogSizeCalculator` | size.dfy | the size estimate and the greedy batcher `CreateBatches` |
| `EnumerableExtensions` | enumerable.dfy | `Batch`/`GetBatch`, both `SafeAny` overloads, `ToBatches` |
| `Validation` | validation.dfy | `LogEntryValidator` and `LogBatchValidator` as rule lists and validity predicates |
| `RetryHelper` | retry.dfy | the three `ExecuteWithRetry` overloads |
| `AzureMonitor` | monitor.dfy | `AzureMonitorService`: send with retry, the buffer directory, the oldest-first read, removal |
| `LogProcessor` | processor.dfy | `LogProcessorService`: the position store, the tailer, batch creation |
| `CollectorWorker` | worker.dfy | `CollectorWorkerService`: the event handler, the replay pass, start-up and the periodic loop |
| `StringExtensions` | string_extensions.dfy | `TruncateIfNeeded`, `ToSafeJson`, `ToBase64`, `FromBase64` |

Modelling choices:

- **Strings.** A .NET string is a sequence of UTF-16 code units (`Char16`). A null string field is modelled as the empty string; every rule and the size estimate treat the two alike.
- **Time.** A `DateTime` is a `nat` of ticks, and `default` is 0. "Now" is a parameter. The validators capture it once, when they are constructed. One `now` stamps every batch that a `CreateBatches` call makes.
- **Object creation.** `Guid.NewGuid` is a function `mint` from the batch index to an id.
- **Side effects.** Each one becomes an input:
  - the outcome of the k-th call of the sink;
  - whether a buffer or position write fails;
  - whether a log file that exists can be opened and read to its end;
  - whether listing the buffer directory fails;
  - whether the token is cancelled at a given wait;
  - the creation stamp of a buffer file;
  - whether deleting a buffered batch's file after its replay fails.
- **Buffer directory.** A `map<Guid, Slot>` field of `AzureMonitorService`. Its keys are the file names `{id}.json`.
- **Position store.** A `map<int, PositionRecord>` field of `LogProcessorService`. It is keyed by the path's hash code.
- **Directory listing.** Listing the buffer directory gives the files in an order the model does not fix.
- **Methods against functions.** Every method that loops or changes state is proved equal to a reference function:
  - `RetryLoop` to `RunFrom`;
  - `SendLogs` to `SendFrom`;
  - `TrySendBufferedLogs` to `ReplayFrom`;
  - `ProcessLogFile` to `LinesEntries(LinesRead(..))`;
  - `Execute` to `LoopSteps`, with each round's buffer given by `ReplayFrom` (`ReplayedRounds`);
  - `CreateBatches` to the predicate `IsGreedyBatching`.

  The properties the code promises are then proved about those functions.
- **Negative retry counts.** `SendFrom` takes a flag `countChecked`. Without it, a negative retry count makes no call and returns normally, as the code does; with it, the count is refused the way the generic retry overloads refuse it. `SendLogs` and the replay use the code as written; the second finding below compares the two.

## Model

| member | source | states |
|---|---|---|
| `Text.ByteCountIsEncodedLength` | src/MachineLog.Common/Utilities/LogSizeCalculator.cs:93-101 | the byte count used for sizes is exactly the length of the UTF-8 encoding of the string |
| `Text.ByteCountBounds` | src/MachineLog.Common/Utilities/LogSizeCalculator.cs:93-101 | a string of n UTF-16 units takes between n and 3n UTF-8 bytes |
| `Text.ByteCountMonotone` | src/MachineLog.Common/Utilities/LogSizeCalculator.cs:93-101 | appending characters never decreases the UTF-8 byte count, even when the append completes a surrogate pair |
| `Text.DecodeEncode` | src/MachineLog.Common/Extensions/StringExtensions.cs:80-112 | decoding the UTF-8 encoding of a string without unpaired surrogates gives the string back |
| `Text.MaximalSubpart` | src/MachineLog.Common/Extensions/StringExtensions.cs:106 | the run the decoder consumes at an error is between 1 and 4 bytes and never longer than the sequence its lead byte announces |
| `Text.DecodeScalar` | src/MachineLog.Common/Extensions/StringExtensions.cs:106 | each step consumes the maximal subpart at the head of the bytes and yields a scalar value; a truncated sequence or a byte that starts none yields U+FFFD |
| `Text.TruncatedSequenceIsOneReplacement` | src/MachineLog.Common/Extensions/StringExtensions.cs:106 | E0 A0 41 decodes to U+FFFD and `A` |
| `Text.TruncatedFourByteSequence` | src/MachineLog.Common/Extensions/StringExtensions.cs:106 | F0 90 80 decodes to a single U+FFFD |
| `Text.StrayBytesAreReplacedSingly` | src/MachineLog.Common/Extensions/StringExtensions.cs:106 | 80 E0 80 decodes to three U+FFFD: a stray continuation byte and a second byte out of its lead's range are replaced one byte at a time |
| `Base64.Encode` | src/MachineLog.Common/Extensions/StringExtensions.cs:80-89 | Base64 text is a whole number of 4-character groups, and is non-empty for non-empty input |
| `Base64.EncodedLength` | src/MachineLog.Common/Extensions/StringExtensions.cs:80-89 | n bytes encode to 4·ceil(n/3) characters, padding included |
| `Base64.RoundTrip` | src/MachineLog.Common/Extensions/StringExtensions.cs:96-112 | decoding the Base64 text of any byte sequence gives that sequence back |
| `Models.SeverityCodes` | src/MachineLog.Common/Models/LogEntry.cs:50-81 | a severity code names an enum member iff it is in 0..5, and every member's code maps back to that member |
| `LogSizeCalculator.StringSize` | src/MachineLog.Common/Utilities/LogSizeCalculator.cs:93-101 | a string's size is its UTF-8 byte count, between its length and three times its length |
| `LogSizeCalculator.EntrySize` | src/MachineLog.Common/Utilities/LogSizeCalculator.cs:19-57 | an entry's size is at least 16 fixed bytes plus the lengths of its machine id and message |
| `LogSizeCalculator.BatchSize` | src/MachineLog.Common/Utilities/LogSizeCalculator.cs:64-86 | a batch's size is at least the 24-byte header plus 16 bytes per entry |
| `LogSizeCalculator.SumSizesLowerBound` | src/MachineLog.Common/Utilities/LogSizeCalculator.cs:64-86 | the sizes of n entries add up to at least 16n |
| `LogSizeCalculator.SumSizesAppend` | src/MachineLog.Common/Utilities/LogSizeCalculator.cs:124-145 | the running size of a batch is additive over concatenation |
| `LogSizeCalculator.AddingTagGrows` | src/MachineLog.Common/Utilities/LogSizeCalculator.cs:46-54 | adding a tag never decreases an entry's size |
| `LogSizeCalculator.LengtheningGrows` | src/MachineLog.Common/Utilities/LogSizeCalculator.cs:26-44 | lengthening the machine id, the message or the operation id, or setting a missing operation id, never decreases an entry's size |
| `LogSizeCalculator.Admit` | src/MachineLog.Common/Utilities/LogSizeCalculator.cs:126-144 | one step of the loop: it closes the current batch when it is full by count or the entry would exceed the byte limit, else it appends; the greedy invariant is kept |
| `LogSizeCalculator.CloseLast` | src/MachineLog.Common/Utilities/LogSizeCalculator.cs:147-153 | a non-empty last batch is emitted, and the batches are then exactly the greedy batching of the input, stamped with fresh ids and the creation time |
| `LogSizeCalculator.CreateBatches` | src/MachineLog.Common/Utilities/LogSizeCalculator.cs:110-156 | null input is ArgumentNull. Otherwise the batches are the greedy batching: concatenated they give the input in order, none is empty, each respects the count limit, each respects the byte limit unless it is one oversize entry, and each was closed only when full or when the next entry would not fit. Each `Size` is the bare entry sum |
| `LogSizeCalculator.GreedyBatchingIsUnique` | src/MachineLog.Common/Utilities/LogSizeCalculator.cs:124-153 | the greedy batching of an input under given limits is unique, so the contract of `CreateBatches` fixes its result |
| `LogSizeCalculator.ThreeEntriesOfTwoHundredBytes` | src/MachineLog.Common/Utilities/LogSizeCalculator.cs:129-141 | three 200-byte entries with limits 500 bytes / 100 entries make batches of sizes 400 and 200 |
| `EnumerableExtensions.GetBatch` | src/MachineLog.Common/Extensions/EnumerableExtensions.cs:88-96 | a chunk is the next run of the source after the element already taken, `batchSize` long unless the source ends first |
| `EnumerableExtensions.Batch` | src/MachineLog.Common/Extensions/EnumerableExtensions.cs:22-41 | null source is ArgumentNull and a size ≤ 0 is ArgumentInvalid. Otherwise the chunks concatenate to the source; every chunk but the last has exactly `batchSize` elements and the last has 1..`batchSize`; there are ceil(n/batchSize) chunks |
| `EnumerableExtensions.AnyMatch` | src/MachineLog.Common/Extensions/EnumerableExtensions.cs:61-64 | true iff some element satisfies the predicate |
| `EnumerableExtensions.SafeAny` | src/MachineLog.Common/Extensions/EnumerableExtensions.cs:49-52 | true iff the source is not null and has an element |
| `EnumerableExtensions.SafeAnyWhere` | src/MachineLog.Common/Extensions/EnumerableExtensions.cs:61-64 | true iff the source is not null and some element satisfies the predicate |
| `EnumerableExtensions.SafeAnyWhereTrue` | src/MachineLog.Common/Extensions/EnumerableExtensions.cs:49-64 | the predicate overload with an always-true predicate agrees with the plain overload |
| `EnumerableExtensions.ToBatches` | src/MachineLog.Common/Extensions/EnumerableExtensions.cs:73-79 | the same contract as `CreateBatches`, with defaults of 1048576 bytes and 1000 entries |
| `Validation.TagFailures` | src/MachineLog.Common/Validation/LogEntryValidator.cs:36-37 | a tag rule fails exactly for a tag whose value is longer than 1000 characters; keys are not checked |
| `Validation.HeadFailures` | src/MachineLog.Common/Validation/LogEntryValidator.cs:18-30 | the time, machine-id, severity and event-id rules fail exactly when their condition is broken |
| `Validation.BodyFailures` | src/MachineLog.Common/Validation/LogEntryValidator.cs:32-37 | the message and tag rules fail exactly when their condition is broken |
| `Validation.LogEntryValidator.Validate` | src/MachineLog.Common/Validation/LogEntryValidator.cs:16-38 | a rule is reported iff the entry violates it: time is default or later than construction time; machine id is empty or white space, or over 50; severity is not a member; event id is 0; message is empty or white space, or over 8000; a tag value is over 1000 |
| `Validation.EntryValidIff` | src/MachineLog.Common/Validation/LogEntryValidator.cs:16-38 | an entry is valid iff every rule holds |
| `Validation.Tagged` | src/MachineLog.Common/Validation/LogBatchValidator.cs:34-35 | an entry's failures are reported under that entry's index |
| `Validation.EntriesFailures` | src/MachineLog.Common/Validation/LogBatchValidator.cs:34-35 | an entry failure is reported iff the entry at that index breaks that entry rule |
| `Validation.LogBatchValidator.Validate` | src/MachineLog.Common/Validation/LogBatchValidator.cs:16-36 | a rule is reported iff the batch violates it: the id is empty; creation time is default or later than construction time; the entries are empty or over 1000; the size is over 1048576; an entry is invalid |
| `Validation.BatchValidIff` | src/MachineLog.Common/Validation/LogBatchValidator.cs:16-36 | a batch is valid iff every batch rule holds and every entry is valid |
| `Validation.EntryOfValidBatch` | src/MachineLog.Common/Validation/LogBatchValidator.cs:34-35 | every entry of a valid batch passes the entry validator |
| `Validation.InvalidBatchBreaksRule` | src/MachineLog.Common/Validation/LogBatchValidator.cs:16-36 | an invalid batch breaks at least one rule |
| `Validation.GreedyBatchesFitLimits` | src/MachineLog.Common/Validation/LogBatchValidator.cs:25-32 | batches made by `CreateBatches` with limits ≤ 1048576/1000 and no entry over the byte limit satisfy the count and size rules |
| `Validation.GreedyBatchIsValid` | src/MachineLog.Common/Validation/LogBatchValidator.cs:16-36 | such a batch of valid entries, stamped with a non-empty id at a non-default time no later than the validator's, is valid |
| `RetryHelper.Delay` | src/MachineLog.Common/Utilities/RetryHelper.cs:50-52 | the wait after failure k is `retryIntervalMs`·2^k with backoff (never less than the interval), and exactly `retryIntervalMs` without |
| `RetryHelper.DelayDoubles` | src/MachineLog.Common/Utilities/RetryHelper.cs:50-52 | with backoff the wait after failure k is twice the wait after failure k−1 |
| `RetryHelper.Schedule` | src/MachineLog.Common/Utilities/RetryHelper.cs:50-54 | the n waits begin with `retryIntervalMs`; with backoff each is twice the one before, without it every one is `retryIntervalMs`; the k-th is the wait after failure k |
| `RetryHelper.Wait` | src/MachineLog.Common/Utilities/RetryHelper.cs:54 | a delay below -1 throws ArgumentOutOfRange; an async wait on a cancelled token throws OperationCanceled; a delay of -1 otherwise waits forever; anything else sleeps |
| `RetryHelper.RetryLoop` | src/MachineLog.Common/Utilities/RetryHelper.cs:35-56 | the loop's ending, call count and recorded waits are those of the reference run `RunFrom` from attempt 0 |
| `RetryHelper.ExecuteWithRetry` | src/MachineLog.Common/Utilities/RetryHelper.cs:22-111 | null `func` is ArgumentNull with no call. A negative retry count is InvalidOperation with no call. Otherwise the result is the reference run |
| `RetryHelper.VoidEnding` | src/MachineLog.Common/Utilities/RetryHelper.cs:122-159 | the non-generic overload returns normally without a call when the retry count is negative, and otherwise always ends with an outcome or a wait |
| `RetryHelper.ExecuteWithRetryVoid` | src/MachineLog.Common/Utilities/RetryHelper.cs:122-159 | null `func` is ArgumentNull. A negative retry count returns normally with no call. Otherwise the reference run, which always makes at least one call |
| `RetryHelper.Errors` | src/MachineLog.Common/Utilities/RetryHelper.cs:43 | the failures are collected in attempt order |
| `RetryHelper.RunBounds` | src/MachineLog.Common/Utilities/RetryHelper.cs:35-56 | `func` is called between 1 and `retryCount`+1 times, and never when the count is negative. The waits are a prefix of the schedule, one fewer than the calls or equal when a wait ends the run |
| `RetryHelper.FirstSuccessWins` | src/MachineLog.Common/Utilities/RetryHelper.cs:37-40 | the first attempt that returns ends the run with its value, after k+1 calls and k waits |
| `RetryHelper.ExhaustionAggregates` | src/MachineLog.Common/Utilities/RetryHelper.cs:43-48 | after `retryCount`+1 caught failures the run throws an AggregateException of all of them in order, with no wait after the last |
| `RetryHelper.CancellationPropagates` | src/MachineLog.Common/Utilities/RetryHelper.cs:92-99 | in the async overloads a cancellation from `func` ends the run at once, with no further call or wait |
| `RetryHelper.SyncRetriesAfterCancellation` | src/MachineLog.Common/Utilities/RetryHelper.cs:41 | the sync overload catches a cancellation and calls `func` again |
| `RetryHelper.TotalBackoff` | src/MachineLog.Common/Utilities/RetryHelper.cs:50-54 | with backoff the n waits add up to `retryIntervalMs`·(2^n − 1) |
| `RetryHelper.TotalConstant` | src/MachineLog.Common/Utilities/RetryHelper.cs:50-54 | without backoff the n waits add up to `retryIntervalMs`·n |
| `AzureMonitor.SendLeavesOtherSlots` | src/MachineLog.Collector/Services/AzureMonitorService.cs:91-97 | a send touches no buffer slot other than the sent batches' ids |
| `AzureMonitor.SendKeepsSlot` | src/MachineLog.Collector/Services/AzureMonitorService.cs:91-97 | a slot whose id is not among the batches still to send keeps its content |
| `AzureMonitor.SendEnding` | src/MachineLog.Collector/Services/AzureMonitorService.cs:84-89 | as written, a negative retry count ends a send normally without calling the sink; with the count checked it ends with InvalidOperation; a batch counts as delivered iff the count is non-negative and the send returned |
| `AzureMonitor.SendAccountsForEveryBatch` | src/MachineLog.Collector/Services/AzureMonitorService.cs:78-98 | when the send completes (ids distinct), every batch was delivered, meaning a call of the sink returned, or is buffered under its own id holding that batch; as written, a negative retry count is the one exception |
| `AzureMonitor.NegativeCountDropsBatches` | src/MachineLog.Collector/Services/AzureMonitorService.cs:78-98 | as written, a negative retry count ends the send normally with the buffer as it was and no batch delivered, so every batch is dropped |
| `AzureMonitor.CheckedNegativeCountBuffersAll` | src/MachineLog.Collector/Services/AzureMonitorService.cs:78-98 | with the retry count checked, a negative count buffers every batch when no write fails, and keeps every file that was there |
| `AzureMonitor.OnlyBufferWritesEscape` | src/MachineLog.Collector/Services/AzureMonitorService.cs:91-126 | the only exception that escapes a send is a failed buffer write, for a batch that was not delivered |
| `AzureMonitor.InsertByCreation` | src/MachineLog.Collector/Services/AzureMonitorService.cs:143 | inserting a file adds it once and nothing else |
| `AzureMonitor.InsertKeepsOrder` | src/MachineLog.Collector/Services/AzureMonitorService.cs:143 | insertion keeps the listing ordered by creation time |
| `AzureMonitor.OrderByCreation` | src/MachineLog.Collector/Services/AzureMonitorService.cs:143 | the ordered listing is a permutation of the listing, ordered by creation time |
| `AzureMonitor.Take` | src/MachineLog.Collector/Services/AzureMonitorService.cs:144 | `Take(n)` is a prefix of the sequence: empty for n ≤ 0, n elements when n is within the length, the whole sequence beyond it |
| `AzureMonitor.ReadableBatches` | src/MachineLog.Collector/Services/AzureMonitorService.cs:146-160 | no more batches than files |
| `AzureMonitor.ReadableBatchesSoundComplete` | src/MachineLog.Collector/Services/AzureMonitorService.cs:146-160 | each batch read is held by one of the files read, and every file read that holds a batch yields it |
| `AzureMonitor.ReadableBatchesAppend` | src/MachineLog.Collector/Services/AzureMonitorService.cs:146-160 | reading two runs of files yields the batches of the first run followed by those of the second: batches come out in the order of their files |
| `AzureMonitor.OldestFilesChosen` | src/MachineLog.Collector/Services/AzureMonitorService.cs:141-145 | every file chosen is no newer than every file left out |
| `AzureMonitor.ReadIsBounded` | src/MachineLog.Collector/Services/AzureMonitorService.cs:141-160 | a read returns at most `maxBatchCount` batches, and at most as many as the buffer holds |
| `AzureMonitor.ListedOnce` | src/MachineLog.Collector/Services/AzureMonitorService.cs:141 | the listing names each buffer file exactly once |
| `AzureMonitor.AzureMonitorService.constructor` | src/MachineLog.Collector/Services/AzureMonitorService.cs:41-63 | the service keeps the settings' retry parameters over the existing buffer directory |
| `AzureMonitor.AzureMonitorService.BufferBatch` | src/MachineLog.Collector/Services/AzureMonitorService.cs:107-127 | null is ArgumentNull and a failed write rethrows; either way the buffer is unchanged. Otherwise the batch's slot is written, overwriting any slot with that id, and no other slot changes |
| `AzureMonitor.AzureMonitorService.SendLogs` | src/MachineLog.Collector/Services/AzureMonitorService.cs:70-99 | null or empty input does nothing. Otherwise the ending and the new buffer are those of `SendFrom` over the batches in order |
| `AzureMonitor.AzureMonitorService.ListFiles` | src/MachineLog.Collector/Services/AzureMonitorService.cs:141 | the listing names exactly the buffer's files, each once |
| `AzureMonitor.AzureMonitorService.ReadBufferedBatches` | src/MachineLog.Collector/Services/AzureMonitorService.cs:135-170 | the result is the readable batches among the `maxBatchCount` oldest files of some listing of the buffer, oldest first. A failing directory listing is rethrown and nothing is read. The buffer is unchanged either way |
| `AzureMonitor.AzureMonitorService.RemoveBufferedBatch` | src/MachineLog.Collector/Services/AzureMonitorService.cs:178-206 | a null or empty id is ArgumentInvalid and changes nothing. A delete of an existing file that fails is rethrown and leaves the file in place. Otherwise exactly that id's file is gone, and an absent id is a no-op |
| `AzureMonitor.BatchFilePathsDistinct` | src/MachineLog.Collector/Services/AzureMonitorService.cs:213-216 | batches with different ids never share a buffer file, so buffering one batch cannot overwrite another's |
| `LogProcessor.FirstBreak` | src/MachineLog.Collector/Services/LogProcessorService.cs:86 | the first line ends at the first CR or LF, or at the end of the data |
| `LogProcessor.LinesHoldNoBreak` | src/MachineLog.Collector/Services/LogProcessorService.cs:86 | no line read holds a line break, and none is longer than the data |
| `LogProcessor.SplitAppend` | src/MachineLog.Collector/Services/LogProcessorService.cs:86 | the lines of data that ends with LF followed by more data are the lines of the first part followed by those of the second |
| `LogProcessor.WithMachineId` | src/MachineLog.Collector/Services/LogProcessorService.cs:102-105 | only the machine id can change: a present id is kept, an empty one becomes the configured id, and the result lacks an id only when both the entry and the collector lack one |
| `LogProcessor.LogProcessorService.constructor` | src/MachineLog.Collector/Services/LogProcessorService.cs:36-48 | the service keeps its settings, its validator and the existing position store |
| `LogProcessor.LogProcessorService.SaveFilePosition` | src/MachineLog.Collector/Services/LogProcessorService.cs:179-193 | a failed write throws and changes nothing. Otherwise the record under the path's hash holds the new position, so the path then reads it back, and every path with another hash reads what it read before |
| `LogProcessor.LogProcessorService.LineEntry` | src/MachineLog.Collector/Services/LogProcessorService.cs:88-127 | a line yields an entry only when it is not blank, is JSON and deserializes to an entry; that entry, with its machine id defaulted, passes the validator |
| `LogProcessor.LogProcessorService.LineEntryComplete` | src/MachineLog.Collector/Services/LogProcessorService.cs:88-127 | conversely, a non-blank JSON line that deserialises to an entry which, with its machine id defaulted, passes the validator yields exactly that entry |
| `LogProcessor.LogProcessorService.LinesEntries` | src/MachineLog.Collector/Services/LogProcessorService.cs:86-128 | at most one entry per line, and every entry returned is valid |
| `LogProcessor.LogProcessorService.LinesEntriesAppend` | src/MachineLog.Collector/Services/LogProcessorService.cs:86-128 | the entries of two runs of lines are the entries of the first run followed by those of the second |
| `LogProcessor.LogProcessorService.LineContributesInPlace` | src/MachineLog.Collector/Services/LogProcessorService.cs:86-128 | every line contributes its entry, if it has one, after the entries of the lines before it and before those of the lines after it |
| `LogProcessor.LogProcessorService.TwoReadsSeeEveryEntry` | src/MachineLog.Collector/Services/LogProcessorService.cs:78-131 | reading a file that ends with LF and then reading what was appended yields, in order, the entries of one read of the whole file, also when the file begins with a byte-order mark. The appended part must not begin with a mark, which the resumed read would drop and the whole read keep |
| `LogProcessor.LogProcessorService.EntriesOf` | src/MachineLog.Collector/Services/LogProcessorService.cs:86-128 | the line loop returns exactly the entries of the lines, in line order |
| `LogProcessor.LogProcessorService.ProcessLogFile` | src/MachineLog.Collector/Services/LogProcessorService.cs:56-143 | a missing file yields no entries and keeps the position. A file that exists but cannot be opened or read throws before any position is saved, and so does a failed position save; the positions are unchanged in both cases. Otherwise the valid entries of the lines after the start offset are returned in file order, and the file length is saved as the new position |
| `LogProcessor.LogProcessorService.CreateBatchesFor` | src/MachineLog.Collector/Services/LogProcessorService.cs:151-170 | the greedy batching with the settings' byte limit and the constant limit of 1000 entries, not the settings' batch count |
| `LogProcessor.SaveThenGet` | src/MachineLog.Collector/Services/LogProcessorService.cs:179-237 | after a save, reading the same path gives the saved value, and so does reading any path with the same hash code |
| `LogProcessor.ResumesAfterAppend` | src/MachineLog.Collector/Services/LogProcessorService.cs:78-81 | after data is appended to a file, reading resumes exactly at the appended part |
| `LogProcessor.StartOffset` | src/MachineLog.Collector/Services/LogProcessorService.cs:78-81 | reading starts at the saved position only when it lies strictly inside the file; a position of 0, a negative one, or one at or past the end (an unchanged or truncated file) reads from the start |
| `LogProcessor.LogProcessorService.GetFilePosition` | src/MachineLog.Collector/Services/LogProcessorService.cs:201-225 | never fails: the saved value when the path's hash has a record that reads and parses as a number, and 0 when the record is missing, garbled or unreadable (the function `Position`) |
| `LogProcessor.TwoReadsSeeEveryLine` | src/MachineLog.Collector/Services/LogProcessorService.cs:78-131 | reading a file that ends with LF and then reading what was appended sees the same lines as one read of the whole file, also when the file begins with a byte-order mark. The appended part must not begin with a mark, which the resumed read would drop and the whole read keep |
| `LogProcessor.BomNotAcrossLineFeed` | src/MachineLog.Collector/Services/LogProcessorService.cs:83 | a short first read ending in LF cannot be the start of a byte-order mark |
| `LogProcessor.UnchangedFileIsReread` | src/MachineLog.Collector/Services/LogProcessorService.cs:78-81 | a saved position equal to the file length starts again at 0, so an unchanged file is read in full again |
| `CollectorWorker.ReplayLosesBatchThatFailsAgain` | src/MachineLog.Collector/Services/CollectorWorkerService.cs:165-179 | as written: a buffered batch whose resend fails again, with the re-save and the delete both succeeding, ends the pass normally, and its id is no longer in the buffer |
| `CollectorWorker.ReplayLossExample` | src/MachineLog.Collector/Services/CollectorWorkerService.cs:170-173 | a concrete case of the loss: no retries, a sink that rejects with 503, and a buffer write that succeeds |
| `CollectorWorker.DurableReplayLosesNothing` | src/MachineLog.Collector/Services/CollectorWorkerService.cs:165-179 | corrected replay: when the pass completes, a batch that was delivered and whose delete succeeded has no file left. Any other batch keeps its file exactly as it was: its send failed again, no call was made, or the delete failed |
| `CollectorWorker.DurableKeepsSlot` | src/MachineLog.Collector/Services/CollectorWorkerService.cs:165-179 | corrected replay: a slot not being replayed keeps its content |
| `CollectorWorker.DurableKeepsRemoved` | src/MachineLog.Collector/Services/CollectorWorkerService.cs:165-179 | corrected replay: the pass never brings back an id that was absent |
| `CollectorWorker.LoopAlternates` | src/MachineLog.Collector/Services/CollectorWorkerService.cs:98-102 | the loop alternates a wait of the upload interval and a replay |
| `CollectorWorker.LoopStopsAtCancellation` | src/MachineLog.Collector/Services/CollectorWorkerService.cs:98-102 | the loop runs no more rounds than there are until the token is cancelled |
| `CollectorWorker.CollectorWorkerService.constructor` | src/MachineLog.Collector/Services/CollectorWorkerService.cs:31-43 | the service holds its settings, the tailer and the delivery service, not yet subscribed or watching |
| `CollectorWorker.CollectorWorkerService.OnFileChanged` | src/MachineLog.Collector/Services/CollectorWorkerService.cs:120-145 | Renamed and Deleted change nothing. For Created and Changed, a missing file, an unreadable file or a failed position save yields no entries and changes neither the positions nor the buffer. Otherwise the file length becomes the path's saved position, the entries are those read from the old position, no entries means nothing is batched or sent, and otherwise the greedy batches of the entries are sent. Nothing escapes the handler |
| `CollectorWorker.CollectorWorkerService.TrySendBufferedLogs` | src/MachineLog.Collector/Services/CollectorWorkerService.cs:152-185 | as written: the batches read from the buffer (none means nothing happens) are replayed one by one. Each is removed whenever its send returns normally; a failed delete is logged and leaves the file. A failing listing of the buffer is swallowed: nothing is read or replayed and the buffer is unchanged |
| `CollectorWorker.CollectorWorkerService.TrySendBufferedLogsDurable` | src/MachineLog.Collector/Services/CollectorWorkerService.cs:152-185 | corrected: a batch is removed only when it was delivered and the delete succeeds. A failing listing is swallowed as in the pass as written |
| `CollectorWorker.CollectorWorkerService.Start` | src/MachineLog.Collector/Services/CollectorWorkerService.cs:50-65 | start-up subscribes, starts the watcher, then replays once: the batches replayed are the readable ones among the `MaxBatchCount` oldest files of the buffer as it was, and the new buffer is what the as-written replay of them leaves. When listing the buffer fails, nothing is replayed and the buffer is unchanged |
| `CollectorWorker.CollectorWorkerService.Execute` | src/MachineLog.Collector/Services/CollectorWorkerService.cs:91-113 | the steps are a prefix of the wait/replay loop, and all of it when the loop stops on cancellation. Round i lists the buffer the rounds before it left and replays the batches read from its oldest files (none when that listing fails), and the final buffer is the one the last round left. A fault is the ArgumentOutOfRange of an interval below -1. A hang is an infinite wait or a replay that never ends |
| `StringExtensions.TruncateIfNeeded` | src/MachineLog.Common/Extensions/StringExtensions.cs:20-39 | empty input or input within `maxLength` comes back unchanged. Otherwise: a null suffix throws NullReference; a negative `maxLength` throws; a result of exactly `maxLength` characters, made of the kept prefix plus the suffix; or the first `maxLength` characters of the suffix when the suffix alone does not fit |
| `StringExtensions.TruncateIdempotent` | src/MachineLog.Common/Extensions/StringExtensions.cs:20-39 | truncating a truncated string changes nothing |
| `StringExtensions.ToSafeJson` | src/MachineLog.Common/Extensions/StringExtensions.cs:46-63 | the output is the one-pass escape `EscapeChars` (a backslash doubled, a quote preceded by a backslash) of the input without its control characters: the two `Replace` calls in sequence equal it |
| `StringExtensions.StripControl` | src/MachineLog.Common/Extensions/StringExtensions.cs:54 | a character is in the result iff it is in the input and is not in U+0000–U+001F or U+007F–U+009F; a string without such characters comes back unchanged |
| `StringExtensions.StripControlAppend` | src/MachineLog.Common/Extensions/StringExtensions.cs:54 | stripping works piece by piece over concatenation, so the characters kept stay in their order |
| `StringExtensions.ReplacementsCompose` | src/MachineLog.Common/Extensions/StringExtensions.cs:57-60 | doubling backslashes, then escaping quotes, is the one-pass per-character escape: the added backslashes are not doubled |
| `StringExtensions.UnescapeEscapeChars` | src/MachineLog.Common/Extensions/StringExtensions.cs:57-60 | the escape is undone by reading each backslash as "take the next character literally" |
| `StringExtensions.SafeJsonUnescapes` | src/MachineLog.Common/Extensions/StringExtensions.cs:46-63 | unescaping the output of `ToSafeJson` gives the input without its control characters, so nothing else is lost |
| `StringExtensions.SafeJsonShape` | src/MachineLog.Common/Extensions/StringExtensions.cs:46-63 | the output of `ToSafeJson` holds no control character, and every quote in it is immediately preceded by a backslash |
| `StringExtensions.ToBase64` | src/MachineLog.Common/Extensions/StringExtensions.cs:80-89 | empty input comes back unchanged; other input gives padded Base64 text in whole groups of four |
| `StringExtensions.FromBase64` | src/MachineLog.Common/Extensions/StringExtensions.cs:96-112 | text that is not Base64 comes back unchanged |
| `StringExtensions.FromBase64OfTruncatedSequence` | src/MachineLog.Common/Extensions/StringExtensions.cs:96-112 | "4KBB" is the Base64 of E0 A0 41, and it decodes to U+FFFD followed by `A`: a cut-short sequence is replaced once |
| `StringExtensions.Base64RoundTrip` | src/MachineLog.Common/Extensions/StringExtensions.cs:80-112 | `FromBase64(ToBase64(s)) == s` for every string without unpaired surrogates |

## Left out

- The FileSystemWatcher wrapper is not part of this model. The kind of a file event is an input value.
- `SendBatchAsync` is not part of this model: the Azure token fetch and the HTTP POST are an abstract sink whose k-th call returns or throws.
- JSON: well-formedness (`IsValidJson`) and deserialisation are abstract functions, fields of `LogProcessorService`. Batch files are read as a slot that holds a batch, a null document or unreadable data; serialisation is not modelled.
- `string.GetHashCode` is an abstract function. The hex formatting of the position file name is not modelled: the hash value itself is the key.
- Logging, `StopAsync`, the host and dependency injection are not modelled.
- Time, sleeping and concurrency: delays are recorded values, not taken. The `async void` handler and a replay concurrent with live delivery are not modelled: everything runs sequentially.
- RetryHelper.Delay: uses the integer 2^k. It does not model `(int)Math.Pow` or the 32-bit overflow of large delays.
- LogSizeCalculator.EntrySize: sizes are unbounded integers. The 32-bit overflow of very large sums is not modelled.
- EnumerableExtensions.Batch: returns its chunks eagerly. The deferred errors of the iterator and a caller that does not consume each chunk in full are not modelled.
- LogProcessor.LogProcessorService.ProcessLogFile: cancellation of the read loop is not modelled. The only caller passes no token, so the saved position is always the file length. Only the UTF-8 byte-order mark is recognised; the other encodings that `StreamReader` detects are not modelled.
- LogProcessor.LogProcessorService.LineEntry: an exception from the validator itself is not modelled. A line whose deserialisation throws is skipped, like one that yields null.
- AzureMonitor.AzureMonitorService.SendLogs: a null element inside the batch collection is not modelled.
- AzureMonitor.AzureMonitorService.ReadBufferedBatches: the tie order of `OrderBy` for equal creation times is not stated. A cancelled token, which makes every file read throw and be skipped, is not modelled.
- LogSizeCalculator.CreateBatches: one `now` stamps every batch of a call, where `LogBatch`'s constructor reads `DateTime.UtcNow` once per batch. The clock advancing between the batches of one call is not modelled; no property depends on it.
- AzureMonitor.AzureMonitorService.RemoveBufferedBatch: an id is either null, empty or a Guid. Other text is not modelled; it names a file that is never present.
- AzureMonitor.OnlyBufferWritesEscape: the exception that escapes a send is always an I/O failure. After a send cancelled by the token, the buffer write runs on the same cancelled token and would throw OperationCanceled; the model counts that write as one more failing write (`writeFails`), so the exception type in that case is not modelled.
- LogProcessor.LogProcessorService.GetFilePosition: the position file's text format is not modelled; a record is a stored number, text that does not parse, or a read error.
- AzureMonitor.AzureMonitorService.BufferBatch: a failed write leaves the buffer unchanged. A partly written file is not modelled.
- The creation stamp of a rewritten buffer file is an input of the sink, not filesystem behaviour.

## Findings

| source | as written | input that shows it | evidently intended | confidence | as-written member | corrected member |
|---|---|---|---|---|---|---|
| src/MachineLog.Collector/Services/CollectorWorkerService.cs:170-173 with src/MachineLog.Collector/Services/AzureMonitorService.cs:91-97 | The replay pass removes a buffered batch whenever `SendLogsAsync` returns normally. `SendLogsAsync` also returns normally after a failed send, having re-saved the batch under the same id, so the file written in that call is deleted straight away | one buffered batch, retry count 0, a sink that answers 503, a buffer write and a delete that succeed: the pass completes and the batch is in neither Azure Monitor nor the buffer | remove a buffered batch only when its send succeeded | not executed | `CollectorWorker.ReplayLosesBatchThatFailsAgain` | `CollectorWorker.DurableReplayLosesNothing` |
| src/MachineLog.Collector/Services/AzureMonitorService.cs:84-89 with src/MachineLog.Common/Utilities/RetryHelper.cs:136 | `SendLogsAsync` passes the configured `RetryCount` to the non-generic `ExecuteWithRetryAsync`, which never runs its loop for a negative count and returns normally. The count is not validated anywhere, so each batch counts as sent although the sink was never called, and nothing is buffered | `RetryCount` = -1 and one batch: the send completes, the buffer is unchanged and the batch reached neither Azure Monitor nor the buffer | a negative count is refused, as the generic overloads do with InvalidOperation at RetryHelper.cs:59, so that the batch is buffered like any failed send | not executed | `AzureMonitor.NegativeCountDropsBatches` | `AzureMonitor.CheckedNegativeCountBuffersAll` |
