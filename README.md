# File-Engine index, event bus and hotkey core in Dafny

File-Engine is a Windows file-search tool. This project models four parts of it and proves
properties of each model:

- **The SQLite index command engine** (`SearchUtil`, in `search_util.dfy`).
  - A path is routed to one of the tables `list0` .. `list40`. The table is the checksum of the
    path's upper-cased, semicolon-free file name, divided by 100.
  - Changes are queued as command records: a task id plus a statement.
  - A committer runs the queued records as one batch when the execute-immediately flag is set.
  - The rebuild and index sequences are fixed queues of drop, create-table and create-index
    records.
  - A small interpretation of the statements over a table store (`Store`, `Apply`, `ApplyAll`)
    gives the routing and rebuild lemmas their meaning.
- **The event bus** (`EventManagement`, in `event_management.dfy`).
  - Tasks are objects whose attempt counter and status change in place.
  - A block lane and an async lane each take the oldest task and drop it, attempt it (and
    requeue it when the handler throws), or mark it failed.
  - The restart escalation fires after more than 20 failures.
  - There is one handler per task class, and listeners are appended per class.
- **The flat-file index** (`search.Search`, in `flat_search.dfy`). It is the older variant of
  the index.
  - Paths are lines of 26 list files, one per checksum range of width 100.
  - A recycle bin is partitioned by range, and each list file is filtered against its part.
  - Paths to add are appended only when absent.
  - The `isUsable` and `isManualUpdate` flags gate the merges.
- **Hotkey handling** (`CheckHotKeyUtil`, in `check_hotkey.dfy`).
  - Hotkeys such as `"Ctrl + Alt + J"` are split with Java's `Pattern.split` semantics and then
    validated and parsed into five key codes.
  - Registration and re-registration are modelled.
  - The show/hide toggle loop runs over a trace of key readings and clock values.

`common.dfy` holds the shared `Option`, `Result` and `Outcome` types and the modelled Java
exceptions.

The imperative parts are classes with the source's fields: `SearchUtil.IndexEngine`,
`EventManagement.EventManagement` and `EventManagement.Event`, `FlatSearch.FlatIndex`, and
`CheckHotKey.HotkeyRegistrar`. Their methods are proved against pure specification functions,
and the properties of those functions are proved as lemmas.

### Modelling choices

- The methods model the code as written, including the three defects under "## Findings".
- Where a defect is modelled, the pure definition takes an `asWritten` flag:
  - `FlatSearch.FilterSet` and `FlatSearch.MergeBuckets`;
  - `CheckHotKey.TokenForSlot` and `CheckHotKey.Parse`;
  - for the checksum-0 case, the pair `FlatSearch.LocalBucket` / `FlatSearch.PartitionBucket`.
  
  The corrected behaviour is the same definition with the flag false, and its intended
  property is proved there.
- Two places where the behaviour one would expect and the code disagree; the model follows the
  code:
  - `addToCommandSet` drops the record it refuses at the 5000 cap. It only raises the flush
    flag; the record is not kept for later.
  - When a batch fails part way, the statements that ran before the failure are still
    committed, because the `COMMIT` runs in a `finally`. The whole batch is also put back on
    the queue, so those statements will run again.

## Model

| member | source | states |
|---|---|---|
| SearchUtil.LastIndexOf | src/main/java/FileEngine/search/SearchUtil.java:326 | the result is -1 or a position holding the character, and no later position holds it |
| SearchUtil.FileName | src/main/java/FileEngine/search/SearchUtil.java:324-330 | the name is a suffix of the path with no separator in it, preceded by a separator when shorter than the path; the whole path when it has no separator; `""` for `null` |
| SearchUtil.Normalize | src/main/java/FileEngine/search/SearchUtil.java:334-337 | the empty name stays empty, a single `;` vanishes and any other single character is upper-cased; with `NormalizeConcat` this fixes the normal form of every name, which has no `;` or lower-case letter and is no longer than the name |
| SearchUtil.AsciiSum | src/main/java/FileEngine/search/SearchUtil.java:332-341 | `null` yields 0; any other name yields the native sum of its normal form, so names alike up to case and `;` get one checksum (`SameChecksum`) |
| SearchUtil.NormalizeConcat | src/main/java/FileEngine/search/SearchUtil.java:334-337 | normalising distributes over concatenation |
| SearchUtil.SemicolonInsensitive | src/main/java/FileEngine/search/SearchUtil.java:335-337 | inserting a `;` anywhere in a name does not change its normal form |
| SearchUtil.CaseInsensitive | src/main/java/FileEngine/search/SearchUtil.java:334 | names that differ only in ASCII letter case have the same normal form |
| SearchUtil.NormalizeIdempotent | src/main/java/FileEngine/search/SearchUtil.java:332-341 | normalising twice equals normalising once |
| SearchUtil.SameChecksum | src/main/java/FileEngine/search/SearchUtil.java:332-341 | names with the same normal form get the same checksum for every native sum, and the checksum of a name equals that of its normal form |
| SearchUtil.InsertCommand | src/main/java/FileEngine/search/SearchUtil.java:188-322 | an insert record exists exactly when the checksum divided by 100 (truncating) is in 0..40; it carries the path and checksum, and its table's range of 100 contains a non-negative checksum |
| SearchUtil.DeleteRemovesPath | src/main/java/FileEngine/search/SearchUtil.java:53-186 | for a group in 0..40 the delete record exists and, run on any store, fails when the group's table is missing and otherwise removes the path from that table, leaving every other table, the cache and the indexes as they were |
| SearchUtil.AddRemoveSameTable | src/main/java/FileEngine/search/SearchUtil.java:343-352 | add and remove of a checksum are both routed or both dropped, and when routed they target the same table |
| SearchUtil.AddRemoveRoundTrip | src/main/java/FileEngine/search/SearchUtil.java:343-352 | once the table exists, the insert record makes the path present, a repeated insert changes nothing, and the matching delete record makes it absent again |
| SearchUtil.DropCommandsSnoc | src/main/java/FileEngine/search/SearchUtil.java:588-591 | one more turn of the drop loop appends exactly table n's drop-table record and then its drop-index record |
| SearchUtil.CreateTableCommandsSnoc | src/main/java/FileEngine/search/SearchUtil.java:594-597 | one more turn of the create loop appends exactly table n's create-table record |
| SearchUtil.ListIndexCommandsSnoc | src/main/java/FileEngine/search/SearchUtil.java:464-467 | one more turn of the index loop appends exactly table n's index record |
| SearchUtil.RebuildLayout | src/main/java/FileEngine/search/SearchUtil.java:584-599 | the rebuild queue has 123 records: the drop pairs of tables 0..40 in order, then their 41 create-table records in order |
| SearchUtil.IndexLayout | src/main/java/FileEngine/search/SearchUtil.java:462-469 | the index sequence has 42 records: the cache index first, then the index of table i at position 1+i |
| SearchUtil.ApplyDropCommands | src/main/java/FileEngine/search/SearchUtil.java:588-591 | the drop records never fail, and remove exactly the tables and indexes below n |
| SearchUtil.ApplyCreateTableCommands | src/main/java/FileEngine/search/SearchUtil.java:593-597 | the create-table records never fail, and add an empty table for each missing number below n while keeping existing ones |
| SearchUtil.ApplyRebuild | src/main/java/FileEngine/search/SearchUtil.java:584-599 | running the rebuild queue yields the dropped-then-created store |
| SearchUtil.RebuiltIdempotent | src/main/java/FileEngine/search/SearchUtil.java:584-599 | rebuilding a rebuilt store changes nothing |
| SearchUtil.RebuildResetsTables | src/main/java/FileEngine/search/SearchUtil.java:584-599 | from any store the rebuild never fails, leaves tables 0..40 present and empty without indexes, keeps the cache, and running it again is a no-op |
| SearchUtil.OfferBound | src/main/java/FileEngine/search/SearchUtil.java:401-411 | offering never grows a queue within the cap past 5000 and never shrinks it; the record ends up queued iff there was room or it was already queued; the old queue is a prefix |
| SearchUtil.IndexEngine.constructor | src/main/java/FileEngine/search/SearchUtil.java:22-24 | an empty queue, a lowered flush flag and nothing committed |
| SearchUtil.IndexEngine.AddToCommandSet | src/main/java/FileEngine/search/SearchUtil.java:401-411 | below the cap the record is appended at the tail; at the cap the queue is unchanged and the flush flag is raised |
| SearchUtil.IndexEngine.AddFileToDatabase | src/main/java/FileEngine/search/SearchUtil.java:349-352 | the path's insert record is offered to the queue when its group is 0..40; otherwise neither the queue nor the flag change |
| SearchUtil.IndexEngine.RemoveFileFromDatabase | src/main/java/FileEngine/search/SearchUtil.java:343-347 | the path's delete record, for the group of its checksum, is offered when that group is 0..40; otherwise nothing changes |
| SearchUtil.IndexEngine.AddFileToCache | src/main/java/FileEngine/search/SearchUtil.java:363-366 | the cache-insert record of the path is offered to the queue |
| SearchUtil.IndexEngine.RemoveFileFromCache | src/main/java/FileEngine/search/SearchUtil.java:354-357 | the cache-delete record of the path is offered to the queue |
| SearchUtil.IndexEngine.ExecuteImmediately | src/main/java/FileEngine/search/SearchUtil.java:359-361 | the flush flag is raised |
| SearchUtil.IndexEngine.ExecuteAllCommands | src/main/java/FileEngine/search/SearchUtil.java:368-399 | an empty queue changes nothing; otherwise the statements that ran, in queue order, are committed, the queue is emptied on success, and on failure every record of the batch is back in the queue in order |
| SearchUtil.IndexEngine.CommitterTick | src/main/java/FileEngine/search/SearchUtil.java:35-41 | with the flag down nothing changes; with it up the flag is lowered and the queue is flushed as above |
| SearchUtil.IndexEngine.IsTaskExistInCommandSet | src/main/java/FileEngine/search/SearchUtil.java:575-582 | true iff some queued record carries the task id |
| SearchUtil.IndexEngine.WaitForCommandSet | src/main/java/FileEngine/search/SearchUtil.java:555-573 | stops after one poll when no record of the task is queued, and when one is, polls `isTaskExistInCommandSet` 1000 times and gives up as its counter reaches 1001; does not poll at all once the program is exiting |
| SearchUtil.IndexEngine.RecreateDatabase | src/main/java/FileEngine/search/SearchUtil.java:584-599 | the queue becomes exactly the rebuild sequence (old records discarded) and the flush flag is raised |
| SearchUtil.IndexEngine.CreateAllIndex | src/main/java/FileEngine/search/SearchUtil.java:462-469 | the index sequence is appended after the existing records and the flush flag is raised |
| EventManagement.Dispatched | src/main/java/file/engine/event/handler/EventManagement.java:339-358 | a finished or failed task is dropped unchanged; with attempts left it gets one more attempt and is finished iff the handler did not throw; otherwise it is marked failed without an attempt |
| EventManagement.StaysTerminal | src/main/java/file/engine/event/handler/EventManagement.java:339-341 | a finished or failed task is never changed by later dequeues |
| EventManagement.AlwaysThrowingFrom | src/main/java/file/engine/event/handler/EventManagement.java:343-358 | from k attempts, n dequeues with a throwing handler reach k+n pending attempts within the budget, and the failed state with the budget used up beyond it |
| EventManagement.RetryBudget | src/main/java/file/engine/event/handler/EventManagement.java:343-358 | a task whose handler always throws is attempted exactly maxRetryTimes times and is then marked failed |
| EventManagement.RunKeepsReachable | src/main/java/file/engine/event/handler/EventManagement.java:339-358 | whatever the handler does, attempts never exceed the budget, attempts never decrease, a task is never both finished and failed, failed only with the budget used up, and finished only after an attempt |
| EventManagement.AddAbsentNoDuplicates | src/main/java/file/engine/event/handler/EventManagement.java:155-163 | adding only an absent task keeps the lane free of duplicates, the task ends up in it, and the lane's old contents are a prefix |
| EventManagement.WithListener | src/main/java/file/engine/event/handler/EventManagement.java:258-267 | the class's listener list gets the listener at its end (created when absent), and every other class's list is unchanged |
| EventManagement.EventManagement.IsEventHandlerNotExit | src/main/java/file/engine/event/handler/EventManagement.java:320-322 | the lanes run while exit is unset, and once it is set, exactly while some lane still holds a task |
| EventManagement.EventManagement.constructor | src/main/java/file/engine/event/handler/EventManagement.java:25-30 | both lanes and both registries empty, no failures counted, exit not set |
| EventManagement.EventManagement.PutEvent | src/main/java/file/engine/event/handler/EventManagement.java:149-169 | once exit is set both lanes are unchanged; otherwise the task joins only its own lane, only when absent, and neither lane gets duplicates |
| EventManagement.EventManagement.RegisterHandler | src/main/java/file/engine/event/handler/EventManagement.java:243-251 | a second handler for a class throws and leaves the map unchanged; a first one is stored |
| EventManagement.EventManagement.RegisterListener | src/main/java/file/engine/event/handler/EventManagement.java:258-267 | the listener map becomes the map with the listener appended to its class |
| EventManagement.EventManagement.DoAllMethod | src/main/java/file/engine/event/handler/EventManagement.java:127-141 | the class's listener chain is handed on exactly when listeners are registered for it |
| EventManagement.EventManagement.ExecuteTaskFailed | src/main/java/file/engine/event/handler/EventManagement.java:77-108 | counts one attempt; a restart sets exit, runs the restart listeners, stops the daemon only for a close, finishes the task and ends the process; otherwise it fails iff a registered handler throws, and finishes and runs listeners iff it did not fail |
| EventManagement.EventManagement.ProcessPolled | src/main/java/file/engine/event/handler/EventManagement.java:339-358 | the task's new state is the retry state machine's step; it is requeued iff it was attempted and the handler threw; the failure counter rises by one exactly when the task becomes failed; listeners run only when it becomes finished |
| EventManagement.EventManagement.BlockStep | src/main/java/file/engine/event/handler/EventManagement.java:332-358 | runs only while the bus is not exiting; takes the oldest blocking task and steps it; a requeued task goes to the tail, preceded by a fresh `RestartEvent` when more than 20 failures are counted and exit is not set; unless it attempted a restart, exit, the process and the daemon are as before and only the finished task's listener chain is added, so the next turn can follow; an attempted restart sets exit, ends the process and runs the restart listeners; the async lane and registries are untouched |
| EventManagement.EventManagement.AsyncStep | src/main/java/file/engine/event/handler/EventManagement.java:280-303 | as the block lane without the escalation: the oldest async task is stepped and requeued at the tail iff its attempt threw; exit, process, daemon and listener chains change as in `BlockStep`, so turns chain |
| FlatSearch.PartitionBucket | src/main/java/search/Search.java:95-151 | bucket 0 is exactly [0, 100], bucket 25 exactly the negatives and sums above 2500, and bucket k in 1..24 holds only (100k, 100(k+1)] |
| FlatSearch.PartitionRanges | src/main/java/search/Search.java:99-148 | for k in 1..24, a sum is in bucket k iff it lies in (100k, 100(k+1)] |
| FlatSearch.LocalBucket | src/main/java/search/Search.java:455-554 | `addRecordToLocal` routes every non-zero checksum to the bucket the partition uses, and checksum 0 to bucket 25 instead of 0 |
| FlatSearch.FilterSet | src/main/java/search/Search.java:293-391 | as written, buckets above 15 are filtered with bucket 15's set; otherwise each bucket uses its own |
| FlatSearch.PartitionExact | src/main/java/search/Search.java:95-151 | a path is in bucket k of the partition iff it is in the recycle bin and its checksum falls in bucket k |
| FlatSearch.Filtered | src/main/java/search/Search.java:404-410 | the filtered lines are no more than the lines, and a line survives iff it was there and is not in the delete set |
| FlatSearch.FilteredKeepsAll | src/main/java/search/Search.java:406-410 | filtering keeps every line, in order, when none of them is to be deleted |
| FlatSearch.FilteredIdempotent | src/main/java/search/Search.java:401-415 | filtering with the empty set is the identity, and filtering twice with one set equals filtering once |
| FlatSearch.ReplaceWith | src/main/java/search/Search.java:162-165 | the temporary file is gone; the list file exists iff the temporary file did and then holds its lines; other files are untouched |
| FlatSearch.StepLocal | src/main/java/search/Search.java:158-391 | each bucket's step touches only that bucket's two files and depends only on them |
| FlatSearch.MergeBucketsUntouched | src/main/java/search/Search.java:158-391 | buckets the merge has not reached are unchanged |
| FlatSearch.MergeBucketsAt | src/main/java/search/Search.java:158-391 | after the merge passes bucket k, that bucket is what its own step makes of the original files |
| FlatSearch.CorrectedMergeRemoves | src/main/java/search/Search.java:158-301 | filtering each bucket with its own set leaves every list file holding exactly its old lines minus that bucket's recycled paths, with no temporary file left |
| FlatSearch.AsWrittenMergeLosesBucket | src/main/java/search/Search.java:302-391 | as written, a bucket above 15 with recycled paths loses its whole list file when bucket 15 has none |
| FlatSearch.AsWrittenMergeKeepsRecycled | src/main/java/search/Search.java:302-391 | as written, a bucket above 15 is filtered with bucket 15's paths, so its own recycled paths remain |
| FlatSearch.AppendAbsent | src/main/java/search/Search.java:32-55 | a file already holding the record is left as it was; otherwise exactly the record is appended, creating the file; other files are untouched |
| FlatSearch.WriteRecordIdempotent | src/main/java/search/Search.java:32-55 | writing a record twice equals writing it once, the only line added is the record, and a file without it ends with exactly one copy |
| FlatSearch.LoadAllExact | src/main/java/search/Search.java:421-433 | loading keeps every old line, puts every path that exists on disk into the list file of its checksum, and adds nothing else |
| FlatSearch.ZeroChecksumRecordSurvives | src/main/java/search/Search.java:459 | as written, a path with checksum 0 that is added and then recycled is still in `list2500-` |
| FlatSearch.ZeroChecksumRecordRemoved | src/main/java/search/Search.java:98 | routed by the partition, the same path is written to `list0-100` and the merge removes it |
| FlatSearch.FlatIndex.constructor | src/main/java/search/Search.java:18-22 | usable, no manual update, both path sets empty |
| FlatSearch.FlatIndex.AddToRecycleBin | src/main/java/search/Search.java:61-63 | the path is added at the end of the bin unless already there |
| FlatSearch.FlatIndex.AddFileToLoadBin | src/main/java/search/Search.java:417-419 | the path is added at the end of the load set unless already there |
| FlatSearch.FlatIndex.SetManualUpdate | src/main/java/search/Search.java:439-441 | the manual-update flag takes the given value |
| FlatSearch.FlatIndex.SetUsable | src/main/java/search/Search.java:447-453 | usable becomes the given value, except that it is false during a manual update |
| FlatSearch.FlatIndex.IsContained | src/main/java/search/Search.java:43-55 | true iff some line of the file equals the record; a missing file contains nothing |
| FlatSearch.FlatIndex.WriteRecordToFile | src/main/java/search/Search.java:32-41 | the files become the record appended only when absent |
| FlatSearch.FlatIndex.DeleteRecordInFile | src/main/java/search/Search.java:401-415 | with a non-empty set and an existing source, the source's lines outside the set are appended, in order, to the destination; otherwise nothing is written |
| FlatSearch.FlatIndex.ReplaceFile | src/main/java/search/Search.java:162-165 | the source is replaced by the temporary file, as `ReplaceWith` states |
| FlatSearch.FlatIndex.PartitionRecycleBin | src/main/java/search/Search.java:95-151 | the 26 sets hold each recycled path in exactly the bucket of its checksum, and nothing else |
| FlatSearch.FlatIndex.MergeAndClearRecycleBin | src/main/java/search/Search.java:65-399 | nothing changes during a manual update; otherwise the bin is emptied, the files become the as-written merge of the bin's partition, and the index ends usable |
| FlatSearch.FlatIndex.AddRecordToLocal | src/main/java/search/Search.java:455-559 | the path is written, only when absent, to the list file of its checksum as written; usable is set unless a manual update is running |
| FlatSearch.FlatIndex.MergeFileToList | src/main/java/search/Search.java:421-433 | nothing changes during a manual update; otherwise every path of the load set that exists on disk is loaded in order, the set is emptied, and the index ends usable |
| CheckHotKey.JavaSplit | src/main/java/FileEngine/utils/CheckHotKeyUtil.java:51 | a string without `" + "` is its own only segment; when a separator exists the trailing empty segments are dropped, so the last one kept is not empty |
| CheckHotKey.SegmentsNoSep | src/main/java/FileEngine/utils/CheckHotKeyUtil.java:51 | no segment between successive leftmost separators holds a separator |
| CheckHotKey.SplitNoSep | src/main/java/FileEngine/utils/CheckHotKeyUtil.java:51 | no token `split` returns holds a separator |
| CheckHotKey.IndexOfSep | src/main/java/FileEngine/utils/CheckHotKeyUtil.java:51 | the leftmost `" + "` at or after the start position, or none at all |
| CheckHotKey.DropTrailingEmpty | src/main/java/FileEngine/utils/CheckHotKeyUtil.java:51 | a prefix of the segments that does not end in an empty one, with only empty segments removed |
| CheckHotKey.FirstSepAfterWord | src/main/java/FileEngine/utils/CheckHotKeyUtil.java:51 | in a word followed by `" + "`, the first separator the matcher finds is the one right after the word |
| CheckHotKey.SplitSegmentsJoin | src/main/java/FileEngine/utils/CheckHotKeyUtil.java:51 | the segments between separators of plain words joined with `" + "` are exactly those words |
| CheckHotKey.SplitJoin | src/main/java/FileEngine/utils/CheckHotKeyUtil.java:51 | `split` with limit 0 of plain words joined with `" + "` gives back the words, nothing dropped |
| CheckHotKey.SplitSegmentsLast | src/main/java/FileEngine/utils/CheckHotKeyUtil.java:64 | when the string does not end in a space, its last segment is non-empty and ends with the string's last character |
| CheckHotKey.ModifierCode | src/main/java/FileEngine/utils/CheckHotKeyUtil.java:174-177 | exactly Ctrl, Alt, Shift and Win have a code |
| CheckHotKey.ModifierCodesDistinct | src/main/java/FileEngine/utils/CheckHotKeyUtil.java:174-177 | the four modifiers have pairwise different codes and are plain words |
| CheckHotKey.AvailableParses | src/main/java/FileEngine/utils/CheckHotKeyUtil.java:50-64 | an accepted hotkey never throws when parsed; its key code is the first UTF-16 unit of the last token, which ends with the accepted 'A'..'Z' character |
| CheckHotKey.WrittenHotkeyAccepted | src/main/java/FileEngine/utils/CheckHotKeyUtil.java:80-90 | modifiers joined with an upper-case key split back into those tokens and are accepted |
| CheckHotKey.SlotsOfTokens | src/main/java/FileEngine/utils/CheckHotKeyUtil.java:53-62 | up to four known modifiers and a key pass the unknown-modifier test; slots 0-2 get the modifiers' codes and slot 3 gets the fourth modifier's code as intended but -1 as written |
| CheckHotKey.IntendedParseRoundTrip | src/main/java/FileEngine/utils/CheckHotKeyUtil.java:53-64 | read as intended, up to four modifiers and a key parse back into their codes slot by slot, unused slots -1 |
| CheckHotKey.ParseQuirkNeedsFourModifiers | src/main/java/FileEngine/utils/CheckHotKeyUtil.java:53-62 | with at most four tokens the as-written and intended parses agree |
| CheckHotKey.AsWrittenDropsFourthModifier | src/main/java/FileEngine/utils/CheckHotKeyUtil.java:59-61 | as written, an accepted hotkey with four modifiers registers -1 in the fourth slot |
| CheckHotKey.DefaultHotkeyAccepted | src/main/java/main/MainClass.java:127 | the default `"Ctrl + Alt + J"` is accepted and registers Ctrl (17), Alt (18) and 'J' |
| CheckHotKey.FirstUnit | src/main/java/FileEngine/utils/CheckHotKeyUtil.java:64 | `charAt(0)` of a token reads one UTF-16 unit: the character itself below U+10000, otherwise its high surrogate (0xD800..0xDBFF) |
| CheckHotKey.LastUnit | src/main/java/FileEngine/utils/CheckHotKeyUtil.java:89 | `charAt(length() - 1)` reads one UTF-16 unit: the character itself below U+10000, otherwise its low surrogate (0xDC00..0xDFFF) |
| CheckHotKey.SurrogatePairDecodes | src/main/java/FileEngine/utils/CheckHotKeyUtil.java:64 | above U+FFFF the first and last units are the surrogate pair that decodes back to the character |
| CheckHotKey.SupplementaryKeyGetsHighSurrogate | src/main/java/FileEngine/utils/CheckHotKeyUtil.java:50-64 | `"Ctrl + \U{1F600}A"` is accepted on its last unit 'A', and the listener is given 17 and the high surrogate 0xD83D, not the code point 0x1F600 |
| CheckHotKey.HotkeyRegistrar.constructor | src/main/java/FileEngine/utils/CheckHotKeyUtil.java:23 | not registered, nothing registered with the native listener |
| CheckHotKey.HotkeyRegistrar.IsHotkeyAvailable | src/main/java/FileEngine/utils/CheckHotKeyUtil.java:80-90 | false at an unknown modifier; otherwise whether the string's last UTF-16 unit is 'A'..'Z'; an empty string throws |
| CheckHotKey.HotkeyRegistrar.ParseHotkey | src/main/java/FileEngine/utils/CheckHotKeyUtil.java:50-64 | the loop computes the as-written parse: an unknown modifier at tokens 0-2 or, for slot 3, at token 4 throws, a missing or empty last token throws, otherwise the five codes, the key being the last token's first UTF-16 unit |
| CheckHotKey.HotkeyRegistrar.RegisterHotkey | src/main/java/FileEngine/utils/CheckHotKeyUtil.java:47-77 | afterwards the hotkey is registered (even when the parse throws); the parsed codes are registered and listening starts on the first call; a parse failure registers nothing |
| CheckHotKey.HotkeyRegistrar.ChangeHotKey | src/main/java/FileEngine/utils/CheckHotKeyUtil.java:93-113 | throws before registration; otherwise re-registers the parsed codes or throws what the parse throws |
| CheckHotKey.WellSpacedGuards | src/main/java/FileEngine/utils/CheckHotKeyUtil.java:125-138 | every emitted event met its guard: a show on a hidden bar more than 200 ms after the last hide, a hide on a normally shown bar more than 200 ms after the last show |
| CheckHotKey.WellSpacedReleases | src/main/java/FileEngine/utils/CheckHotKeyUtil.java:125-143 | consecutive events come from increasing iterations with a key release between them: at most one event per press |
| CheckHotKey.AppendEmission | src/main/java/FileEngine/utils/CheckHotKeyUtil.java:124-138 | an event emitted in an iteration whose guard holds, after a release since the previous event, keeps every event stamped, guarded and release-separated, and updates only its own kind's last time |
| CheckHotKey.ExecutedIffHeld | src/main/java/FileEngine/utils/CheckHotKeyUtil.java:125-143 | `isExecuted` is set before an iteration exactly when some earlier press has read held in every iteration since |
| CheckHotKey.FiresIffEmitted | src/main/java/FileEngine/utils/CheckHotKeyUtil.java:125-138 | over a whole run, a press's event is submitted exactly when the press fires: not yet acted on, and its guard holds against the events before it |
| CheckHotKey.StateWellSpaced | src/main/java/FileEngine/utils/CheckHotKeyUtil.java:125-143 | before every iteration the events so far are stamped, guarded and separated by releases, and an unheld key has read released since the last one |
| CheckHotKey.ListenLoop | src/main/java/FileEngine/utils/CheckHotKeyUtil.java:115-149 | the loop submits exactly the reference run's events: each press's event is in the result iff the press fires (a hidden bar on a fresh press more than 200 ms after the last hide is shown, a normally shown one hidden on the same terms); every event is stamped with its iteration's clock, meets its guard, and follows a release |

## Left out

- Crawl orchestration (`searchFile`, `searchByUSN`, `updateLists` and the desktop and start-menu walks in both index variants) is not modelled. It runs external processes and walks the real filesystem.
- SQL execution is not modelled; whether a batch raises, and after how many statements, is the parameter `failAt`. `createAllTables`, which runs directly on a JDBC statement at startup, is not modelled.
- The native checksum (`GetAscII`, `SearchBar.getAscIISum`) is a function parameter. In the flat index it is one oracle on the whole path, standing for the checksum of `File.getName` / `SearchBar.getFileName`.
- `SearchUtil.ToUpperAscii` upper-cases ASCII letters only. Java's `toUpperCase` also maps other Unicode letters, and that is not modelled.
- `SearchUtil.IndexEngine.WaitForCommandSet` reads the queue as fixed while it waits. The committer thread and its 10 ms sleeps are not modelled, so the wait either ends at the first poll or times out.
- `SearchUtil.IndexEngine.CommitterTick` is one turn of the flush loop. The thread, its 100 ms sleep and the database status field are not modelled.
- The dispatcher threads, the four async workers and their 5 ms sleeps are not modelled. One call of `BlockStep` or `AsyncStep` is one loop turn, and an interleaving of turns is a sequence of calls.
- The thread-pool fan-out of `doAllMethod` is not modelled; a listener chain is recorded as handed on, not run.
- `waitForEvent` and the callback form of `putEvent` are not modelled. They rely on a 20 s wall-clock wait and on callback threads.
- Reflection-based registration (`registerAllHandler`, `registerAllListener`) is not modelled; handlers and listeners are named by string.
- `EventManagement.EventManagement.ExecuteTaskFailed` records `System.exit`, `stopDaemon` and the thread-pool shutdown as flags. It does not model the process ending.
- The `Event` and `RestartEvent` classes are not part of this model. Task equality is object identity, a restart is assumed to be a blocking task, and its retry budget is the constant `restartRetryTimes`.
- `CheckHotKey.HotkeyRegistrar.RegisterHotkey` records the native `registerHotKey` and `startListen` calls in place. It does not model the thread-pool task they run in.
- `stopListen` and the `HotkeyListener` natives are not modelled, and neither is `registerEventHandler`.
- `CheckHotKey.ListenLoop` reads the clock once per iteration. The source reads it once for the test and again when stamping, so the model treats both readings as the same value.
- `CheckHotKey.ListenLoop` models the key status read twice per iteration as two observations. The `isNotMainExit` loop condition becomes the end of the trace, and the 10 ms sleep is not modelled.
- I/O errors in the flat index are not modelled. `IOException` is swallowed in the source: a missing source file writes nothing, and this is modelled. An error part way through a read or write is not.
- A `ConcurrentModificationException` in `mergeAndClearRecycleBin` needs a concurrent writer, which this sequential model does not have.
- `FlatSearch.FlatIndex.MergeFileToList` takes file existence as the oracle `onDisk`.
- `DownloadUtil`, `MainClass` (apart from its default hotkey) and `DaemonService` are not part of this model.

## Findings

| source | as written | input that shows it | evidently intended | confidence | as-written member | corrected member |
|---|---|---|---|---|---|---|
| src/main/java/search/Search.java:302-391 | buckets `list1600-1700` through `list2500-` are filtered with `set1500` | a recycle bin holding one path of checksum 1650 and none in 1501..1600: `list1600-1700.txt` is deleted and nothing replaces it | each bucket filtered with its own set, as buckets 0..15 are | high (not executed) | FlatSearch.AsWrittenMergeLosesBucket | FlatSearch.CorrectedMergeRemoves |
| src/main/java/search/Search.java:459 | `addRecordToLocal`'s first range is `0 < ascII`, so checksum 0 is written to `list2500-.txt`, while the recycle partition (line 98) looks for it in `list0-100.txt` | a path whose file name has checksum 0, added and then recycled: its line stays in `list2500-.txt` | `0 <= ascII`, the range the partition uses | medium (not executed) | FlatSearch.ZeroChecksumRecordSurvives | FlatSearch.ZeroChecksumRecordRemoved |
| src/main/java/FileEngine/utils/CheckHotKeyUtil.java:60 | the fourth modifier slot is read from token 4 (`i == 4`, also at line 107), so token 3 is never read | `"Ctrl + Alt + Shift + Win + K"` is accepted, but the listener is given -1 for the fourth modifier and Win is lost | `i == 3` | high (not executed) | CheckHotKey.AsWrittenDropsFourthModifier | CheckHotKey.IntendedParseRoundTrip |
