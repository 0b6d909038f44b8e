# Wrightful: verified model of the reporter pipeline and the dashboard's exports, owners and GitHub surfaces

Wrightful collects Playwright results. A reporter inside the test process streams finished tests to a
dashboard; the dashboard derives owners from CODEOWNERS, exports runs as CSV, and posts one check run per run
and one summary comment per pull request to GitHub. This project models the parts of that system whose
correctness spans a loop, a state machine or several functions, and proves what they promise.

| file | what it models |
|---|---|
| `Utf.dfy` | UTF-16, UTF-8 (RFC 3629) and the incremental decoder behind Node's `StringDecoder`; proved to compute the substitution of maximal subparts of the Unicode Standard, section 3.9 |
| `Limits.dfy` | `truncate` and `joinStdio`: mixed chunks, sliced, decoded incrementally, stopped early, truncated |
| `Glob.dfy` | the CODEOWNERS glob compiler, its memo and its row-by-row matcher, against two declarative languages |
| `Codeowners.dfy` | anchored, floating, subtree and one-level patterns; last match wins |
| `CodeownersFile.dfy` | reading a CODEOWNERS file: lines, words, comments and bounds |
| `Csv.dfy` | the CSV printer and a reader for section 2 of RFC 4180 that inverts it |
| `Cursor.dfy` | the opaque cursor text: joined segments, UTF-8, base64 |
| `Export.dfy` | cursors, pages and the capped export walk over a table that may change between page loads |
| `Accumulator.dfy` | buffering attempts until a test is done |
| `Batcher.dfy` | queue, timer and promise chain as a state machine, and the class that implements its steps |
| `Semaphore.dfy`, `PutPool.dfy` | the upload semaphore, and the PUT tasks of overlapping uploads that share it |
| `Uploads.dfy` | snapshot triples, correlation, registration with the 413 retry, uploads |
| `Reporter.dfy` | the reporter's pipeline over the accumulator and the batcher, with its counters |
| `Lease.dfy`, `CheckRun.dfy`, `CommentMutex.dfy` | the claim columns with a time to live, and the two posting protocols over them |
| `CheckRunIds.dfy`, `CommentWriters.dfy` | one process among the others: whose id or run it records, where it reads, when it gives way and how often it tries |
| `Prelude.dfy`, `Text.dfy`, `Decimal.dfy` | small shared vocabulary |

Code that updates variables or fields in place is a method or a class here, proved equal to a specification
function; the promises are then proved about that function over all inputs or all runs. Protocols are state
machines whose events may come in any order: an event that does not fit the current phase changes nothing, so
a statement about every list of events is a statement about every interleaving. Outcomes of the network, the
disk and the clock are parameters or events.

## What was found

- `joinStdio` is documented as a shared incremental decode. It equals "encode everything, decode once,
  truncate" exactly when no slice boundary splits a surrogate pair among the first `max` units
  (`Limits.JoinFaithfulIff`). Well-formed strings always qualify (`Limits.JoinFaithful`); a lone high surrogate
  in front of a pair at a slice edge does not, because the code then moves the cut into the pair
  (`Limits.JoinUnfaithful`).
- Both posting protocols read the clock in the process and send the claim afterwards, and the reading becomes
  the token. A claim that lands later than the time to live can put a superseded token back into the column:
  then a superseded check-run write takes effect (`CheckRun.LateClaimRevives`), and the recorded run of a
  comment goes back to an older one (`CommentMutex.LateClaimReverses`). The bound is exact: a superseded holder
  is powerless, and the recorded run never ages, if and only if claims land within the time to live
  (`CheckRun.HarmlessDelayIff`, `CommentMutex.SafeDelayIff`). That at most one claimed write of a check-run id
  takes effect needs no such condition (`CheckRun.AtMostOneClaimedPersist`).
- At most one check run is created exactly while holders are in time and whatever lands is recorded. The limit
  on holders is safe if and only if it is at most the time to live (`CheckRun.SafeLimitIff`); and in a timely
  run everything that landed has been recorded if and only if no timely continuation can make a second one
  (`CheckRun.RecordingIsExact`). A crash after the POST, for instance, ends in two (`CheckRun.CrashDuplicates`).
- `postWithWriteMutex` is documented to keep bodies in order "at GitHub, not just in the DB". That holds while
  writers are in time, every newer body is recorded, and no request that nobody waits for lands harmfully
  (`CommentMutex.NeverOlderAtGithub`). Again the limit is exact (`CommentMutex.SafeLimitIff`), and so is the
  rest: such a fault has happened if and only if at some point the order could be broken without any further
  one (`CommentMutex.RecordingIsExact`). One lost response is enough (`CommentMutex.LostResponseReverses`).
- `upload` accounts for every registration exactly when each accepted registration got a URL
  (`Uploads.Upload`); a short answer, or one with holes, leaves files uncounted.
- A cursor loses a byte order mark in front of its first segment, which the decoder drops
  (`Cursor.KeysetRoundTrip`); run cursors begin with a number. A cursor whose id is empty restarts the walk at
  the first page (`Export.CursorRoundTrip`), so a table of the model holds non-empty ids, as its ULIDs are.
- A CSV row without cells reads back as one empty cell (`Csv.ShownRow`), and guarding merges a risky text with
  its quoted form (`Csv.GuardMerges`).
- A raw `/*` loses its leading slash before the `/*` suffix is tested, so it recurses like a pattern without
  that suffix; it is the only one that does (`Codeowners.SubtreeOwned`, `Codeowners.OneLevelOwned`).

## Model

| member | source | states |
|---|---|---|
| Utf.DecodeMeetsStandard | packages/reporter/src/limits.ts:62-69 | the decoder with held bytes outputs exactly the text that a stateless definition of maximal-subpart substitution gives, and that text is unique |
| Utf.DecoderSound | packages/reporter/src/limits.ts:62-69 | wherever a byte stream is cut, held bytes and the rest decode as one string |
| Utf.DecodeBytesConcat | packages/reporter/src/limits.ts:62-69 | decoding two pieces through one decoder equals decoding their concatenation, so chunk boundaries do not matter |
| Utf.PrefixOkIffEncodes | packages/reporter/src/limits.ts:77-77 | the decoder's byte table accepts exactly the non-empty prefixes of encoded scalars |
| Utf.DecodeEncoded | packages/reporter/src/limits.ts:64-67 | a re-encoded string first resolves what was held and then decodes to itself with lone surrogates replaced, holding nothing |
| Utf.EncodedStandsAlone | packages/reporter/src/limits.ts:64-67 | an encoded string decodes to itself wherever it comes in a stream of bytes |
| Utf.RoundTrip | packages/reporter/src/limits.ts:115-115 | encoding a string and decoding it gives it back exactly when it is well-formed UTF-16 |
| Utf.SanitizeConcat | packages/reporter/src/limits.ts:103-105 | a cut that does not split a surrogate pair changes nothing |
| Limits.TruncateLongest | packages/reporter/src/limits.ts:36-41 | on well-formed text the result is the longest well-formed prefix of at most `max` units, and nothing else is |
| Limits.TruncateIdempotent | packages/reporter/src/limits.ts:36-41 | for every text truncation is a prefix and idempotent, and gives up one more unit only for a high surrogate |
| Limits.StringDecoder.KeepsPromises | packages/reporter/src/limits.ts:62-69 | the fold over bytes meets the interface that everything else relies on: what was said and what is pending owe exactly the decode of the stream, and a complete character is not held back |
| Limits.StringDecoder.Write | packages/reporter/src/limits.ts:91-91 | one write keeps these promises, and says and holds no more than a unit for each byte |
| Limits.StringDecoder.End | packages/reporter/src/limits.ts:120-120 | the end says what the pending bytes decode to |
| Limits.SlicesStandAlone | packages/reporter/src/limits.ts:103-117 | wherever it comes in the stream, a string encoded slice by slice decodes to its slices' text, whatever was pending before |
| Limits.WriteBytes | packages/reporter/src/limits.ts:80-94 | the decode loop terminates having fed a prefix of the bytes in order, all of them unless the output is full, and never exceeds `max` plus one slice plus three |
| Limits.WriteString | packages/reporter/src/limits.ts:106-117 | the string loop feeds exactly the grid of slices, or fills the output with a text that agrees with theirs up to `max` |
| Limits.WriteChunk | packages/reporter/src/limits.ts:96-119 | one chunk keeps the output on track towards the decode of the whole stream, within the same bound |
| Limits.WriteAll | packages/reporter/src/limits.ts:96-119 | so does the loop over the chunks with its early stop |
| Limits.JoinStdio | packages/reporter/src/limits.ts:72-123 | for every list of chunks, well-formed or not, and every `max`: null for no input, no room or no text, else the longest well-formed beginning, within `max`, of the decode of the slices, in spite of stopping early; what is truncated is a text of at most `max` units plus one slice plus three |
| Limits.IntactCorrect | packages/reporter/src/limits.ts:103-117 | sliced and one-piece decode are equally long and agree up to the first split pair, where they differ |
| Limits.JoinFaithfulIff | packages/reporter/src/limits.ts:72-123 | `joinStdio` equals encode, concatenate, decode once, truncate if and only if no slice boundary splits a pair among the first `max` units |
| Limits.JoinFaithful | packages/reporter/src/limits.ts:72-123 | so it does for all byte chunks and all strings that are well-formed or have no high surrogate directly before a pair |
| Limits.JoinUnfaithful | packages/reporter/src/limits.ts:113-115 | a concrete string on which it does not: a lone high surrogate at the slice edge, then a pair |
| Glob.CompileLossless | apps/dashboard/src/lib/codeowners.ts:209-240 | compiled tokens print back to the pattern, so distinct patterns never share tokens |
| Glob.CompileCorrect | apps/dashboard/src/lib/codeowners.ts:179-184 | the token list has exactly the language that the pattern's wildcards describe |
| Glob.InLanguageSplits | apps/dashboard/src/lib/codeowners.ts:242-247 | a text of two token lists in a row splits into a text of each |
| Glob.InLanguageJoins | apps/dashboard/src/lib/codeowners.ts:242-247 | and two such texts join |
| Glob.ReachStep | apps/dashboard/src/lib/codeowners.ts:256-297 | for each kind of token, the recurrence of a row cell is the declarative reachability from the row before |
| Glob.NextRow | apps/dashboard/src/lib/codeowners.ts:253-300 | a row filled by reachability is the match table of the tokens so far |
| Glob.FillRow | apps/dashboard/src/lib/codeowners.ts:254-297 | each in-place loop fills its row with reachability, in at most one write per cell |
| Glob.MatchTokens | apps/dashboard/src/lib/codeowners.ts:248-303 | the result is membership in the tokens' language, with at most tokens times (text + 1) cell updates |
| Glob.Tokenize | apps/dashboard/src/lib/codeowners.ts:213-235 | the scanning loop computes the compiled token list |
| Glob.RememberAllFaithful | apps/dashboard/src/lib/codeowners.ts:203-207 | over any sequence of requests the memo holds at most 2000 entries, all correct, the last request among them |
| Glob.GlobCache.CompileGlob | apps/dashboard/src/lib/codeowners.ts:209-240 | whatever the memo holds, the result is the uncached one, and the memo stays faithful |
| Glob.GlobCache.GlobMatch | apps/dashboard/src/lib/codeowners.ts:191-193 | a match is membership in the pattern's declarative language |
| Codeowners.IndexOfSlash | apps/dashboard/src/lib/codeowners.ts:171-174 | the next slash, or none |
| Codeowners.MatchAnchored | apps/dashboard/src/lib/codeowners.ts:151-177 | true exactly when the whole path, or unless the pattern is one-level an ancestor directory, is in the pattern's language |
| Codeowners.MatchPattern | apps/dashboard/src/lib/codeowners.ts:116-144 | true exactly when whole segments of the path fit the pattern where it may stand |
| Codeowners.MatchFloating | apps/dashboard/src/lib/codeowners.ts:134-143 | a bare name fits the path exactly when it fits from some segment on, found by scanning suffixes |
| Codeowners.FloatingAt | apps/dashboard/src/lib/codeowners.ts:134-143 | fitting a suffix from its root is fitting the path from that segment on |
| Codeowners.SubtreeOwned | apps/dashboard/src/lib/codeowners.ts:156-177 | on the pattern's text: whatever a pattern owns, it owns everything below it, if the text ends in a slash, is `/*`, or does not end in `/*` |
| Codeowners.NothingOwned | apps/dashboard/src/lib/codeowners.ts:120-122 | an empty text and a lone slash own nothing |
| Codeowners.RootedOwned | apps/dashboard/src/lib/codeowners.ts:151-177 | what a rooted text owns: with a slash at its end, the paths in the language of what is between and all below them; without, the same unless that ends in `/*`, when it is the language alone |
| Codeowners.InnerSlashRoots | apps/dashboard/src/lib/codeowners.ts:124-132 | a slash inside a text roots it: it owns what the same text behind a slash owns |
| Codeowners.SameSlashes | apps/dashboard/src/lib/codeowners.ts:179-184 | without `**`, a matched text has exactly the pattern's slashes |
| Codeowners.OneLevelOwned | apps/dashboard/src/lib/codeowners.ts:156-162 | and a text that ends in `/*` with more before it, without `**`, owns paths of its own depth only and nothing below them |
| Codeowners.BareMeansAnywhere | apps/dashboard/src/lib/codeowners.ts:116-177 | a text without a slash but perhaps the last owns a path exactly when the same text behind `**/` does, though the two take different routes |
| Codeowners.NormalizeRooted | apps/dashboard/src/lib/codeowners.ts:94-100 | for every path, one leading slash of either kind makes no difference, a leading `./` drops one slash more, and any other path only has its slashes turned |
| Codeowners.DecideConcat | apps/dashboard/src/lib/codeowners.ts:70-73 | the deciding rule of a concatenation is found by continuing the scan |
| Codeowners.LaterRulesWin | apps/dashboard/src/lib/codeowners.ts:70-73 | owners come from the later rules if any of them matches, from the earlier ones otherwise |
| Codeowners.LastRuleDecides | apps/dashboard/src/lib/codeowners.ts:79-92 | the owners are those of the last rule that owns the path, even if it names none, and nobody if no rule does |
| Codeowners.MatchOwners | apps/dashboard/src/lib/codeowners.ts:79-92 | the reverse scan equals the forward scan in which later matches override, unset rules included |
| CodeownersFile.TrimmedWords | apps/dashboard/src/lib/codeowners.ts:59-61 | trimming a line and splitting it at white space finds exactly its longest stretches without white space |
| CodeownersFile.SpaceSeparates | apps/dashboard/src/lib/codeowners.ts:61-61 | white space, blanks and tabs included, separates words wherever it stands |
| CodeownersFile.LineSays | apps/dashboard/src/lib/codeowners.ts:59-66 | however a line is indented: nothing if it is blank or begins with `#`, nothing if its first word is longer than 256, and else its words as pattern and owners |
| CodeownersFile.ParseCodeowners | apps/dashboard/src/lib/codeowners.ts:52-68 | from the text of a file: the first 1000 rules in order, comments, blank lines and patterns over 256 units skipped |
| CodeownersFile.FileReadsBack | apps/dashboard/src/lib/codeowners.ts:47-51 | any rules written one a line, with either line end, read back as they were, unset rules included |
| Csv.ToCsv | apps/dashboard/src/lib/csv.ts:83-92 | the loop prints the document of the header and all rows |
| Csv.DocumentConcat | apps/dashboard/src/lib/csv.ts:75-82 | pages printed one after another make the document of all their rows |
| Csv.GuardIdempotent | apps/dashboard/src/lib/csv.ts:57-61 | guarding twice is guarding once, and a guarded text begins with no formula trigger |
| Csv.GuardMerges | apps/dashboard/src/lib/csv.ts:57-61 | guarding merges two texts exactly when one is the other with a quote mark before its trigger |
| Csv.ReadEscaped | apps/dashboard/src/lib/csv.ts:54-68 | reading an escaped field recovers the shown text, quoted or bare |
| Csv.QuotedOnlyIfNeeded | apps/dashboard/src/lib/csv.ts:64-67 | a field is printed without quotes exactly when it has no quote, comma, CR or LF |
| Csv.ReadRow | apps/dashboard/src/lib/csv.ts:70-73 | reading a row and its terminator recovers its cells and leaves the reader at the next record |
| Csv.ParsePrinted | apps/dashboard/src/lib/csv.ts:75-92 | parsing any printed document by RFC 4180 section 2 recovers every cell as shown |
| Csv.CellReadsBack | apps/dashboard/src/lib/csv.ts:54-92 | what each cell reads back as, by its type: nothing for null, the digits of a number as they are, true or false, and a string itself or behind a quote mark if it begins with a trigger |
| Csv.NoFormulas | apps/dashboard/src/lib/csv.ts:28-36 | no string cell of a printed document reads back with a formula trigger in front |
| Decimal.IntRoundTrip | apps/dashboard/src/lib/runs/results-page.ts:63-76 | the decimal text of an integer reads back as that integer |
| Cursor.Base64RoundTrip | apps/dashboard/src/lib/keyset-cursor.ts:20-47 | any bytes come back from base64, with padding, through the forgiving decoder |
| Cursor.Utf8RoundTrip | apps/dashboard/src/lib/keyset-cursor.ts:20-47 | text comes back through the fatal decoder but for one byte order mark in front, so it comes back whole if and only if it is empty or begins with none |
| Cursor.SplitSegments | apps/dashboard/src/lib/keyset-cursor.ts:80-91 | the loop over separators computes the split: so many segments, the last being all the rest, or nothing |
| Cursor.SplitJoined | apps/dashboard/src/lib/keyset-cursor.ts:54-68 | joined segments split back into themselves unless one before the last is empty |
| Cursor.KeysetRoundTrip | apps/dashboard/src/lib/keyset-cursor.ts:49-91 | for any number of segments, colons only in the last: they come back, but for a byte order mark in front of the first, unless one before the last is then empty or nothing was encoded |
| Export.CursorRoundTrip | apps/dashboard/src/lib/runs/results-page.ts:57-76 | a cursor decodes to the key it encodes, colons in the id included, unless the id is empty, which restarts the walk |
| Export.CursorMeans | apps/dashboard/src/lib/runs/results-page.ts:57-76 | any cursor of two segments is used exactly if the first is a number and the second is not empty |
| Export.ResolveExportCap | apps/dashboard/src/lib/export.ts:46-49 | any configured cap becomes one between 1 and 200000: rounded down within that range, 1 below it, 200000 above it or if it is not finite |
| Export.Order | apps/dashboard/src/lib/export.ts:126-132 | the page condition is a strict total order on keys |
| Export.Request.Matching | apps/dashboard/src/lib/export.ts:119-155 | a query yields exactly the rows of the tenant's team and project that pass the filters and lie past the cursor by creation time and then id, newest first |
| Export.DescendingUnique | apps/dashboard/src/lib/export.ts:154-154 | a descending list is determined by its elements |
| Export.PageIsFront | apps/dashboard/src/lib/export.ts:142-164 | a page is the front of what matches, of at most the clamped limit, and has a cursor to its last row exactly when something is left |
| Export.PageDescends | apps/dashboard/src/lib/export.ts:142-164 | page rows descend, lie past the cursor, belong to the tenant, and the next cursor decodes to the last of them |
| Export.CellsMatchHeader | apps/dashboard/src/lib/export.ts:168-215 | header and row mapper do not drift: at each position the header has a column's name and the row that column's field |
| Export.AppendPage | apps/dashboard/src/lib/export.ts:300-303 | the loop over a page extends the document by the page's rows |
| Export.BuildRunsCsv | apps/dashboard/src/lib/export.ts:276-309 | body, row count and truncation flag are those of the walk, and it terminates |
| Export.WalkDescends | apps/dashboard/src/lib/export.ts:287-306 | while the table changes between loads, emitted keys strictly descend, within the cap, which a truncated walk reaches, in at most ceil(cap/200)+1 loads |
| Export.WalkAdmitted | apps/dashboard/src/lib/export.ts:22-26 | every emitted run was in the table at one of the loads, of the request's team and project, and through the filters |
| Export.NoRunTwice | apps/dashboard/src/lib/export.ts:111-134 | if runs keep their creation time, no run is exported twice, whatever the table does |
| Export.WalkComplete | apps/dashboard/src/lib/export.ts:287-306 | a run that was there and admitted at every load is emitted, ties on the creation time included, wherever the walk got to |
| Export.ExportComplete | apps/dashboard/src/lib/export.ts:276-309 | so an export that is not flagged as truncated holds every such run, and one that is flagged holds exactly the cap |
| Export.MatchingBelow | apps/dashboard/src/lib/export.ts:126-132 | what matches past a row is what follows it in the order |
| Export.WalkStable | apps/dashboard/src/lib/export.ts:287-306 | on an unchanging table any stretch of the walk is a prefix of the matches |
| Export.ExportStable | apps/dashboard/src/lib/export.ts:276-309 | on an unchanging table: the newest `cap` runs in order, flagged exactly when there are more, in at most ceil(cap/200)+1 loads |
| Export.ExportReadsBack | apps/dashboard/src/lib/export.ts:276-309 | every export parses as the header and one record for each emitted run |
| Export.ExportDescribesRuns | apps/dashboard/src/lib/export.ts:172-309 | read back, every export has the header's names and, for each emitted run in turn, its own eighteen fields: texts as shown, numbers as numbers, nothing for what is absent |
| Accumulator.TestAccumulator.RecordAttempt | packages/reporter/src/accumulator.ts:44-54 | the buffer and the returned entry are those of the specification, Map insertion order included |
| Accumulator.TestAccumulator.DrainPending | packages/reporter/src/accumulator.ts:61-65 | every buffered entry comes out in insertion order and the map is empty |
| Accumulator.SurfacesExactly | packages/reporter/src/accumulator.ts:23-54 | after any records, an attempt surfaces its test exactly if it passed, was skipped or interrupted or was the last one configured, with everything pending for it, and else joins it |
| Accumulator.EntriesAreStretches | packages/reporter/src/accumulator.ts:23-35 | over any records each test's attempts are cut exactly after its done attempts: finished stretches are the emitted entries, the rest is pending |
| Accumulator.StretchesComplete | packages/reporter/src/accumulator.ts:9-21 | the stretches lose no attempt and the rest holds no done attempt |
| Accumulator.NothingLost | packages/reporter/src/accumulator.ts:44-65 | emitted and drained results of a test are exactly its recorded attempts in order, and nothing drained ends with a done attempt |
| Accumulator.OneEntryForRetries | packages/reporter/src/accumulator.ts:36-54 | attempts made as retries are come out as one entry with all of them, as soon as one is final, and are pending until then |
| Batcher.Batcher.EnqueueItem | packages/reporter/src/batcher.ts:29-41 | takes the machine's enqueue step and keeps its invariant |
| Batcher.Batcher.TriggerFlush | packages/reporter/src/batcher.ts:43-61 | disarms the timer and chains the whole queue as one batch, if there is any |
| Batcher.Batcher.Drain | packages/reporter/src/batcher.ts:63-67 | takes the machine's drain step and keeps its invariant |
| Batcher.Batcher.StartFlush | packages/reporter/src/batcher.ts:51-53 | only the oldest chained batch starts, only when none is active, with 1 to `batchSize` items |
| Batcher.Batcher.SettleFlush | packages/reporter/src/batcher.ts:52-59 | the active batch is over, delivered or handed to `onFailure` |
| Batcher.StepKeeps | packages/reporter/src/batcher.ts:29-61 | every step keeps batch sizes and the timer rule, only appends batches, and neither loses nor reorders items |
| Batcher.NothingLostOrReordered | packages/reporter/src/batcher.ts:1-6 | in every interleaving, settled, active and chained batches and the queue end to end are the enqueued items in order, batches have 1 to `batchSize` items, and the timer is set exactly when the queue is not empty |
| Batcher.CutExactly | packages/reporter/src/batcher.ts:29-50 | in every interleaving a batch is cut by the enqueue that fills it and by a timer or a drain that finds anything waiting, of exactly what was waiting, and nothing else touches the queue |
| Batcher.ChainSettles | packages/reporter/src/batcher.ts:51-60 | the chained flushes run one after another in the order of their batches, and each settles its own batch with its own outcome |
| Batcher.DrainDelivers | packages/reporter/src/batcher.ts:63-67 | once the flushes that a drain awaits are settled, everything enqueued before it is settled, in order |
| Semaphore.Semaphore.AcquireSlot | packages/reporter/src/artifact-uploader.ts:84-90 | takes a slot or queues the task, as the machine does |
| Semaphore.Semaphore.ReleaseSlot | packages/reporter/src/artifact-uploader.ts:92-97 | hands the slot to the first waiter or frees it, as the machine does |
| Semaphore.StepKeeps | packages/reporter/src/artifact-uploader.ts:78-98 | the count is the number of holders and within the limit, and somebody waits only when every slot is taken |
| Semaphore.WaiterMovesUp | packages/reporter/src/artifact-uploader.ts:72-77 | a waiter moves up by one at each release and at nothing else |
| Semaphore.WaiterGranted | packages/reporter/src/artifact-uploader.ts:72-77 | the waiter at position k gets its slot at the (k+1)-th release and not before |
| Semaphore.NoSlotLeaked | packages/reporter/src/artifact-uploader.ts:84-97 | holders and waiters are acquisitions less releases |
| PutPool.PutsBounded | packages/reporter/src/artifact-uploader.ts:72-77 | across all overlapping uploads never more PUTs are in flight than the limit |
| PutPool.NoSlotLeaked | packages/reporter/src/artifact-uploader.ts:187-202 | whenever all started tasks have ended, however their PUTs ended, no slot is held and nobody waits |
| PutPool.NoDeadlock | packages/reporter/src/artifact-uploader.ts:187-202 | with at least one slot, some PUT is in flight until every started task has ended |
| PutPool.EveryTaskEnds | packages/reporter/src/artifact-uploader.ts:187-202 | each end of a PUT in flight ends one task for good, and after as many ends as tasks all have ended |
| PutPool.ResultsExact | packages/reporter/src/artifact-uploader.ts:182-205 | in every interleaving a call's two counters are exactly its tasks by outcome, and add up to all of them at the end |
| PutPool.PoolFollowsEvents | packages/reporter/src/artifact-uploader.ts:182-205 | which tasks are started, for which call, and what each call counts are what the events say |
| Uploads.GroupKeyIdentifies | packages/reporter/src/index.ts:158-158 | the textual group key identifies the attempt and the snapshot name, whatever characters the name has |
| Uploads.CountRoles | packages/reporter/src/index.ts:155-165 | the map of sets holds exactly the roles that each group plays |
| Uploads.PromoteSnapshotTriples | packages/reporter/src/index.ts:152-182 | position by position, an image becomes visual exactly when its group has all three roles, and else a plain screenshot |
| Uploads.PromotedExactly | packages/reporter/src/index.ts:152-182 | an image with a name and a role becomes visual exactly if images of its attempt and name play all three roles, and else a screenshot without role and name; nothing else of it changes, and nothing of any other artifact |
| Uploads.PromoteIdempotent | packages/reporter/src/index.ts:144-151 | a promoted list is left alone by promoting again |
| Uploads.CorrelateUploads | packages/reporter/src/artifact-uploader.ts:42-70 | the two arrays hold, position by position, each known entry's artifacts in batch order, each registered under that entry's own row |
| Uploads.LookupMeans | packages/reporter/src/artifact-uploader.ts:46-54 | the row of a key is the one that its last entry in the mapping names, unless that is empty |
| Uploads.LookupNothing | packages/reporter/src/artifact-uploader.ts:53-54 | a key that the mapping does not have has no row |
| Uploads.CarriesOwnRow | packages/reporter/src/artifact-uploader.ts:15-25 | on the two arrays: artifact j of entry k stands at its own place in both, described field by field, under the row id that the last mapping of that entry's key names |
| Uploads.EveryPlaceHasAnOrigin | packages/reporter/src/artifact-uploader.ts:15-25 | every place belongs to one artifact of one known entry, so nothing else is registered |
| Uploads.UploadableExactly | packages/reporter/src/artifact-uploader.ts:27-37 | a file is offered exactly when the server knows the row of an entry it was collected for |
| Uploads.DropOversized | packages/reporter/src/artifact-uploader.ts:156-170 | both arrays keep exactly the items within the limit, still paired as registered, and the rest is counted |
| Uploads.KeptExactly | packages/reporter/src/artifact-uploader.ts:156-168 | exactly the files within the limit are kept, each at its place in the old order |
| Uploads.Upload | packages/reporter/src/artifact-uploader.ts:127-206 | for any outcome of the calls: `ok` counts exactly the PUTs that succeed, `failed` the PUTs that do not plus what was dropped, or everything if no call was accepted; and they make up the registrations if and only if no call was accepted without a URL for each |
| Uploads.FileToOwnUrl | packages/reporter/src/artifact-uploader.ts:182-194 | the file of item i is sent to URL i exactly if there is one, in order, and nothing else is sent |
| Uploads.PutAll | packages/reporter/src/artifact-uploader.ts:182-205 | one PUT for each URL that has a file, counted as done or failed by its own outcome |
| Reporter.WrightfulReporter.constructor | packages/reporter/src/index.ts:423-437 | the pipeline starts empty with a batch size between 1 and 5000, whatever was asked for |
| Reporter.WrightfulReporter.OnTestEnd | packages/reporter/src/index.ts:556-560 | records the attempt and hands a done entry to a background task |
| Reporter.WrightfulReporter.EnqueueDone | packages/reporter/src/index.ts:585-614 | the entry moves into the batcher, or is counted as failed |
| Reporter.WrightfulReporter.Flush | packages/reporter/src/index.ts:440-473 | the batch is counted as streamed or failed, and an AuthError disables streaming |
| Reporter.WrightfulReporter.OnEnd | packages/reporter/src/index.ts:769-774 | whatever is still buffered is handed to background tasks |
| Reporter.WrightfulReporter.StartDrain | packages/reporter/src/index.ts:785-793 | the drain is started whether or not the enqueue tasks have settled |
| Reporter.StepKeeps | packages/reporter/src/index.ts:437-474 | every step keeps each surfaced entry in exactly one place and both counters equal to what the settled flushes and dropped entries say |
| Reporter.EveryTestAccounted | packages/reporter/src/index.ts:437-474 | at every step, streamed, failed, queued, chained, active and pending-enqueue add up to the surfaced tests |
| Reporter.CleanEndLosesNothing | packages/reporter/src/index.ts:776-800 | at a clean end streamed plus failed is the number of surfaced tests, and each is in one settled flush or was dropped |
| Reporter.CleanEndReachable | packages/reporter/src/index.ts:755-800 | from every reachable state the suite can be brought to such a clean end once the open has settled, whatever the outcome of the appends that are left |
| Reporter.EmittedAndDrained | packages/reporter/src/index.ts:769-774 | entries emitted and then drained carry each test's recorded attempts, all of them in order |
| Reporter.EveryAttemptSurfaces | packages/reporter/src/index.ts:769-774 | in every run of the pipeline, after the suite has ended the surfaced entries of a test carry all its attempts in order |
| Reporter.StreamingStays | packages/reporter/src/index.ts:442-466 | once streaming is disabled, or if the run never opened, `streamed` never changes again |
| Reporter.PipelineFollowsEvents | packages/reporter/src/index.ts:556-614 | what was recorded, whether the suite ended, how the open went, what was enqueued and in which order, and what was dropped, from the events alone |
| Reporter.CountersExact | packages/reporter/src/index.ts:437-474 | both counters from the outcomes alone: a settled batch counts as streamed exactly if the run was opened, its own append succeeded and none before it met an AuthError |
| Reporter.NextFlush | packages/reporter/src/index.ts:440-473 | what the end of any flush adds: its batch to `streamed` if the run is open, no AuthError came before and the append succeeds, and to `streamFailed` otherwise |
| Reporter.AuthErrorIsFinal | packages/reporter/src/index.ts:453-473 | whatever led there and whatever follows, after a flush that ends with an AuthError `streamed` stays as it was |
| Lease.ApplyKeeps | apps/dashboard/src/lib/github-pr-comment.ts:273-295 | a claim that lands within the time to live of its clock reading, and any holder's end, keep tokens distinct, each in the column or expired |
| Lease.SupersededStays | apps/dashboard/src/lib/github-pr-comment.ts:284-291 | a token that was taken over never comes back into the column while claims are that prompt |
| Lease.Exclusive | apps/dashboard/src/lib/github-pr-comment.ts:21-23 | holders within the time to live of their readings exclude each other, and the column refuses further claims |
| Lease.HoldersExclude | apps/dashboard/src/lib/github-pr-comment.ts:21-23 | so in every timely run two processes never hold the column at once |
| Lease.ExclusionLimit | apps/dashboard/src/lib/github-pr-comment.ts:21-23 | a limit on how long holders take keeps them apart if and only if it is at most the time to live |
| CheckRun.RunRow.ClaimCheckRunSlot | apps/dashboard/src/lib/github-checks.ts:88-108 | claims exactly when the row has no id and no unexpired claim |
| CheckRun.RunRow.Release | apps/dashboard/src/lib/github-checks.ts:139-144 | clears the claim only if it is still the caller's |
| CheckRun.RunRow.Persist | apps/dashboard/src/lib/github-checks.ts:145-156 | writes the id and clears the claim, for a holder only while the claim is its own, and writes nothing when the id is known |
| CheckRun.StepKeeps | apps/dashboard/src/lib/github-surface-post.ts:69-103 | every step of any process, however stalled, keeps what each phase knows, clears the claim once there is an id, and counts claimed writes |
| CheckRun.RunRefines | apps/dashboard/src/lib/github-surface-post.ts:69-103 | every run of the protocol is a legal run of the lease, with the clock reading and the claim that writes it as separate steps |
| CheckRun.AtMostOneClaimedPersist | apps/dashboard/src/lib/github-checks.ts:74-87 | in every run, with any stalls and crashes, at most one claimed write of an id takes effect, one exactly when the row has an id |
| CheckRun.NoClaimAfterId | apps/dashboard/src/lib/github-checks.ts:93-106 | once the row has an id it keeps one, and nobody obtains a claim any more |
| CheckRun.SupersededIsHarmless | apps/dashboard/src/lib/github-checks.ts:139-156 | while claims are prompt, once a holder's claim was taken over its write and its release change nothing at any later time |
| CheckRun.LateClaimRevives | apps/dashboard/src/lib/github-surface-post.ts:76-84 | from every fresh claimable row, a claim that lands after the time to live lets a superseded holder's write take effect |
| CheckRun.HarmlessDelayIff | apps/dashboard/src/lib/github-surface-post.ts:76-84 | a bound on the delay between reading and claim keeps superseded holders powerless if and only if it is at most the time to live |
| CheckRun.HoldersExclude | apps/dashboard/src/lib/github-checks.ts:13-19 | if holders finish in time, two never hold claims at once |
| CheckRun.AtMostOneCheckRun | apps/dashboard/src/lib/github-surface-post.ts:69-103 | if moreover whatever lands is recorded, at most one check run is created; harmless crashes and failures are allowed |
| CheckRun.RecordingIsExact | apps/dashboard/src/lib/github-surface-post.ts:85-102 | in a timely run everything that landed was recorded if and only if no timely, recording continuation can make a second check run |
| CheckRun.LateHolderDuplicates | apps/dashboard/src/lib/github-checks.ts:13-19 | from every state with a POST on its way under an expired claim, a successor's POST and then its own make two more check runs, with nothing lost |
| CheckRun.SafeLimitIff | apps/dashboard/src/lib/github-checks.ts:13-19 | a limit on holders guarantees at most one check run if and only if it is at most the time to live |
| CheckRun.CrashDuplicates | apps/dashboard/src/lib/github-surface-post.ts:85-102 | from every fresh claimable row, a crash after the POST ends in two check runs |
| CheckRunIds.IdsComeFromGithub | apps/dashboard/src/lib/github-surface-post.ts:86-97 | every id in the row, or on its way into it, is one with which GitHub answered a request of the run |
| CheckRunIds.PatchesIdOfRow | apps/dashboard/src/lib/github-surface-post.ts:76-88 | the id that a process sends its PATCH to is one that the row has had |
| CheckRunIds.KnownIdIsPatched | apps/dashboard/src/lib/github-surface-post.ts:76-88 | a process that finds an id sends a PATCH to that id, without a claim, whatever others do |
| CheckRunIds.WinnerPosts | apps/dashboard/src/lib/github-surface-post.ts:78-88 | a process whose claim is granted posts, holding the second that it read |
| CheckRunIds.LoserFollows | apps/dashboard/src/lib/github-surface-post.ts:79-83 | a process whose claim is refused patches the id that is there when it reads again, or gives up if none is |
| CheckRunIds.AnswerIsRecorded | apps/dashboard/src/lib/github-checks.ts:145-156 | whatever others do in between, a holder's answer leaves its own id in the row if its claim is still there and else nothing, and a PATCH that is answered with the id it went to leaves the row alone |
| CheckRunIds.FailureReleases | apps/dashboard/src/lib/github-surface-post.ts:86-102 | after a failure, or an answer without an id, a holder clears its own claim and nobody else's |
| CheckRunIds.GivenUpMayLand | apps/dashboard/src/lib/github-surface-post.ts:86-94 | a POST given up before it landed may make a check run later; a PATCH, or one that landed, not |
| CheckRunIds.FirstIdStays | apps/dashboard/src/lib/github-checks.ts:145-156 | as long as GitHub echoes the ids it is sent, the first id the row gets is the one it keeps, whatever stalls or crashes |
| CommentMutex.CommentRow.ClaimPrCommentSlot | apps/dashboard/src/lib/github-pr-comment.ts:273-295 | claims exactly when no unexpired claim is there, comment or not |
| CommentMutex.CommentRow.Release | apps/dashboard/src/lib/github-pr-comment.ts:517-527 | clears the claim only if it is still the caller's |
| CommentMutex.CommentRow.Persist | apps/dashboard/src/lib/github-pr-comment.ts:528-544 | records comment and run and clears the claim, only while the claim is the caller's |
| CommentMutex.RunRefines | apps/dashboard/src/lib/github-surface-post.ts:151-199 | every run of the protocol is a legal run of the lease, with the clock reading and the claim that writes it as separate steps |
| CommentMutex.InvKept | apps/dashboard/src/lib/github-surface-post.ts:151-199 | while claims are prompt, every step keeps the lease, and the guard stands for whoever writes under the current claim |
| CommentMutex.SupersededIsHarmless | apps/dashboard/src/lib/github-pr-comment.ts:517-544 | while claims are prompt, once a writer's claim was taken over its write and its release change nothing at any later time |
| CommentMutex.RecordedRunNeverAges | apps/dashboard/src/lib/github-surface-post.ts:139-149 | while claims are prompt, whatever stalls or crashes, the recorded run is never replaced by an older one |
| CommentMutex.LateClaimReverses | apps/dashboard/src/lib/github-surface-post.ts:171-176 | from every quiet new comment, a claim that lands after the time to live revives a superseded token and the recorded run goes back to the older one |
| CommentMutex.SafeDelayIff | apps/dashboard/src/lib/github-surface-post.ts:171-176 | a bound on the delay between reading and claim keeps the recorded run from ageing if and only if it is at most the time to live |
| CommentMutex.HoldersExclude | apps/dashboard/src/lib/github-pr-comment.ts:21-23 | if writers finish within the time to live, two never hold the mutex at once |
| CommentMutex.BodiesLandInOrder | apps/dashboard/src/lib/github-surface-post.ts:139-149 | from any orderly state, if writers are in time, newer bodies are recorded and only harmless requests straggle in, bodies keep landing in order |
| CommentMutex.NeverOlderAtGithub | apps/dashboard/src/lib/github-surface-post.ts:139-149 | from a quiet start each body at GitHub is then of a newer run than those before it, or refreshes the same run on a genuine recompletion |
| CommentMutex.NobodyExposed | apps/dashboard/src/lib/github-surface-post.ts:139-149 | in such a run no request on its way is older than anything GitHub shows |
| CommentMutex.RecordingIsExact | apps/dashboard/src/lib/github-surface-post.ts:139-149 | in a timely run nothing newer than the record was lost and nothing harmful straggled in, if and only if at no point of it a timely continuation without such faults can break the order |
| CommentMutex.OlderReverses | apps/dashboard/src/lib/github-surface-post.ts:183-192 | from every state with a request on its way that is older than the newest body, its landing breaks the order |
| CommentMutex.StragglerReverses | apps/dashboard/src/lib/github-surface-post.ts:183-187 | so does the late landing of an older request that nobody waits for |
| CommentMutex.LateWriterReverses | apps/dashboard/src/lib/github-pr-comment.ts:21-23 | from every state with a request on its way under an expired claim, a newer run's writer and then its own landing reverse the two, with nothing lost |
| CommentMutex.SafeLimitIff | apps/dashboard/src/lib/github-pr-comment.ts:21-23 | a limit on writers keeps GitHub in order if and only if it is at most the time to live |
| CommentMutex.UnrecordedIsOverwritten | apps/dashboard/src/lib/github-surface-post.ts:180-192 | from every state whose newest body is unrecorded and whose row is free, any older run that the guard lets through overwrites it |
| CommentMutex.LostResponseReverses | apps/dashboard/src/lib/github-surface-post.ts:180-187 | one lost response on a new comment, without any crash or expiry, is enough to reverse two runs |
| CommentWriters.FirstReadKept | apps/dashboard/src/lib/github-surface-post.ts:158-164 | what a writer's first read finds recorded stays with it over every retry, whatever happens in between |
| CommentWriters.RefreshExactly | apps/dashboard/src/lib/github-surface-post.ts:144-147 | its body, on time or late, is a refresh exactly if its run was recorded at that first read |
| CommentWriters.FirstReadDecides | apps/dashboard/src/lib/github-surface-post.ts:163-170 | at the first read a writer gives way to a newer run only |
| CommentWriters.LaterReadsDecide | apps/dashboard/src/lib/github-surface-post.ts:163-185 | later it also gives way to its own run unless that was recorded at its first read, before the claim or under it, where it then releases; otherwise it writes to the comment recorded then |
| CommentWriters.NoDuplicateWrite | apps/dashboard/src/lib/github-surface-post.ts:144-147 | while claims are prompt, whoever writes under the claim in the column is newer than the record or refreshes a run that was recorded before it began: the loser of a concurrent write never writes |
| CommentWriters.UndisturbedWriter | apps/dashboard/src/lib/github-surface-post.ts:151-196 | left alone, a writer's body lands exactly unless a newer run is recorded, its own included as a refresh |
| CommentWriters.FourAttempts | apps/dashboard/src/lib/github-pr-comment.ts:29-29 | a refused writer tries again with its first read kept, and gives up at the fourth refusal |
| CommentWriters.AnswerIsRecorded | apps/dashboard/src/lib/github-pr-comment.ts:528-544 | whatever others do in between, an answer leaves its comment and the writer's run in the row if the writer's claim is still there, and else nothing |
| CommentWriters.FailureReleases | apps/dashboard/src/lib/github-surface-post.ts:183-194 | after a failure, or an answer without an id, a writer clears its own claim and nobody else's |
| CommentWriters.GivenUpMayLand | apps/dashboard/src/lib/github-surface-post.ts:183-189 | a request given up before it landed may land later, one that has landed does not land again |
| CommentWriters.RecordComesFromAnswer | apps/dashboard/src/lib/github-pr-comment.ts:528-544 | comment and run change only together, to what GitHub answered and to the run whose writer it answered |

## Left out

- Network, disk and clock: outcomes are parameters or events. Each database UPDATE is one atomic step, and the clock never goes back.
- Csv.ParsePrinted: a number carries the text that `String(value)` gives for it; JavaScript's number formatting is not modelled.
- Export.CursorRoundTrip: only signed decimal digits are read as numbers; `Number` reads more notations, which no cursor of this codec contains.
- Cursor.Utf8RoundTrip: text here, as in the CSV and export modules, has no lone surrogates; the database cannot hold any.
- Export.ResolveExportCap: `None` stands for the non-finite values.
- Export.BuildRunsCsv: the order of ids is that of their characters; a database collation that orders ids differently is not modelled.
- Limits.JoinStdio: `max` is an integer; of Node's decoder only the stated promises are relied on, and that Node keeps them is not proved.
- Glob.GlobCache.CompileGlob: the memo returns token lists by value; that callers share one cached array is not modelled (nobody writes to it).
- Accumulator.TestAccumulator.RecordAttempt: an entry is a value; the `results` array that the code grows in place is not shared with anybody before it is returned.
- Batcher.Batcher.SettleFlush: `onFailure` does not throw; if it did, the promise chain would reject and later flushes would not start.
- Uploads.Upload: PUTs are made in list order, while the code starts them together; the counts do not depend on the order, as `PutPool.ResultsExact` proves for any interleaving.
- Reporter.WrightfulReporter.StartDrain: the shutdown budget is the choice of when the drain starts; signal handlers and `/complete` are left out.
- Reporter.WrightfulReporter.EnqueueDone: payload building, quarantine and artifact collection are one outcome, success or failure; starting artifact uploads after a flush does not fail.
- CheckRun.RunRow.ClaimCheckRunSlot: the row is the run's own; the UPDATE's extra condition on the project never selects another row.
- CheckRun.RunRefines: a release or a write of the row that fails leaves the row as it is, which is the same as a crash before it.
- CommentMutex.NeverOlderAtGithub: a request lands at most once; looking for a lost comment by its marker decides only which comment is written. Run ids are compared as text of Unicode scalars, which for ULIDs is the order of JavaScript.
- Text of check runs and comments, run diffs, the per-run test export, React pages, ingest, retention, monitors and authentication are not part of this model.
- Hashing and signing, error-signature normalisation and CI detection would add only one-branch facts.
