# Verified models of the credential console and the refresh center

This project models the parts of the repository in which state, failures and concurrency
interact, and proves what they promise over every input, history or run. The command
`dafny verify dfyconfig.toml` (Dafny 4.11) covers all of it; it needs nothing outside this
directory.

| module | what it models |
|---|---|
| `RefreshProtocol` | refresh cycles, seeds, the operation lock, the provider and crashes, as a transition system |
| `RefreshCycle` | what a cycle and a seed do to the durable cells, and when a home needs a new login |
| `RefreshMain` | the refresh cycle and the seed as programs whose statements are steps of that system |
| `HomeLock` | the link, stat and unlink lock with recovery of stale owners, as interleaved steps |
| `HookArchive`, `ArchiveInvariants` | conversation events, their inbox, rounds, receipts and summaries, and what every transaction keeps |
| `RecordedEvents`, `RecordedReceipts`, `ArchiveSummaries` | what one event does to the tables, in terms of the event; what receipts count; what summaries say |
| `PromptPosition`, `PromptInArchive` | delivery order and redelivery of one prompt's events |
| `MetricsArchive` | the same archive as an object that updates its tables in place inside transactions |
| `KeysetPaging`, `ArchiveSearch` | pagination, round search and the two ways of searching sessions |
| `MetricsQueue` | the bounded, retrying metrics queue |
| `Incremental`, `EventStream` | decoders that read piece by piece; the Bedrock event-stream parser |
| `Utf8`, `HookText` | UTF-8 and UTF-16; cutting text to a byte limit |
| `CodexUsage`, `CodexReport`, `CodexParser` | what the usage parser makes of a whole response, what it reports, count by count, and the parser that is pushed pieces of it |
| `SseAgreement` | the event-stream interpretation of the WHATWG HTML Standard, and how far the parser agrees |
| `ResponseContent` | the assembler of a streamed reply |
| `QuotaExhaustion`, `Failover`, `FailoverViews` | remembered refusals, the choice of a backup, and the agreement of that choice with the history of refusals |
| `ProxyAttempts` | the sends of one request |
| `Enrollment` | the token dispenser's registry and its queue |

## How to read the models

**Refresh.** A store call is one durable step that may also throw, before or after it took
effect; a process may crash between any two steps; a request may be served long after its
sender gave up. Fingerprints are injective. The provider is honest: a new refresh token means
the old one is spent, an omitted one means that it is not, and a rejection reported as not
consuming is truthful. Taking the operation lock is one step. A seed must carry a login whose
token nobody has presented, and `SeedSafeExactlyWhenUnspent` shows that this is exactly what
safety needs. The comment at `refresh.js:275` calls an attempt committed when the credential
differs from both fingerprints; the code at `refresh.js:65-67` asks only that not both are
equal, and the model follows the code.

**Home lock.** Inode numbers are not reused, and pid and start time identify a process. A live
owner is always recognised. Recovery checks the identity of the lock file in one call and
unlinks it in another, so exclusion needs that no two recoveries are between the two at once;
`ExcludesExactly` proves that this is exactly what it needs, and `TwoRecoveriesTwoHolders` that
the code lets it happen. The 50 attempts of the loop become the freedom to give up at any time.

**Archive.** A database transaction is atomic. A row id is the position in its table plus one.
A prompt key determines thread and device. Text search is an arbitrary predicate on rounds.
Where a terminal event has no text, the inbox tells a missing text from an empty one and a
round does not; `Confuses` is that one case, and the prompt position is irrelevant exactly when
it does not occur. The hook endpoint (`machine-control.js:455-468`) passes a string with every
stop, so there it never occurs (`PlainTextsAreUnconfused`); it takes a direct caller of the store.
`Gateway` stands for sessions that the gateway's own conversations create.
A receipt counts its first delivery by being there; the first terminal event of a round that the
next prompt has ended is recorded as a duplicate at once, so that one delivery counts as two
(`EveryDeliveryCounted`, `LateCountsTwice`).

**Metrics queue.** A stamp numbers the accepted rows. A failing write rolls back its whole
batch, so nothing of it is in the database.

**Streams.** JSON and base64 are parameters. The header parser stops a value at the end of the
buffer and fails on an unknown type, as the code does. A decoder that drops a leading byte
order mark makes cut text lose it; `LosesMark` is that case. White space that the format probe
skips is one UTF-16 unit each, so code points and units agree in its limit of 256.

**Failover.** A view holds what the store, the usage readings and the refusal cache say at one
moment; it may be different at every call. `FailoverViews` makes it of the store, the readings and
the history of the tracker. Refusals are keyed by account, or by account and model family; the
empty family is none.

**Enrollment.** Tokens enter by their digest, digests are distinct, and a minted one is new.


## Model

| member | source | states |
|---|---|---|
| RefreshProtocol.StepKeepsInv | codex-credential/refresh-center/refresh.js:257-451 | one step of any cycle, seed, provider or crash keeps: a stored token that may be spent is named by a durable marker, and the lock holder knows the disk |
| RefreshProtocol.SingleUse | codex-credential/refresh-center/refresh.js:257-451 | in every run of cycles, seeds, lost replies, late servings and crashes, a request presents only a token nobody can have spent, under a marker that names it |
| RefreshProtocol.PresentedAgainOnlyWhenKept | codex-credential/refresh-center/refresh.js:348-391 | a token is presented a second time only after the provider answered the first time without spending it |
| RefreshProtocol.TrueMeansPublished | codex-credential/refresh-center/refresh.js:301-481 | a cycle that returns true leaves published equal to stored, no marker and an unspent token |
| RefreshProtocol.PublishedWasStoredFirst | codex-credential/refresh-center/refresh.js:415-475 | whatever is published at any time was in the durable credential in an earlier world |
| RefreshProtocol.LostReplyQuarantines | codex-credential/refresh-center/refresh.js:336-433 | however an attempt ends between its mark and the durable write of its tokens, by an unclear answer, a timeout, a failed write or clear, or a crash, the home is quarantined |
| RefreshProtocol.QuarantineStep | codex-credential/refresh-center/refresh.js:258-274 | a quarantined home sends nothing and keeps its marker and published copy in every step but a seed's write |
| RefreshProtocol.QuarantineAbsorbs | codex-credential/refresh-center/refresh.js:258-274 | no later step of any run sends or changes the credential, until a seed writes |
| RefreshProtocol.CommittedExactlyWhenChanged | codex-credential/refresh-center/refresh.js:60-68 | crash recovery calls an exchange committed exactly when what was written is usable and differs from what was presented |
| RefreshProtocol.SpentSeedIsPresented | codex-credential/refresh-center/seed.js:47-56 | a seed of a spent login leads, step by step, to a cycle that presents it |
| RefreshProtocol.SeedSafeExactlyWhenUnspent | credential-console/lib/codex-seed.js:54-62 | a seed is safe in all runs that follow if and only if nobody has presented its token |
| RefreshCycle.StuckExactly | codex-credential/refresh-center/refresh.js:240-299 | no cycle can succeed on a home, however its calls go, if and only if its credential cannot be read or marked or an ambiguous marker names it |
| RefreshCycle.StrandedExactly | codex-credential/refresh-center/refresh.js:240-481 | which cycles leave a home so: those whose mark outlives an exchange that left the stored tokens as they were, or unusable |
| RefreshCycle.StoredIsPublished | codex-credential/refresh-center/refresh.js:275-299 | once the tokens of an exchange are stored, whatever failed after that, the next cycle in which nothing fails publishes them |
| RefreshCycle.SeedRepairs | codex-credential/refresh-center/seed.js:47-56 | a seed that stores and clears makes every home usable exactly when its login is |
| RefreshCycle.StuckUntilSeeded | codex-credential/refresh-center/refresh.js:258-274 | any cycles and late answers leave a stuck home as it is, and present nothing |
| RefreshCycle.CycleExactly | codex-credential/refresh-center/refresh.js:149-495 | each cell and the answer of a whole cycle, case by case: when a request is sent, when its tokens are stored, what is published, which marker stays and when the cycle succeeds |
| RefreshCycle.SeedExactly | codex-credential/refresh-center/seed.js:47-56 | a seed succeeds exactly when its login is stored, the marker cleared and, with a known expiry, the token published; each cell by itself where a call fails |
| RefreshMain.Home.Take | codex-credential/refresh-center/refresh.js:197-495 | each durable call of the program is a step of the protocol, so the run that led here grows by one and stays safe |
| RefreshMain.Home.Recover | codex-credential/refresh-center/refresh.js:240-299 | the marker is read before anything else: a quarantine ends the cycle with every cell as it was, a committed marker is cleared, and nothing else changes |
| RefreshMain.Home.BeginAttempt | codex-credential/refresh-center/refresh.js:336-354 | the cycle goes on only with a marker that names its credential; a failed begin leaves no marker or one that quarantines, and nothing else changes |
| RefreshMain.Home.Commit | codex-credential/refresh-center/refresh.js:415-481 | new tokens are stored, then the marker is cleared, then published: each cell changes only if every call before it succeeded, also where a call fails late |
| RefreshMain.Home.RunCycle | codex-credential/refresh-center/refresh.js:149-495 | one whole cycle, on a lock that is free or left by a process that is gone, is a run of the protocol and does to the cells what its luck says; true means that what is published is what is stored |
| RefreshMain.Home.Seed | codex-credential/refresh-center/seed.js:47-56 | success leaves the login stored, no marker and, with a known expiry, its access token published; each cell changes only if every call before it succeeded, also where a call fails late |
| RefreshMain.Home.RunSeed | codex-credential/refresh-center/seed.js:47-68 | a whole seed, with the same lock, of a login that cannot have been spent, with the cells and the success of its three calls |
| RefreshMain.RunAll | codex-credential/refresh-center/refresh.js:149-495 | any cycles, seeds and late answers, one after the other from a new home, however their calls go and whoever dies with the lock, are one run of the protocol in which only unspent tokens are presented, and each of them does to the cells what a cycle or a seed does |
| RefreshMain.Perform | codex-credential/refresh-center/refresh.js:149-495 | one cycle, seed or late answer on an idle home: its success, each cell, and what it presents |
| HomeLock.StepKeepsInv | credential-console/lib/home-lock.js:52-157 | every file system step of acquirers, recoverers and releasers keeps: a holder's inode is at the lock path and names it, a recoverer only ever checked what no live process owns |
| HomeLock.AtMostOneHolder | credential-console/lib/home-lock.js:120-157 | at most one live process holds the lock, and nobody but the owner moves a held lock, in every run whose recoveries are undisturbed |
| HomeLock.RecoveryRemovesOnlyAbandoned | credential-console/lib/home-lock.js:79-107 | where recoveries are undisturbed, what one of them removes names no live process |
| HomeLock.OneRemoverIsUndisturbed | credential-console/lib/home-lock.js:79-107 | recoveries are undisturbed whenever no two of them are between check and removal at once |
| HomeLock.TwoRemoversTwoHolders | credential-console/lib/home-lock.js:94-105 | whenever two processes can both remove what is at the lock path, a file by unlinking it and anything by renaming it, they can end up holding the lock together |
| HomeLock.ExcludesExactly | credential-console/lib/home-lock.js:79-157 | along every run: at most one process at a time is between its check and its removal if and only if no continuation breaks exclusion before one more process gets there |
| HomeLock.TwoRecoveriesTwoHolders | credential-console/lib/home-lock.js:52-157 | nothing in the code prevents the violation: from every world whose lock file or directory no live process owns, malformed ones included, two new processes reach two holders |
| HomeLock.TakesAndReleases | credential-console/lib/home-lock.js:120-157 | a process that finds the lock path free takes the lock and releases it |
| HomeLock.LeavesLiveOwner | credential-console/lib/home-lock.js:52-107 | a process that finds the lock of a live owner ends its attempt, leaves the lock alone and cannot do otherwise |
| HookArchive.LatestPending | credential-console/lib/metrics.js:3292-3300 | the round a new prompt supersedes is the pending one with the greatest turn and id, or there is none |
| HookArchive.FirstOf | credential-console/lib/metrics.js:1854-1857 | the round of first rank: no other is earlier by prompt time and id |
| HookArchive.LatestOf | credential-console/lib/metrics.js:1858-1861 | the round of latest rank: no other is newer by activity and id |
| ArchiveSummaries.EverySummary | credential-console/lib/metrics.js:1818-1885 | in every archive a session has a summary exactly when it has rounds: how many there are in each state, the first and the latest, its times and whose they are |
| ArchiveInvariants.UpdateKeepsRounds | credential-console/lib/metrics.js:377-425 | an update that the triggers and row checks allow keeps turns 1..n, uniqueness and the other sessions |
| ArchiveInvariants.SupersedeKeepsRounds | credential-console/lib/metrics.js:3292-3300 | superseding is an allowed update, after which nothing of the session is pending |
| ArchiveInvariants.AppendKeepsRounds | credential-console/lib/metrics.js:3014-3021 | a new round takes the next turn of its session and only its own key starts to be found |
| ArchiveInvariants.ResummarizeKeeps | credential-console/lib/metrics.js:1818-1885 | rebuilding the row of the one session that changed makes the whole table right again |
| ArchiveInvariants.RecordKeepsInv | credential-console/lib/metrics.js:3339-3383 | one event, accepted, refused or rolled back, keeps all invariants of the archive |
| ArchiveInvariants.RunKeepsInv | credential-console/lib/metrics.js:3339-3383 | so does every run of events and gateway sessions |
| ArchiveInvariants.EveryArchive | credential-console/lib/metrics.js:3264-3383 | from an empty database: turns are 1..n, only the last may be pending, no prompt waits, nothing waits for a round that exists, rounds and prompt receipts correspond, summaries equal recomputation |
| ArchiveInvariants.RecordEvolves | credential-console/lib/metrics.js:377-425 | no event deletes or rewrites a settled round, the round inserted in the same transaction included, so no trigger ever aborts a transaction |
| PromptPosition.MergeIsRespond | credential-console/lib/metrics.js:3098-3134 | the inbox merges a terminal event as a round does, if and only if no missing text meets an empty one |
| PromptPosition.MergeAllResponds | credential-console/lib/metrics.js:3069-3262 | any unconfused list of terminal events merges in the inbox to what it would have made of the round |
| PromptPosition.KeyStepsResult | credential-console/lib/metrics.js:3069-3337 | the state of a prompt key is a function of its terminal events and of whether its prompt came |
| PromptPosition.PositionFreeExactly | credential-console/lib/metrics.js:3069-3337 | the position of the prompt among its terminal events is irrelevant, for the list and its prefixes, exactly when nothing is confused |
| PromptPosition.ConfusedPositionMatters | credential-console/lib/metrics.js:3102-3114 | at the first confusing event a first and a last prompt end with different completion times |
| PromptPosition.PlainTextsAreUnconfused | credential-console/lib/metrics.js:3102-3114 | nothing is confused where every stop has a text, or no stop has an empty one |
| PromptPosition.ConfusedExample | credential-console/lib/metrics.js:3102-3114 | a stop without a text after one with an empty text is confused |
| PromptPosition.ResponsesSay | credential-console/lib/metrics.js:3159-3262 | what terminal events in their order make of a round: the first decides complete, failed or unavailable and the code, and the text, size, cut and time are those of one of them |
| PromptPosition.NothingSupplantsShown | credential-console/lib/metrics.js:3203-3222 | that one is the last stop that came later and said something else than what was shown before it |
| PromptInArchive.OwnStep | credential-console/lib/metrics.js:3069-3383 | the archive follows the state of the key at every event of its own that is not refused as full |
| PromptInArchive.ElsewhereStep | credential-console/lib/metrics.js:3069-3383 | events of other prompts and sessions leave it alone |
| PromptInArchive.RoundFollowsTerminals | credential-console/lib/metrics.js:3069-3383 | after any history a prompt alone in its session is pending without terminal events; with them its first decides the state and the code, and its last revising stop the text and time |
| PromptInArchive.SameTerminalsSameResponse | credential-console/lib/metrics.js:3069-3383 | two histories with the same terminal order end with the same response, wherever the prompt arrived |
| PromptInArchive.RedeliveryChangesNoRound | credential-console/lib/metrics.js:3339-3383 | an event delivered again at once changes no session, round or summary |
| MetricsArchive.Archive.HasCapacity | credential-console/lib/metrics.js:3058-3067 | the row count and the sum over the inbox, in whatever order rows are added up |
| MetricsArchive.RetainedWithout | credential-console/lib/metrics.js:3058-3067 | the retained bytes do not depend on the order of the rows |
| MetricsArchive.Archive.PersistInbox | credential-console/lib/metrics.js:3069-3157 | the tables and the status are those of the archive functions, mismatch standing for the exceptions |
| MetricsArchive.Archive.FoldTerminal | credential-console/lib/metrics.js:3159-3262 | a stop, failure or session end makes a pending round complete, failed or unavailable with its text, size, time and code; a later stop with another text takes over a complete one; any other leaves it; and the waiting row goes |
| MetricsArchive.Archive.FoldPrompt | credential-console/lib/metrics.js:3264-3337 | so does superseding, opening the round and folding the terminal that waits |
| MetricsArchive.Archive.RecordEvent | credential-console/lib/metrics.js:3339-3383 | one transaction per event: all or nothing, invariants kept; which events are refused and how, what each kind does to the tables, and each counter, rows written being those that changed a round |
| RecordedEvents.TerminalRecorded | credential-console/lib/metrics.js:3069-3262 | a terminal event whose round is there changes the response of that round only, and what it makes of it, in terms of the event |
| RecordedEvents.TerminalKept | credential-console/lib/metrics.js:3098-3157 | a terminal event before its prompt waits in the inbox and changes nothing else; a later stop with another content takes over the row that waits |
| RecordedEvents.PromptRecorded | credential-console/lib/metrics.js:3264-3337 | a new prompt opens the next round of its session, ends the pending one as unavailable and takes in what waited for it, each field in terms of the events |
| RecordedReceipts.RecordExactly | credential-console/lib/metrics.js:3339-3383 | any event on any archive: refused exactly if something of its prompt is of another thread or device or there is no room; otherwise rounds, inbox, receipts and summaries change as its kind says |
| RecordedReceipts.EveryEventRecorded | credential-console/lib/metrics.js:3339-3383 | so at every event of every run |
| RecordedReceipts.FoldExactly | credential-console/lib/metrics.js:3159-3262 | the fold of a waiting row, in terms of the row, whether or not there is something to fold |
| RecordedReceipts.EveryDeliveryCounted | credential-console/lib/metrics.js:3032-3056 | in every run, what waits and what the receipts count add up to the accepted deliveries, plus one at most, for a terminal event that was the first of a round ended without one |
| RecordedReceipts.LateCountsTwice | credential-console/lib/metrics.js:3240-3247 | such a delivery is one and counts as two |
| KeysetPaging.OrderBySorts | credential-console/lib/metrics.js:4412-4415 | ordering gives the same rows, strictly descending by time and id |
| KeysetPaging.DescendingUnique | credential-console/lib/metrics.js:4412-4415 | there is only one such order |
| KeysetPaging.RestAfter | credential-console/lib/metrics.js:2379-2387 | the rows behind the cursor of the k-th row are the ones that follow it |
| KeysetPaging.PagesVisitAll | credential-console/lib/metrics.js:4387-4429 | following the cursor visits every row exactly once, latest first, and ends, with an empty page behind a last full one |
| ArchiveSearch.EveryMatchingRoundOnce | credential-console/lib/metrics.js:2366-2388 | for any filters and page size, following the cursors of the search visits exactly the rounds that no set filter rejects, once each and latest first, and as many as the total says |
| ArchiveSearch.PreviewIsNewestMatch | credential-console/lib/metrics.js:4589-4594 | what a session shows is its newest matching round |
| ArchiveSearch.FastPathIsGeneral | credential-console/lib/metrics.js:4463-4528 | the summary table answers an unfiltered search with the items, order, cursor and total of the general query |
| ArchiveSearch.EveryMatchingSessionOnce | credential-console/lib/metrics.js:4559-4648 | following the cursors of the search visits exactly the sessions with a round that no filter rejects, each with its counts, its first prompt and what its newest matching round says |
| MetricsQueue.MetricsStore.EnqueueRequest | credential-console/lib/metrics.js:2795-2806 | a call is queued exactly when it is well formed, the store is open and there is room; otherwise it is counted as dropped; and the laws hold |
| MetricsQueue.MetricsStore.EnqueueCompletion | credential-console/lib/metrics.js:2808-2854 | a pair is queued when it fits, its row alone when only the conversation does not, and every loss is counted |
| MetricsQueue.MetricsStore.RetryPairs | credential-console/lib/metrics.js:3474-3492 | the budget checks of a retry never cut anything: all retryable pairs return in order with their bytes |
| MetricsQueue.MetricsStore.Flush | credential-console/lib/metrics.js:3422-3512 | calls = written + dropped + queued, rows reach the database once and in order, and a busy database drops only rows retried three times |
| MetricsQueue.MetricsStore.Close | credential-console/lib/metrics.js:4825-4885 | closing ends, loses nothing uncounted, and writes everything queued if every write succeeds |
| MetricsQueue.RetriedExactly | credential-console/lib/metrics.js:3463-3477 | what a transient failure returns is exactly the entries with fewer than three retries, with one more each |
| MetricsQueue.RetriedOrder | credential-console/lib/metrics.js:3463-3470 | dropping exhausted entries and returning the others keeps the order of arrival |
| MetricsQueue.FollowsCommit | credential-console/lib/metrics.js:3442-3453 | what a commit writes continues the order written, and the queue continues that |
| Incremental.DrainJoin | credential-console/lib/bedrock-event-stream.js:65-87 | draining a longer buffer continues where draining its beginning stopped |
| Incremental.AnySplit | credential-console/lib/bedrock-event-stream.js:65-87 | however a stream is cut, a stable step function delivers the same items, remainder and verdict |
| Incremental.DrainEncoded | credential-console/lib/bedrock-event-stream.js:65-87 | a stream of encodings that the step function reads back drains to their items |
| EventStream.EventStreamHeaders | credential-console/lib/bedrock-event-stream.js:34-56 | the offset loop reads the string headers or fails, as the recursive reading does |
| EventStream.ReaderIsStable | credential-console/lib/bedrock-event-stream.js:65-87 | what is decided about the front of the buffer is not changed by more bytes |
| EventStream.BedrockParser.Push | credential-console/lib/bedrock-event-stream.js:65-87 | a push delivers and keeps what draining buffer and chunk gives, and nothing after an invalid frame |
| EventStream.OneLine | credential-console/lib/bedrock-event-stream.js:95 | an event handed on is a single line |
| EventStream.OneLineExactly | credential-console/lib/bedrock-event-stream.js:95 | each line end becomes one space, and what is between line ends stays |
| EventStream.ChunkExactly | credential-console/lib/bedrock-event-stream.js:89-92 | a message is handed on exactly if the last string headers of its two types say event and chunk |
| EventStream.FrameDecisions | credential-console/lib/bedrock-event-stream.js:67-78 | a prelude of impossible lengths is refused, a frame is read once all its bytes are there, and the lengths are big endian |
| EventStream.HeadersReadBack | credential-console/lib/bedrock-event-stream.js:34-56 | every list of valid headers, of any types, reads back to its string headers |
| EventStream.FrameReadsBack | credential-console/lib/bedrock-event-stream.js:69-96 | an encoded message reads back to its chunk payload, whatever follows it |
| EventStream.AnySplitReadsBack | credential-console/lib/bedrock-event-stream.js:65-105 | encoding any messages and pushing them in any split recovers exactly the chunk payloads, with nothing left over |
| EventStream.PushAll | credential-console/lib/bedrock-event-stream.js:65-105 | the parser ends in the same state for every split of a byte sequence |
| Utf8.ScalarsAreStable | credential-console/lib/codex-usage.js:196-202 | a strict decoder's verdict on the front of the bytes is final |
| Utf8.DecodeEncode | credential-console/lib/conversation-hook-event.js:107-112 | decoding an encoding gives the code points back |
| Utf8.CutDecodes | credential-console/lib/conversation-hook-event.js:107-116 | an encoding cut anywhere decodes to the code points before the cut and keeps the rest |
| Utf8.WellFormedExactly | credential-console/lib/conversation-hook-event.js:77-89 | a string has code points exactly when it is the UTF-16 of some |
| HookText.HasUnpairedSurrogate | credential-console/lib/conversation-hook-event.js:77-89 | true exactly when no code points have this UTF-16 form |
| HookText.CutText | credential-console/lib/conversation-hook-event.js:106-117 | the byte-by-byte search ends at the longest prefix of whole code points that fits, less a byte order mark |
| HookText.BoundedText | credential-console/lib/conversation-hook-event.js:101-118 | invalid text is refused, text that fits is untouched, other text is cut and marked so |
| HookText.LongestPrefixExactly | credential-console/lib/conversation-hook-event.js:106-117 | the cut is the longest fitting prefix if and only if no leading byte order mark is lost |
| HookText.CutUnique | credential-console/lib/conversation-hook-event.js:101-118 | text and limit determine the cut |
| HookText.MarkIsLost | credential-console/lib/conversation-hook-event.js:106-117 | a byte order mark and a letter, cut to three bytes, leave nothing where the mark alone would fit |
| CodexUsage.InputCountedOnce | credential-console/lib/codex-usage.js:119-139 | input, cache read and cache write add up to the reported input exactly when the parts do not exceed it |
| CodexReport.EachCount | credential-console/lib/codex-usage.js:88-139 | each of the four counts of a record by itself: the flat field before the nested one, and input without what was read from or written to the cache, but not below zero |
| CodexReport.ReportExactly | credential-console/lib/codex-usage.js:360-418 | in every report each count is that of the last record that has it, usage is unavailable exactly if no record has any, complete exactly if the response ended properly, input and output are known and no totals disagree; and how the response ended |
| CodexReport.FormatExactly | credential-console/lib/codex-usage.js:261-287 | a response is taken for JSON exactly if a brace or bracket is the first of its 256 characters that is no white space |
| CodexUsage.LinesAreStable | credential-console/lib/codex-usage.js:288-293 | a line once complete stays the same line |
| CodexUsage.DecisionStays | credential-console/lib/codex-usage.js:261-287 | a detected format never changes as more text arrives |
| CodexUsage.LimitStays | credential-console/lib/codex-usage.js:330-338 | past the event limit no more text changes the accounting |
| CodexParser.CodexUsageParser.FeedSse | credential-console/lib/codex-usage.js:288-318 | the line loop assembles what the complete lines amount to and keeps the unfinished one |
| CodexParser.CodexUsageParser.FeedText | credential-console/lib/codex-usage.js:269-286 | the parser has read exactly the text so far, in any mode |
| CodexParser.CodexUsageParser.Push | credential-console/lib/codex-usage.js:179-210 | the state is a function of all bytes received |
| CodexParser.CodexUsageParser.Finish | credential-console/lib/codex-usage.js:212-241 | the report is a function of all bytes received and says, count by count, what the records in them say; bytes that are no UTF-8 are reported as invalid or over the limit |
| CodexParser.ParseResponse | credential-console/lib/codex-usage.js:424-428 | for every split, in every format and under every limit: each count is that of the last record that has it, and the usage and parse states are what the records and the end of the response say |
| CodexUsage.Utf8IsNeverBad | credential-console/lib/codex-usage.js:196-202 | UTF-8 input, cut by the byte limit or not, is never taken for invalid |
| SseAgreement.SameLines | credential-console/lib/codex-usage.js:291-296 | for every text, the lines are those of the standard if and only if every CR belongs to a CR LF |
| SseAgreement.SameEvents | credential-console/lib/codex-usage.js:296-339 | any lines do to the parser what the events that the standard dispatches for them amount to: payloads, event count, limit and size of the event under way |
| SseAgreement.ReadsLines | credential-console/lib/codex-usage.js:288-339 | for every text in event-stream format, the parser reads its LF lines, less a CR at their end, as the standard reads lines |
| SseAgreement.AgreesWithTheStandard | credential-console/lib/codex-usage.js:288-350 | the payloads are the first maxEvents events of sections 9.2.5 and 9.2.6 of the WHATWG HTML Standard, without the oversized ones and the sentinel, and the limit is exceeded if and only if a later event fits |
| SseAgreement.LoneCrDiffers | credential-console/lib/codex-usage.js:291-296 | a CR that does not precede LF ends a line of the standard only: a text for which the parser misses an event |
| SseAgreement.EndIsAnEmptyLine | credential-console/lib/codex-usage.js:227-233 | at the end an unfinished event is treated as if an empty line followed, where the standard discards it |
| SseAgreement.EndAgreesExactly | credential-console/lib/codex-usage.js:227-233 | the end of the stream departs from the standard if and only if data is left over, in the buffer or in an unfinished line, that makes one more event to account for |
| SseAgreement.NothingLeftExactly | credential-console/lib/codex-usage.js:227-233 | nothing is left over if and only if no data is pending and the unfinished line is no data line |
| ResponseContent.ByteLengthJoin | credential-console/lib/codex-response-content.js:226-233 | byte lengths add up except for two bytes at a surrogate pair that is split |
| ResponseContent.ByteLengthIsUtf8 | credential-console/lib/codex-response-content.js:226-233 | of a well-formed text the byte length is that of its encoding |
| ResponseContent.Assembler.Append | credential-console/lib/codex-response-content.js:221-234 | a delta is added, ignored or cut as the reply functions say |
| ResponseContent.Assembler.Settle | credential-console/lib/codex-response-content.js:236-250 | a done event replaces the text within the limit and settles the part either way |
| ResponseContent.CounterExactly | credential-console/lib/codex-response-content.js:210-250 | in every run the counter is the size of the parts plus two per surrogate pair completed by a later delta, within the limit, with at most so many parts |
| ResponseContent.WellFormedCountsExactly | credential-console/lib/codex-response-content.js:221-233 | where every delta is well formed the counter is the size of the parts |
| ResponseContent.SplitPairCountsSix | credential-console/lib/codex-response-content.js:226-233 | a surrogate pair in two deltas is four bytes of text and counts as six |
| ResponseContent.PartsAreExact | credential-console/lib/codex-response-content.js:221-250 | unless something was cut, a part says what its deltas add up to, or its last done text |
| ResponseContent.SettledIgnoresDeltas | credential-console/lib/codex-response-content.js:221-227 | a settled part changes by another done event of its key only |
| ResponseContent.OrderOfAppearance | credential-console/lib/codex-response-content.js:210-219 | the parts stand in the order in which their keys appeared; a key that has none appeared when there were too many |
| ResponseContent.TextSlices | credential-console/lib/codex-response-content.js:128-134 | the text is the parts one behind the other |
| ResponseContent.TruncatedExactly | credential-console/lib/codex-response-content.js:221-250 | a reply counts as cut exactly if some event did not fit when it came, and as ended exactly if it was told so |
| ResponseContent.OverrunKeepsText | credential-console/lib/codex-response-content.js:221-250 | an event that does not fit leaves the text as it is, and a done event settles its part all the same |
| QuotaExhaustion.RefusalOf | credential-console/lib/account-failover.js:322-327 | a refusal is believed until the reset it announces, at most eight days, and without one ahead for 15 minutes; claim and reply are those marked |
| QuotaExhaustion.MarkIsBelieved | credential-console/lib/account-failover.js:322-345 | after any history, a refusal that nothing marked or cleared since, and that 256 others did not crowd out, is in force exactly until that end, with its claim and reply |
| QuotaExhaustion.MarkThenAsk | credential-console/lib/account-failover.js:241-256 | a refusal marked and then asked for, at any time |
| QuotaExhaustion.MarkModelThenAsk | credential-console/lib/account-failover.js:247-261 | the same for a model family on an account |
| QuotaExhaustion.PutLaws | credential-console/lib/account-failover.js:327-332 | a mark keeps at most 256 entries and forgets only the least recently marked |
| QuotaExhaustion.CrowdedOut | credential-console/lib/account-failover.js:327-332 | a key is forgotten by the 256th other key marked after it, and not before |
| QuotaExhaustion.NoDoubleRecheck | credential-console/lib/account-failover.js:290-309 | a refusal claimed by one sweep is not claimed again within the interval |
| QuotaExhaustion.DueExactly | credential-console/lib/account-failover.js:290-309 | due are exactly the refusals in force that were not checked within the interval |
| QuotaExhaustion.AgreesWithHistory | credential-console/lib/account-failover.js:226-309 | a reported refusal is the last mark, uncleared and not reset; with a clock that does not run back, a refusal is missed only if 256 other keys were marked since |
| QuotaExhaustion.Tracker.Mark | credential-console/lib/account-failover.js:241-244 | a mark joins the history, and the map is what the history makes of it |
| QuotaExhaustion.Tracker.Exhausted | credential-console/lib/account-failover.js:253-256 | in every run the answer agrees with the history rule, unless 256 other accounts were marked since |
| QuotaExhaustion.Tracker.MarkModel | credential-console/lib/account-failover.js:247-251 | the same for one model family; a mark without account or family changes nothing |
| QuotaExhaustion.Tracker.ModelExhausted | credential-console/lib/account-failover.js:258-261 | the answer for a model family agrees with its history rule, unless 256 other pairs were marked since |
| QuotaExhaustion.Tracker.Succeeded | credential-console/lib/account-failover.js:275-284 | an answer clears the account and the model family it was for, and is remembered among the last 256 |
| QuotaExhaustion.AnsweredLaterExactly | credential-console/lib/account-failover.js:275-284 | an account is known to have answered since a time exactly when its last answer is later, unless 256 others answered after it |
| QuotaExhaustion.Tracker.SucceededSince | credential-console/lib/account-failover.js:311-315 | the answer is what the history of answers makes of it |
| QuotaExhaustion.Tracker.DueForRecheck | credential-console/lib/account-failover.js:290-309 | the sweep forgets what is reset, claims what it lists and lists what is due, in both maps |
| Failover.NormalizeAccountFailover | credential-console/lib/account-failover.js:70-80 | the chain is the first eight distinct valid ids |
| Failover.NormalizeIds | credential-console/lib/account-failover.js:70-80 | at most eight, distinct, valid, from the list, and none left out while there is room |
| Failover.ChainIsFirstEight | credential-console/lib/account-failover.js:70-80 | the chain keeps the order of the list, and every valid id left out comes later in it than all that are taken |
| Failover.ChooseFailoverAccount | credential-console/lib/account-failover.js:527-576 | the first believed usable; a doubted one only as last resort, first in the chain, when none is believed; nothing exactly when none qualifies |
| Failover.Attempt.constructor | credential-console/lib/account-failover.js:641-799 | where a request starts, when it leaves that account at once and for which backup, and that a refusal the cache reports answers it if and only if it was kept with its reply and failover is off or no backup is eligible, with a view of its own for each reading |
| Failover.Attempt.Preflight | credential-console/lib/account-failover.js:769-797 | the start is left exactly if failover is on, a refusal or a reading doubts it, and there is a backup: any eligible one for a refused start, only a believed one for a doubted start |
| Failover.Attempt.NextBackup | credential-console/lib/account-failover.js:700-722 | a backup handed out is the next one: the first believed of the chain, or the first eligible as last resort; untried, and neither home nor start; none exactly if nobody qualifies |
| Failover.Exhaust | credential-console/lib/account-failover.js:700-722 | under any changing world the backups handed out are distinct members of the chain, so there are at most that many |
| FailoverViews.ViewShowsTracker | credential-console/lib/account-failover.js:471-481 | a view shows what the store and the tracker hold: refusals in force, and readings not outdated by a later answer |
| FailoverViews.ViewAgrees | credential-console/lib/account-failover.js:253-261 | a refusal in a view is the last mark, uncleared and not reset; where the tracker remembers, every such refusal is in the view |
| FailoverViews.EligibleByRule | credential-console/lib/account-failover.js:551-568 | who could be asked by the store and the history is eligible, and the other way round where the tracker remembers |
| FailoverViews.Begin | credential-console/lib/account-failover.js:641-799 | the cached refusal that answers a request is in force by the history; where the tracker remembers, it is there if and only if the history has one with a reply and no backup could be asked |
| FailoverViews.Backup | credential-console/lib/account-failover.js:700-722 | a backup handed out is not refused by the history at that moment, unless 256 others were marked since; none means that nobody could be asked |
| ProxyAttempts.Exchange.AtMostElevenSends | credential-console/lib/proxy.js:692-700 | sends and what may still follow never exceed eleven |
| ProxyAttempts.Exchange.BackupWithCredential | credential-console/lib/proxy.js:574-584 | the search asks one backup after the other, each the next at its moment; it finds the first whose credential can be read then, with that token, and none only if nobody is left to ask |
| ProxyAttempts.ReadyIsFound | credential-console/lib/proxy.js:574-584 | a backup that is eligible and readable at every moment is never missed |
| ProxyAttempts.Exchange.FailOver | credential-console/lib/proxy.js:903-985 | with budget left and the client there, the request goes to the backup the search finds, with its token, and the whole upload is sent at once if it is complete; otherwise the request is settled; a refusal moves the attempt too, a burst limit does not |
| ProxyAttempts.Exchange.Answered | credential-console/lib/proxy.js:858-1010 | what every answer does: a refusal fails over, and does so whenever a backup is always ready; an overload is retried, any other answer settles the request |
| ProxyAttempts.Exchange.FinishUpload | credential-console/lib/proxy.js:1220-1224 | a replay that waited for the upload carries all of it |
| ProxyAttempts.Happen | credential-console/lib/proxy.js:692-1240 | whatever happens to a request: what is uploaded and sent by it, whose credential was read, and that an answer settles it or uses up budget |
| ProxyAttempts.Drive | credential-console/lib/proxy.js:692-1240 | in whatever order chunks, the end of the upload, answers, timers and closes come: at most eleven sends and eleven answers, each replay the whole upload with a credential that an answer of the schedule found, and no send once the client is gone |
| ProxyAttempts.AnswerOnce | credential-console/lib/proxy.js:858-1010 | an answer that settles a request whose client waits is final, a third overload, or one after which nobody is left to ask |
| ProxyAttempts.Serve | credential-console/lib/proxy.js:858-1010 | from any point of a request on, if answers keep coming and the upload ends, it is settled after at most eleven sends; and if the client waits, not before nothing is left to try |
| Enrollment.Registry.Authenticate | codex-credential/token-dispenser/server.js:123-150 | the name of the first active row with the digest, and none exactly if there is no such row |
| Enrollment.Registry.Enroll | codex-credential/token-dispenser/server.js:316-394 | the loop revokes exactly the rows of the presented token, and of the same name without a handle or with the same; adds the new row; and counts each kind of row |
| Enrollment.EnrollKeeps | codex-credential/token-dispenser/server.js:335-371 | no two active rows share name and handle |
| Enrollment.RowAfter | codex-credential/token-dispenser/server.js:335-358 | rows keep place, name, handle and digest, and are revoked exactly when a request names them |
| Enrollment.AcceptedAnswersExactly | codex-credential/token-dispenser/server.js:316-394 | a token answers to its name exactly until a later enrollment proves or claims its row |
| Enrollment.OneAtATime | codex-credential/token-dispenser/server.js:87-92 | a task that runs once the promise before it has settled is the only one between its read and its end |
| Enrollment.RunIsSequential | codex-credential/token-dispenser/server.js:82-92 | however enrollments arrive, interleave and fail, the registry is what the written ones make of it one after the other |
| Enrollment.NoAcceptedEnrollmentIsLost | codex-credential/token-dispenser/server.js:82-92 | so a token that was handed out is never lost to a concurrent enrollment |
| Enrollment.OverlapLosesTheFirst | codex-credential/token-dispenser/server.js:82-86 | without the queue the first of two overlapping enrollments loses its token |

## Left out

- HomeLock.AtMostOneHolder: exclusion is proved for undisturbed recoveries only, because the code does not have it otherwise; `ExcludesExactly` says when it does and `TwoRecoveriesTwoHolders` that nothing prevents the rest.
- HomeLock.RecoveryRemovesOnlyAbandoned: under the same condition, for the same reason.
- RefreshMain.Home.RunCycle: no other process takes a step during the cycle, and a process dies only after its last call; a death between two calls leaves the cells of a cycle whose next call fails, and interleavings are covered by the transition system.
- PromptInArchive.SameTerminalsSameResponse: a prompt alone in its session, none of whose events is refused as full, and no confused texts; the last of these is exact by `PositionFreeExactly` and holds for every event of the hook endpoint by `PlainTextsAreUnconfused`.
- CodexParser.ParseResponse: of bytes that are not UTF-8 it says that they are reported as invalid or over the limit; what was accounted for before the bad byte then depends on the pieces.
- SseAgreement.AgreesWithTheStandard: texts with a CR that does not precede LF are excluded, because exactly those the code cuts into other lines (`SameLines`, `LoneCrDiffers`); event types, ids and retry times are outside the comparison.
- ResponseContent.PartsAreExact: a part refused because there are too many stays refused and is not described further.
- Health reports, alerts, timers, signals, sockets, TLS, file modes and the `fetch` of the token endpoint.
- How the operation lock of the credential store reclaims a lock of a dead process (`acquireOperation` is one step).
- SQLite, full-text search and schema migration; search errors, workload limits and the legacy fragment counter.
- The validation of hook events, metric rows, filters and enrollment requests; rejected input does not reach the models.
- The counters of hook events in the queue's conservation law; duplicates count there as enqueued but not as written.
- The parser's `eventsSeen` and `bytesSeen` in reports, and snapshots taken before the end.
- The inner usage parser that receives the event lines of the Bedrock parser is not part of this model.
- The assembler's own line splitting and event limits, which repeat those of the usage parser.
- Usage readings and their windows, recognising a refusal from status and headers, and the edits of a backup chain.
- Moving the device after a failover (`recordMove`) and sending it home (`failbackDeviceAccount`) change the store, which is a view here.
- Headers, the model gate and the response side of the proxy; a request body that is too large ends the upload and is covered as a close.
- The enrollment key, rate limits, and `add-client.js`, which edits the registry outside the queue.
