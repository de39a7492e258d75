# Verified models of the zero-memory core

Dafny models of the small algorithms and protocols at the centre of the repository, each in the form the code has
(classes with updated fields, loops over arrays, or plain functions), and proofs of what they keep over every input,
every run or every interleaving. `dafny verify dfyconfig.toml` checks all of it.

| files | what they model |
|---|---|
| `WorkClaims`, `WorkClaimRuns` | the work-claim lease: three conditional writes on one item a key, and every interleaving of requesters, late or repeated jobs, crashes, clock error and lazy TTL deletion |
| `SessionEviction`, `SessionStore`, `SessionRuns`, `SessionLives` | the in-memory session store: a map in insertion order with a per-user cap, a global cap, an idle limit and a background sweep, and each session of it on its own |
| `SessionTable`, `SessionAgreement` | the DynamoDB session store, and the two stores fed the same requests |
| `PanelChain`, `PanelTree`, `PanelRuns` | the panel chain reducer: a tree kept as a flat list, an open-order stack and a focus |
| `Octets`, `Crc32`, `Zip`, `ZipRoundTrip`, `ZipForeign` | the ZIP writer and reader, archives of other tools, and the table-driven checksum against long division |
| `Chunker`, `ChunkerRuns`, `ChunkerSolo` | the transcript chunker: buffers with running counters kept in step with a ledger of what was said, and each conversation of it on its own |
| `Tailing`, `SendQueue` | the watcher: tailing files that grow between awaits, and the single-drainer retry queue |
| `Csv` | the CSV printer and one-pass parser |
| `StableJson`, `StableJsonInverse`, `JsonReader`, `MarkdownMemory` | the memory file renderer and parser, and JSON with sorted keys, what its texts tell apart and how they read back |
| `RateLimiter` | the clock-aligned rate limiter over a lazily expiring counter table |
| `LiveRefresh` | the debounce with a maximum wait, as a timed automaton |
| `Outcomes`, `Lists`, `OrderedMaps`, `Strings` | shared vocabulary: results, `filter`, a JavaScript Map, string operations |

Four things came out of the proofs that the code's comments do not say.

- The lease excludes a second worker exactly when run time, clock lag and clock lead together fit in the lease
  (`WorkClaimRuns.MutualExclusion`): with the default 20-minute lease and 15-minute runs the clocks may be off by five
  minutes together and no more. `WorkClaimRuns.OverlapWithoutSlack` is the run that breaks it.
- The maximum wait of the refresh scheduler bounds a nudge's wait exactly when timers are never late or nudges come
  further apart than timers are late (`LiveRefresh.BoundedExactlyWhenSteady`): every nudge clears the timer, so a dense
  stream can put a late timer off forever.
- The two session stores keep the same sessions exactly when no live sessions of one stamp straddle an account's cap
  (`SessionAgreement.DropsAgreeExactly`); they always keep equally many.
- A rate-limit counter outlives its window by a minute, which holds the limit for instances up to exactly a minute behind
  (`RateLimiter.GraceCoversAMinute`).

A memory file round trip fails exactly when the content holds the original-language marker or the language is not one
word (`MarkdownMemory.RoundTrip`), a ZIP round trip exactly when a file stands beyond what the 16-bit entry count can tell
(`ZipRoundTrip.RoundTrip`), and a CSV table comes back unchanged exactly when no row is all blank (`Csv.ExactRoundTrip`).

## Model

| member | source | states |
|---|---|---|
| WorkClaims.DynamoDbWorkClaims.Claim | apps/server/src/work-claims.dynamodb.ts:76-105 | refuses a key whose claim is queued or running up to the last second of its hold, and no other; else writes a queued record with the token, its hold and expiry, and touches no other key |
| WorkClaims.DynamoDbWorkClaims.Confirm | apps/server/src/work-claims.dynamodb.ts:111-130 | true exactly when the key still holds this token's queued claim, which becomes a running one with a new hold and expiry, all else kept; false changes nothing, and either way the token cannot confirm again |
| WorkClaims.DynamoDbWorkClaims.Release | apps/server/src/work-claims.dynamodb.ts:132-147 | marks this token's own record released, so any request may take the key, and leaves every other record as it is |
| WorkClaims.DynamoDbWorkClaims.UnderClaim | apps/server/src/lambda.jobs.ts:165-180 | runs the work exactly when the confirm succeeded, in a table that already shows the claim running, releases after it whatever the work did, and lets the work's error through |
| WorkClaimRuns.MutualExclusion | apps/server/src/work-claims.dynamodb.ts:67-147 | no two workers ever hold one key between confirm and release, in any interleaving, if and only if run time plus both clock errors fit in the lease |
| WorkClaimRuns.DefaultSlack | apps/server/src/work-claims.dynamodb.ts:67-72 | with the default lease and 15-minute runs that means clock errors of five minutes together at most |
| WorkClaimRuns.OverlapWithoutSlack | apps/server/src/work-claims.dynamodb.ts:67-72 | without the slack a legal run puts two workers on one key |
| WorkClaimRuns.HoldOutlastsRun | apps/server/src/work-claims.dynamodb.ts:111-130 | while a worker runs no clock reading reaches past its hold |
| WorkClaimRuns.StartsOnceAndExactlyWhen | apps/server/src/work-claims.dynamodb.ts:44-52 | in every run a claim starts its work at most once, and a delivered job starts exactly when its claim is the key's latest and neither started nor ended |
| WorkClaimRuns.TakenExactlyWhen | apps/server/src/work-claims.dynamodb.ts:76-105 | in every reachable state a request takes a key exactly when its latest claim is gone, has ended, or is read to be past its hold, waiting claims included; a refused request changes nothing |
| WorkClaimRuns.HeldKeyIsNotRetaken | apps/server/src/work-claims.dynamodb.ts:76-105 | from when a claim is taken until it ends or its record goes, no request within its hold takes the key, in any interleaving |
| WorkClaimRuns.EvidenceStays | apps/server/src/work-claims.dynamodb.ts:67-72 | a record goes only when its hold and evidence time are over: with the default times two and a half hours after the claim was taken, two hours and 20 minutes after it started |
| WorkClaimRuns.SpentTokenStaysSpent | apps/server/src/work-claims.dynamodb.ts:107-130 | a superseded, started, released or deleted token never starts again |
| WorkClaimRuns.StaleReleaseEndsNothing | apps/server/src/work-claims.dynamodb.ts:132-147 | a release with another token leaves every record alone |
| WorkClaimRuns.WaitingJobStarts | apps/server/src/work-claims.dynamodb.ts:67-72 | no lost work: a queued claim nobody spends or retakes starts when its job arrives before the record expires |
| WorkClaimRuns.KeyComesFree | apps/server/src/work-claims.dynamodb.ts:76-105 | after the longer hold, a second and the clock errors any request takes the key, whatever crashed |
| WorkClaimRuns.HistoryStep | apps/server/src/work-claims.dynamodb.ts:76-175 | every step keeps the table what the log of takes, starts, ends and deletions says it is |
| SessionStore.FindOldest | apps/server/src/session-cap.ts:34-41 | the inner loop finds the first entry with the least stamp |
| SessionStore.EvictSessionsOverCap | apps/server/src/session-cap.ts:28-49 | the map is trimmed to the cap by taking the oldest, earliest inserted entry again and again; the evicted come back in that order |
| SessionStore.EvictUserSessionsOverCap | apps/server/src/session-cap.ts:75-92 | sort once and cut a prefix does to one account's entries what repeated minimum does, in the same order |
| SessionStore.SortByStampIsStable | apps/server/src/session-cap.ts:86 | the sort is ascending and keeps the order of equal stamps |
| SessionStore.SortedPrefixIsTrim | apps/server/src/session-cap.ts:80-91 | the fast form (sorted prefix) refines the slow form (repeated minimum), entries and order |
| SessionEviction.OldestIsFirstMinimum | apps/server/src/session-cap.ts:36-41 | the entry an eviction takes is the first of least stamp among those counted |
| SessionEviction.TrimMeetsCap | apps/server/src/session-cap.ts:28-49 | an eviction leaves exactly the cap, or all when there were fewer |
| SessionEviction.TrimConserves | apps/server/src/session-cap.ts:28-49 | what is kept and what is evicted are together what there was |
| SessionEviction.TrimSparesOthers | apps/server/src/session-cap.ts:69-92 | evicting one account's entries never touches another account's |
| SessionEviction.TrimKeepsLatest | apps/server/src/mcp-session.memory-store.ts:29-40 | the latest stamped, last inserted entry survives any positive cap |
| SessionEviction.SweepCommutesWithTrim | apps/server/src/mcp-session.memory-store.ts:79-85 | sweeping idle entries before or after an eviction leaves the same live ones: idle entries go first |
| SessionStore.InMemoryMcpSessionStore.Open | apps/server/src/mcp-session.memory-store.ts:29-40 | stores the record, trims the owner to the per-user cap, then all to the global cap, and returns the evicted ids in order |
| SessionStore.InMemoryMcpSessionStore.Resume | apps/server/src/mcp-session.memory-store.ts:42-57 | answers the restamped record exactly for the owner's session that has not idled out, changing nothing otherwise |
| SessionStore.InMemoryMcpSessionStore.AttachScope | apps/server/src/mcp-session.memory-store.ts:59-64 | sets the scope of a session that exists and changes nothing else |
| SessionStore.InMemoryMcpSessionStore.Close | apps/server/src/mcp-session.memory-store.ts:66-73 | true exactly when the session is there and the caller's; then it alone is gone, and otherwise nothing changes |
| SessionStore.InMemoryMcpSessionStore.Sweep | apps/server/src/mcp-session.memory-store.ts:79-85 | deleting while iterating leaves exactly the entries that have not idled out, in order |
| SessionRuns.SweepsAreUnobservable | apps/server/src/mcp-session.memory-store.ts:25-85 | two runs that differ only in where sweeps happen answer every resume alike |
| SessionRuns.CapsHoldInEveryRun | apps/server/src/mcp-session.memory-store.ts:15-40 | a run that starts within both caps stays within them |
| SessionRuns.OpenEnforcesCaps | apps/server/src/mcp-session.memory-store.ts:29-40 | after any open both caps hold, whatever the map was |
| SessionRuns.OpenKeepsNewSession | apps/server/src/mcp-session.memory-store.ts:29-40 | a session stamped last survives its own open |
| SessionRuns.NewSessionSurvivesInEveryRun | apps/server/src/mcp-session.memory-store.ts:29-57 | over any run stamped with times the clock had reached, a session opened now survives its own open |
| SessionRuns.OneOpenIsFenced | apps/server/src/session-cap.ts:69-74 | an open evicts at most one session of others, and none when the opener is at its cap |
| SessionRuns.FenceOverRuns | apps/server/src/session-cap.ts:69-92 | a run in which one account opens, with sweeps and closes in between, evicts at most as many sessions of others as that account grew, plus what sweeps and closes took from it |
| SessionLives.ResumesAsLived | apps/server/src/mcp-session.memory-store.ts:29-85 | after any run a resume answers what the session's own opens, resumes, scopes and closes say, record and idle limit included, as if it were alone, unless an open returned its id as evicted, and then nothing |
| SessionLives.ClosesAsLived | apps/server/src/mcp-session.memory-store.ts:66-73 | after any run a close finds only a session its caller opened, and every such one that is live and not evicted |
| SessionLives.OthersAreUntouched | apps/server/src/mcp-session.memory-store.ts:42-73 | no resumes and closes of one account, on any ids, change another account's sessions |
| SessionLives.EvictedInOrder | apps/server/src/mcp-session.memory-store.ts:31-39 | the ids an open returns are the opener's own over the per-user cap, as many as that takes, then those over the global cap, each part oldest first |
| SessionLives.PutReplaces | apps/server/src/mcp-session.memory-store.ts:30 | storing under an id that is there replaces that entry in its place |
| SessionTable.DynamoDbMcpSessionStore.Open | apps/server/src/mcp-session.dynamodb-store.ts:69-82 | fails on an existing id; else stores the record and drops the owner's oldest listed beyond the cap |
| SessionTable.DynamoDbMcpSessionStore.DropOwnOverCap | apps/server/src/mcp-session.dynamodb-store.ts:163-189 | drops exactly the excess from the front of the owner's listing |
| SessionTable.DynamoDbMcpSessionStore.Resume | apps/server/src/mcp-session.dynamodb-store.ts:84-115 | answers exactly when the owner's item has not expired in whole seconds, and restarts its idle clock |
| SessionTable.DynamoDbMcpSessionStore.AttachScope | apps/server/src/mcp-session.dynamodb-store.ts:117-133 | sets the scope of an existing item only |
| SessionTable.DynamoDbMcpSessionStore.Close | apps/server/src/mcp-session.dynamodb-store.ts:135-152 | deletes exactly the owner's item |
| SessionTable.RoundingGap | apps/server/src/mcp-session.dynamodb-store.ts:154-156 | rounding down to seconds only shortens a session, by less than a second |
| SessionTable.TrimKeepsCount | apps/server/src/session-cap.ts:75-92 | of an owner's entries from any stamp on the cap keeps as many as fit, whatever stamps they share |
| SessionTable.SurvivesByRank | apps/server/src/session-cap.ts:75-92 | in the map an entry survives its owner's cap when at most the cap are as new and goes when the cap or more are newer |
| SessionTable.ListedByRank | apps/server/src/mcp-session.dynamodb-store.ts:163-189 | the same holds of the table's drop, whatever order the index gives equal stamps |
| SessionTable.DropKeepsCount | apps/server/src/mcp-session.dynamodb-store.ts:163-189 | of an owner's items from any stamp on the drop keeps as many as fit, whatever order the index gives equal stamps |
| SessionAgreement.AnswersAgree | apps/server/src/mcp-session.dynamodb-store.ts:84-115 | what the table resumes the map resumes with the same record; where only the map does, under a second of idle time is left |
| SessionAgreement.SameNumberKept | apps/server/src/mcp-session.dynamodb-store.ts:158-189 | at an open both stores keep the same number of the owner's live sessions, whatever stamps are shared |
| SessionAgreement.SameFate | apps/server/src/mcp-session.dynamodb-store.ts:158-189 | a session live in both stores is dropped by both or by neither, unless the cut falls between live sessions of its stamp |
| SessionAgreement.TieTellsThemApart | apps/server/src/mcp-session.dynamodb-store.ts:163-189 | with a live tie at the cut the index has an order of equal stamps in which the table drops a live session the map keeps |
| SessionAgreement.DropsAgreeExactly | apps/server/src/mcp-session.dynamodb-store.ts:158-189 | the stores agree after the drop for every index order if and only if no live tie stands at the cut |
| SessionAgreement.StoresAgree | apps/server/src/mcp-session.dynamodb-store.ts:69-189 | over whole runs in which no open has a live tie at its cut the two stores answer alike until a request hits a session's last second |
| PanelChain.PanelKeyIsInjective | apps/web/lib/panel-chain.ts:47 | a key names one resource and is never empty |
| PanelChain.PanelKeyIs | apps/web/lib/panel-chain.ts:47 | the key is the kind's name, a colon and the id |
| PanelChain.OnePass | apps/web/lib/panel-chain.ts:73-82 | one pass of the loop and its flag |
| PanelChain.FindBranch | apps/web/lib/panel-chain.ts:68-85 | the loop until nothing grew ends at the fixpoint |
| PanelChain.BranchIsLeast | apps/web/lib/panel-chain.ts:68-85 | for any list the branch is the least set with the panel and everything opened from a member |
| PanelChain.FixpointIsLeast | apps/web/lib/panel-chain.ts:70-83 | repeated passes reach the least closed set above the start |
| PanelTree.BranchIsSubtree | apps/web/lib/panel-chain.ts:67-85 | in a list that shows a tree the first pass finds exactly the subtree and the second adds nothing |
| PanelTree.InsertIsInsertAfter | apps/web/lib/panel-chain.ts:115-120 | inserting right after the source in the list is inserting as first child in the tree |
| PanelTree.BranchIsBlock | apps/web/lib/panel-chain.ts:139-140 | a branch is one contiguous block of the list |
| PanelRuns.FilterIsPrune | apps/web/lib/panel-chain.ts:139-141 | filtering the branch out of the list is pruning the tree |
| PanelRuns.StepKeepsInv | apps/web/lib/panel-chain.ts:94-150 | every action keeps the list a preorder, the open order and the focus true, and the focus counter from falling |
| PanelRuns.ReachableShowsTree | apps/web/lib/panel-chain.ts:49-150 | every reachable state shows a tree in preorder, with the root card first for good and the open order listing exactly the non-root keys, sources first |
| PanelRuns.FocusStaysOnAPanel | apps/web/lib/panel-chain.ts:131-138 | once some panel has the focus an open panel always has it |
| PanelRuns.FocusFollows | apps/web/lib/panel-chain.ts:98-148 | in every reachable state an open, fresh or repeated, gives the focus to the key it asked for, a close of the branch that has it to the tree parent of the closed panel, each counting one up, and any other close leaves it |
| PanelRuns.OpenShows | apps/web/lib/panel-chain.ts:99-124 | a fresh open puts the panel right behind its source and last in the open order; a repeated one changes neither, and one from a panel that is not open changes nothing |
| PanelRuns.CloseFocuses | apps/web/lib/panel-chain.ts:125-144 | where a close leaves the focus, and that closing the root or a panel that is not open changes nothing |
| PanelRuns.SourceStandsLeft | apps/web/lib/panel-chain.ts:34-35 | every source stands strictly left of what it opened |
| PanelRuns.CloseCutsOneBlock | apps/web/lib/panel-chain.ts:125-144 | a close deletes one contiguous block: the panel and all opened from it |
| PanelRuns.EscapeClosesOne | apps/web/lib/panel-chain.ts:145-148 | Escape closes exactly the panel opened last, which is a leaf |
| PanelRuns.EscapeUndoesOpen | apps/web/lib/panel-chain.ts:98-148 | Escape right after a fresh open restores panels and open order |
| PanelRuns.EscapesReachTheRoot | apps/web/lib/panel-chain.ts:145-148 | one Escape an open panel leaves the root card alone |
| PanelRuns.PanelsAndOrder | apps/web/lib/panel-chain.ts:33-40 | there is one panel more than opens to unwind |
| Crc32.MakeEntry | apps/web/lib/zip.ts:18-21 | the inner loop takes eight division steps from the index |
| Crc32.MakeTable | apps/web/lib/zip.ts:15-25 | the outer loop fills the table with those entries |
| Crc32.TableIsLinear | apps/web/lib/zip.ts:15-25 | the entry of an exclusive or is the exclusive or of the entries |
| Crc32.LookupIsEightShifts | apps/web/lib/zip.ts:30 | one table lookup is eight bitwise division steps |
| Crc32.ComputeCrc | apps/web/lib/zip.ts:27-33 | the loop computes the register after every byte, complemented |
| Crc32.FeedAllIsBitwise | apps/web/lib/zip.ts:27-33 | feeding bytes is feeding their bits, lowest first |
| Crc32.CrcIsLongDivision | apps/web/lib/zip.ts:15-33 | for every byte string the checksum is the complement of the remainder of long division by the generator |
| Crc32.GeneratorIs | apps/web/lib/zip.ts:20 | the generator has exactly the powers of x that section 8 of RFC 1952 names |
| Zip.Concat | apps/web/lib/zip.ts:48-57 | the buffer filled chunk by chunk is the chunks in order |
| Zip.CreateZip | apps/web/lib/zip.ts:67-134 | the pass with its running offset builds local records, directory and end record |
| Zip.Read16 | apps/web/lib/zip.ts:35-37 | a 16-bit field reads back as the number modulo 2^16 |
| Zip.Read32 | apps/web/lib/zip.ts:39-46 | a 32-bit field reads back as the number modulo 2^32 |
| Zip.EndIsLast | apps/web/lib/unzip.ts:28-38 | the scan finds the last end signature, and none only when there is none |
| Zip.ScanForEnd | apps/web/lib/unzip.ts:28-38 | the backward loop does that |
| Zip.WalkDirectory | apps/web/lib/unzip.ts:44-70 | the loop over the directory collects the files and stops at the first error |
| Zip.ReadZip | apps/web/lib/unzip.ts:25-73 | the reader with its four ways to fail: no end record, a bad header, a read out of range, a bad payload |
| ZipRoundTrip.FirstProbeHits | apps/web/lib/unzip.ts:28-42 | on a written archive the scan stops at the true end record at once, whatever the payloads hold, and its count, size and offset are true |
| ZipRoundTrip.CentralReads | apps/web/lib/unzip.ts:45-54 | the reader finds in a directory record the method, sizes, lengths and offset the writer put there |
| ZipRoundTrip.LocalReads | apps/web/lib/unzip.ts:56-61 | the reader finds behind a local header the lengths and the content |
| ZipRoundTrip.EntryReads | apps/web/lib/unzip.ts:44-70 | one round recovers one entry and lands on the next record |
| ZipRoundTrip.ReadsBack | apps/web/lib/unzip.ts:25-73 | within the size limits reading what was written gives the files among the entries the count can tell |
| ZipRoundTrip.RoundTrip | apps/web/lib/unzip.ts:25-73 | the round trip keeps every file if and only if none stands beyond the wrapped count, so always below 2^16 entries |
| ZipRoundTrip.WrappedCountIsLost | apps/web/lib/zip.ts:126-127 | an archive of 2^16 files reads back as none |
| ZipRoundTrip.RecordsAreTrue | apps/web/lib/zip.ts:67-134 | each directory record points at its own local header, which carries the true checksum, size and name with the content behind |
| ZipRoundTrip.HeadersAreTrue | apps/web/lib/zip.ts:79-118 | every field of both headers of every file, checksum, sizes, flags and versions included, and that the directory's points at the file's own |
| ZipRoundTrip.EndRecordTells | apps/web/lib/zip.ts:121-131 | every field of the end record |
| ZipRoundTrip.ChecksumIsLongDivision | apps/web/lib/zip.ts:76 | the checksum in the headers is the complemented remainder of long division of the content's bytes |
| ZipRoundTrip.OneEntryReadsBack | apps/web/lib/unzip.ts:64-67 | an entry reads back as itself unless its path ends in a slash |
| ZipForeign.ForeignReads | apps/web/lib/unzip.ts:25-73 | an archive any tool wrote, with extra fields, comments, other local names, members anywhere and compressed ones, reads as its files, stored ones as they stand and the others inflated |
| ZipForeign.NotZipExactly | apps/web/lib/unzip.ts:28-38 | the reader finds no archive exactly when no end signature stands 22 bytes or more before the end |
| ZipForeign.BadHeaderIsTold | apps/web/lib/unzip.ts:45-47 | a directory record is called bad exactly when its four bytes are there and are not the signature |
| Chunker.ConversationChunker.constructor | apps/watcher/src/chunker.ts:69-78 | the overlap is capped below the flush size |
| Chunker.ConversationChunker.Append | apps/watcher/src/chunker.ts:81-114 | buffers the text with its ids and hint, and sends the buffer when its running length reaches the cap |
| Chunker.ConversationChunker.Extend | apps/watcher/src/chunker.ts:90-105 | the running counters equal what the ledger says they count |
| Chunker.ConversationChunker.Flush | apps/watcher/src/chunker.ts:140-172 | sends what is fresh with its own hash, keeps the tail as overlap or drops the buffer, and drops one with nothing fresh |
| Chunker.ConversationChunker.FlushIdle | apps/watcher/src/chunker.ts:117-135 | sends exactly the conversations silent long enough that have fresh text, in order, and drops all silent ones |
| Chunker.ConversationChunker.FlushAll | apps/watcher/src/chunker.ts:138-142 | sends everything fresh in order and leaves nothing |
| ChunkerRuns.ChunksConserve | apps/watcher/src/chunker.ts:44-181 | over any run ending in a full flush each conversation's non-empty texts leave exactly once and in order; `ChunkerSolo.ChunkTextsConserve` says it of the chunks returned |
| ChunkerRuns.RunConserves | apps/watcher/src/chunker.ts:81-166 | at any moment what left and what waits is what was said |
| ChunkerRuns.SeedsAreTails | apps/watcher/src/chunker.ts:149-161 | each carried prefix is the tail of the conversation's previous chunk, which left by size; the first carries none |
| ChunkerRuns.TailMeans | apps/watcher/src/chunker.ts:168-181 | a tail is a proper suffix within the overlap that starts right behind the window's first line break, or is the window |
| ChunkerRuns.ChunksAreBounded | apps/watcher/src/chunker.ts:107-114 | buffers stay below the cap, a chunk sent by size is at least the cap less one and at most the cap plus its last text, and no chunk is pure overlap |
| ChunkerRuns.OverlapIsCapped | apps/watcher/src/chunker.ts:73-77 | the overlap the constructor settles on is zero or below the flush size, which the results on runs need |
| ChunkerRuns.LengthIsJoined | apps/watcher/src/chunker.ts:29-31 | the running length is the joined length, plus one for a buffer without a seed |
| ChunkerRuns.TextStrips | apps/watcher/src/chunker.ts:149-151 | a chunk is its carried prefix, a line break, and what was said since |
| ChunkerRuns.IdsLeaveWithTheirText | apps/watcher/src/chunker.ts:100-105 | a chunk's recalled ids are exactly those passed with the texts it carries, each once |
| ChunkerSolo.ReturnsAsSolo | apps/watcher/src/chunker.ts:81-181 | over any run the chunks the methods return for a conversation, with text, hash, hint and ids, are those the conversation on its own would send at those calls |
| ChunkerSolo.ChunkTextsConserve | apps/watcher/src/chunker.ts:81-181 | over any run ending in a full flush the texts of a conversation's chunks, each without the tail of the chunk before, join to the texts appended |
| ChunkerSolo.ReturnedAreBounded | apps/watcher/src/chunker.ts:107-172 | a returned chunk's hash is its text's; one a text sets off is at least the cap less one and at most the cap plus that text, any other is below the cap |
| ChunkerSolo.NextChunkCarries | apps/watcher/src/chunker.ts:149-172 | the chunk after one sent by size starts with that one's tail |
| ChunkerSolo.IdleSendsExactly | apps/watcher/src/chunker.ts:117-135 | an idle flush sends a conversation exactly when it has something unsent and said its last at least the idle time ago |
| ChunkerSolo.HintIsLatest | apps/watcher/src/chunker.ts:99 | a chunk carries the latest hint given with its conversation's texts since nothing was held of it |
| Tailing.ZerosAreNotTaken | apps/watcher/src/watcher.ts:180-191 | what a short read leaves unfilled in the buffer never counts as a line |
| Tailing.TranscriptTail.BeginScan | apps/watcher/src/watcher.ts:138-142 | a scan enters exactly when none runs and the watcher has not stopped |
| Tailing.TranscriptTail.NextOffset | apps/watcher/src/watcher.ts:171 | a file is read on from its stored offset, or from its start |
| Tailing.TranscriptTail.OnMeasured | apps/watcher/src/watcher.ts:172-180 | a file that is gone or has nothing new is passed over, else all behind the offset is to be read |
| Tailing.TranscriptTail.Commit | apps/watcher/src/watcher.ts:186-192 | whatever the read got, keeps the complete lines in it and moves the stored offset past them |
| Tailing.TranscriptTail.EndScan | apps/watcher/src/watcher.ts:154-157 | the guard opens again when a scan ends, however it ends |
| Tailing.CompleteIsLongest | apps/watcher/src/watcher.ts:186-191 | the complete part of a text is its longest prefix that is empty or ends a line |
| Tailing.LineEndGrows | apps/watcher/src/watcher.ts:186-192 | reading on from a line end finds where the longer text's complete lines end |
| Tailing.ScansStayOk | apps/watcher/src/watcher.ts:138-158 | in any interleaving one scan at most is under way and it works from the stored offset |
| Tailing.SlicesAreCompleteLines | apps/watcher/src/watcher.ts:138-192 | over any schedule of scans of growing files, from any stored line-end offsets and with reads that come back short, the slices concatenate to what the longest newline-terminated prefix of the bytes read so far holds behind the stored offset |
| Tailing.EveryLineOnce | apps/watcher/src/watcher.ts:186-195 | read slice by slice each complete line behind the offset the watcher resumed at comes out once and in order |
| Tailing.ScanCatchesUp | apps/watcher/src/watcher.ts:170-192 | from any state an undisturbed scan catches up with the file |
| SendQueue.RetryQueue.Enqueue | apps/watcher/src/watcher.ts:242-246 | the loop appends the chunks in order |
| SendQueue.RetryQueue.BeginDrain | apps/watcher/src/watcher.ts:248-255 | a drain starts only when none runs, with the head of the queue |
| SendQueue.RetryQueue.OnSent | apps/watcher/src/watcher.ts:267-268 | an acknowledgement removes the head, resets the backoff and goes on with the next |
| SendQueue.RetryQueue.OnFailed | apps/watcher/src/watcher.ts:269-282 | a failure keeps the queue and waits the backoff, or ends the drain when stopping |
| SendQueue.RetryQueue.OnTimer | apps/watcher/src/watcher.ts:282-283 | after the wait the backoff doubles up to its cap and the head goes out again |
| SendQueue.RetryQueue.Halt | apps/watcher/src/watcher.ts:128-136 | a stop queues what the chunker still held behind the rest and starts a drain unless one runs |
| SendQueue.StepKeepsQueued | apps/watcher/src/watcher.ts:242-289 | every step keeps one drainer at most, the head out, and acknowledged plus waiting equal to enqueued |
| SendQueue.DeliveredInOrder | apps/watcher/src/watcher.ts:242-289 | under any interleaving the acknowledged chunks are a prefix of the enqueued and the queue is the remainder |
| SendQueue.EnqueuedIsGiven | apps/watcher/src/watcher.ts:128-136 | what was enqueued is what the calls gave, the final flush of a stop included |
| SendQueue.BackoffStaysInRange | apps/watcher/src/watcher.ts:276-284 | the backoff is 2 s doubled once a failure since the last acknowledgement, never outside 2 s to 60 s |
| SendQueue.FailuresDoubleTheWait | apps/watcher/src/watcher.ts:269-284 | while sends fail the head goes out again and again, nothing is lost, and each wait is twice the last, up to 60 s |
| SendQueue.AcksEmptyTheQueue | apps/watcher/src/watcher.ts:254-268 | once the server answers, the drain under way sends everything that waits |
| Csv.ParseCsv | scripts/rule-gate.utils.ts:240-276 | the one-pass loop computes the table of the grammar, without all-blank rows |
| Csv.FieldReadsBack | scripts/rule-gate.utils.ts:233-234 | a printed field reads back as its value up to what ends it |
| Csv.FieldIs | scripts/rule-gate.utils.ts:233-234 | a field prints as itself exactly when it holds no quote, comma or line break, else in quotes with its own doubled |
| Csv.QuotesReadAnywhere | scripts/rule-gate.utils.ts:248-259 | quotes that open in the middle of a field are taken off and what they hold is kept |
| Csv.OpenQuoteRunsOut | scripts/rule-gate.utils.ts:248-275 | a quote never closed runs to the end of the text |
| Csv.AnyBreakReadsBack | scripts/rule-gate.utils.ts:263-275 | a table written with CR, LF or both, with or without a last break, gives back every row with a non-blank cell |
| Csv.LineReadsBack | scripts/rule-gate.utils.ts:236-237 | a printed row reads back as its cells |
| Csv.RoundTrip | scripts/rule-gate.utils.ts:232-276 | parsing a printed table gives every row with a non-blank cell, quotes, commas and line breaks included |
| Csv.ExactRoundTrip | scripts/rule-gate.utils.ts:236-276 | a table comes back unchanged if and only if every row has a cell with something but white space in it |
| Csv.ParsedIsStable | scripts/rule-gate.utils.ts:236-276 | printing and parsing a parsed table changes nothing, for every text |
| StableJson.KeyOrderIsInvisible | apps/web/lib/markdown-memory.ts:44-65 | JSON that differs only in the order of keys, at any depth, prints alike |
| StableJson.ShufflingIsInvisible | apps/web/lib/markdown-memory.ts:55-64 | shuffling an object's members prints alike |
| StableJsonInverse.EqualTextsExactly | apps/web/lib/markdown-memory.ts:44-65 | two values print alike if and only if they are the same JSON up to key order, undefined members and arrays of nothing but one undefined item |
| StableJsonInverse.EqualTextsOfSolid | apps/web/lib/markdown-memory.ts:44-65 | of values with nothing undefined, equal texts are exactly the same JSON up to key order |
| StableJsonInverse.EveryReads | apps/web/lib/markdown-memory.ts:48-65 | no value's text starts another's unless they are alike |
| StableJsonInverse.UndefinedIsLost | apps/web/lib/markdown-memory.ts:52-54 | an array of one undefined item prints like the empty one |
| StableJson.SortedIsAscending | apps/web/lib/markdown-memory.ts:55-56 | the sort puts distinct keys in ascending order and keeps them |
| StableJson.LessIsBefore | apps/web/lib/markdown-memory.ts:56 | the order of the sort is that of texts, the first difference deciding |
| JsonReader.TextReadsAsValue | apps/web/lib/markdown-memory.ts:44-65 | read by the JSON grammar the text is the value it was printed from, up to key order, with nothing left over |
| MarkdownMemory.ReadFrontmatter | apps/web/lib/markdown-memory.ts:159-169 | the loop collects what the line grammar accepts |
| MarkdownMemory.ParseMemoryFile | apps/web/lib/markdown-memory.ts:176-195 | the parser: frontmatter, body, marker split |
| MarkdownMemory.LineReadsBack | apps/web/lib/markdown-memory.ts:162 | a line reads back as its key and value, whatever blanks stand around the value |
| MarkdownMemory.ReadLineNeedsKey | apps/web/lib/markdown-memory.ts:162 | a line that is read starts with a key of small letters and underscores and a colon, and has a value |
| MarkdownMemory.LaterLineCounts | apps/web/lib/markdown-memory.ts:163-165 | of two lines with one key the later counts |
| MarkdownMemory.CloseIsFirst | apps/web/lib/markdown-memory.ts:42 | the first closing line is the renderer's, whatever dashes the body holds |
| MarkdownMemory.MatchIsLocal | apps/web/lib/markdown-memory.ts:39 | a marker before a line break is seen without what follows it |
| MarkdownMemory.FieldsRecovered | apps/web/lib/markdown-memory.ts:119-169 | each non-empty field comes back under its key and no other key does |
| MarkdownMemory.FrontmatterIs | apps/web/lib/markdown-memory.ts:125-137 | which scalar of the memory comes back under which of the eleven keys |
| MarkdownMemory.RenderIs | apps/web/lib/markdown-memory.ts:119-146 | the whole file, its lines in their order, the empty ones left out, and the original behind its marker |
| MarkdownMemory.RoundTrip | apps/web/lib/markdown-memory.ts:119-195 | for single-line trimmed scalars and trimmed non-empty content, parsing the rendered file recovers scalars, content, original and language if and only if the content holds no marker and the language is one word |
| MarkdownMemory.BareMarkerReads | apps/web/lib/markdown-memory.ts:181-194 | a marker that names no language parts content and original all the same |
| MarkdownMemory.MarkerInContentIsLost | apps/web/lib/markdown-memory.ts:181-194 | a renderable memory whose content holds a marker line does not come back |
| MarkdownMemory.TwoWordLanguageIsLost | apps/web/lib/markdown-memory.ts:139-143 | nor does one whose original is in a language named by two words |
| MarkdownMemory.NoFrontmatter | apps/web/lib/markdown-memory.ts:170-183 | a file that opens no frontmatter block, or never closes it, is all body |
| MarkdownMemory.ReexportIsIdentical | apps/web/lib/markdown-memory.ts:119-123 | a source whose keys came back in another order renders to the same file |
| MarkdownMemory.DiffShowsSource | apps/web/lib/markdown-memory.ts:119-146 | two exports that differ in the source alone are equal files if and only if the sources are the same JSON |
| RateLimiter.CounterTable.Increment | apps/server/src/rate-limit.dynamodb-limiter.ts:48-62 | one atomic increment that sets the expiry only once |
| RateLimiter.DynamoDbRateLimiter.Hit | apps/server/src/rate-limit.dynamodb-limiter.ts:44-71 | counts the request in its aligned window's bucket and decides on the new count |
| RateLimiter.WindowAllowsExactly | apps/server/src/rate-limit.dynamodb-limiter.ts:44-66 | in every run each aligned window lets through exactly the smaller of its requests and the limit |
| RateLimiter.AtMostTwiceTheLimit | apps/server/src/rate-limit.dynamodb-limiter.ts:21-26 | in every run any interval of one window length lets a key through at most twice the limit |
| RateLimiter.TwiceTheLimitHappens | apps/server/src/rate-limit.dynamodb-limiter.ts:24-25 | two bursts across a boundary do pass twice the limit |
| RateLimiter.WaitLandsInALaterWindow | apps/server/src/rate-limit.dynamodb-limiter.ts:67-70 | a denied caller who waits as told lands in a later window, less than a second past its start |
| RateLimiter.CounterOutlivesItsWindow | apps/server/src/rate-limit.dynamodb-limiter.ts:57-58 | a counter is gone only when no instance can still read a time in its window |
| RateLimiter.GraceCoversAMinute | apps/server/src/rate-limit.dynamodb-limiter.ts:57-58 | the limit holds in every run if and only if instances are at most a minute behind |
| RateLimiter.LateReadingPassesTwice | apps/server/src/rate-limit.dynamodb-limiter.ts:57-58 | the run in which an instance over a minute behind finds its counter deleted |
| LiveRefresh.RefreshScheduler.Nudge | apps/web/lib/live-refresh.ts:17-23 | keeps the first pending time and sets the timer to the settle time or what is left of the maximum |
| LiveRefresh.RefreshScheduler.Flush | apps/web/lib/live-refresh.ts:13-16 | nothing is pending after a refresh |
| LiveRefresh.TimerFollowsNudges | apps/web/lib/live-refresh.ts:11-23 | however late timers fire, one is armed exactly while a nudge is pending, its due time is the earlier of last nudge plus settle and first nudge plus maximum, and refreshes never outnumber nudges |
| LiveRefresh.EveryNudgeIsAnswered | apps/web/lib/live-refresh.ts:2-5 | with timers never late, or nudges further apart than timers are late, every nudge is answered within the maximum wait and twice the lateness, or has waited no longer |
| LiveRefresh.OnTimeEveryNudgeIsAnswered | apps/web/lib/live-refresh.ts:2-5 | with timers on time that holds of every run, with the maximum wait as the bound |
| LiveRefresh.BoundedExactlyWhenSteady | apps/web/lib/live-refresh.ts:17-23 | a pending nudge's wait has a bound if and only if timers are never late or nudges come further apart than timers are late |

## Left out

- AWS, Supabase and MCP clients, fetch loops, deployment code, React components and schemas: I/O or declarations. DynamoDB is an atomic conditional write on one item plus lazy TTL deletion; clocks, generated ids, index answers and what other instances write meanwhile are parameters.
- UTF-8 coding, SHA-256 and DEFLATE: ZIP names and contents are bytes, the chunk hash and the inflater are parameters, and `JSON.stringify` of a string is a parameter of the JSON printer.
- Regular expressions are written out as the grammars they accept; a frontmatter key `__proto__`, which the renderer never writes, is an ordinary key here.
- The JSON printer's strings: `JSON.stringify` is taken to start every string with a quote and to write no string as the beginning of another, and numbers as JSON writes them; for `JsonReader.TextReadsAsValue` what reads a string literal is a parameter as well.
- Strings are sequences of characters, not UTF-16 code units, so the key sort orders supplementary characters by code point; the result does not depend on the order.
- WorkClaims.DynamoDbWorkClaims.UnderClaim: the call without a claims object, which runs unguarded by design.
- SessionRuns.SweepsAreUnobservable: speaks of the answers of resumes, in runs with closes of any kind; the ids an open returns and the answer of a close on an already idle session do depend on sweeps, and the HTTP path closes only after a successful resume.
- SessionAgreement.StoresAgree: takes requests stamped with the clock, no races between opens, no open with a live tie at its cut (there the stores do differ, by `SessionAgreement.TieTellsThemApart`), and the global cap, which the table does not have, not reached.
- The readers of cap settings from the environment: a number and a default.
- `isPanelKind`, `isPanelId` and `parsePanelHref`: single pattern matches.
- Zip.CreateZip: sizes beyond 32 bits are truncated as the code does and not said to be readable; the round trip is stated within the size limits.
- Chunker.ConversationChunker.FlushDue: one loop stands for the two loops of the idle and the full flush, which differ only in which conversations are due.
- Crash durability of the watcher: the offset moves before the chunk is sent (apps/watcher/src/watcher.ts:192), and whether an unsent chunk is read again after a restart, as the comment at apps/watcher/src/watcher.ts:270-272 has it, is not modelled; delivery is stated as a prefix of what was enqueued.
- Tailing.SlicesAreCompleteLines: files only grow, and a stored offset lies within its file at a line end, which is where the watcher leaves it; a file that was cut or replaced is not followed.
- Transcript parsing, project hints and the consent gate between tailing and chunking.
- `memorySlug` and `memoryFilePath`: naming of export files.
- MarkdownMemory.RoundTrip: scalars with Unicode line separators and untrimmed texts are not among its inputs, as the renderer's callers do not promise them back.
- LiveRefresh.TimerFollowsNudges: one clock drives both the stamps and the timers; a wall clock set back is not modelled.
