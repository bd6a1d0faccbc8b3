# A verified model of the Pritrak DLP agent and its device registry

The system is a data-loss-prevention product. A Windows minifilter driver refuses file operations
according to a policy cache, a process-taint table and two mode flags, and reports what it refused
through a notification queue. A user-mode agent classifies file and clipboard text, keeps events in
an offline outbox, evaluates policy rules and sends telemetry as JSON. A Go backend keeps a registry
of devices and cuts context windows around matches. This project models the parts of it that hold
state over long runs or transform data, and proves what they promise for every input, every run and
every reachable state.

`dafny verify dfyconfig.toml` checks everything. Each `X.dfy` holds one module `X`.

| part | modules |
|---|---|
| policy cache | `PolicyTypes`, `CacheModel` (LRU list and counters as a value), `CacheTable` (pool, chains, counts and LRU list as a value), `CacheHistory` (answers, lifetimes and counters from the history of operations), `IntrusiveList` (rings of links in the heap), `HandleList` and `CacheLists` (the chains and the LRU list as such rings), `PolicyCache` (the class), `CacheReference` (a plain map with expiry), `CacheRuns` (whole runs) |
| enforcement | `ProcessTracker`, `NotifyQueue`, `Driver` (decisions as functions of a driver state), `DriverSafety`, `DriverHistory`, `Taint` and `ReadHistory` (decisions and records from the history of events), `DriverRuns` (whole runs), `Minifilter` (the callbacks as methods on the driver's globals) |
| clipboard | `Clipboard` (the capture protocol), `ClipText` |
| codecs | `Utf8`, `Transcode`, `Luhn`, `Json`, `JsonUtf8`, `JsonWriter`, `EventSender`, `ContextWindow` |
| agent and backend state | `Outbox`, `OutboxRuns`, `OutboxSync`, `PolicyRules` (when a rule matches), `PolicyEngine`, `RuleEffect`, `DeviceRegistry`, `DeviceHistory` (records from the history of calls) |

The classes meet the theorems in five executable runs: `PolicyCache.ExecuteRun`,
`Minifilter.ExecuteDriver`, `NotifyQueue.ExecuteQueue`, `OutboxSync.ExecuteSync` and
`DeviceHistory.ExecuteRegistry` take any script of operations and promise the properties of its outcome.
Those of the cache, the driver and the registry are told from the history of the script alone, with the
limits, times and bit positions written out.

## How the model reads the source

- Each public operation of the cache, the tracker, the registry and the outbox is one atomic step at
  one clock reading. The two passes of a lookup (shared lock, then exclusive lock) and the repeated
  chain walks of an insert are therefore one walk. Where interleaving is the point (notification
  queue, clipboard, outbox pass) the steps are the accesses to shared state and every interleaving
  of them is a run.
- Allocation, message delivery, `COMMIT` results, `OpenClipboard` results, clock readings and fresh
  identifiers are parameters. A monotone clock is a hypothesis only where a lemma says so.
- Words keep their width in the types (`U32`, `U64`), with the wrap-around of the 64-bit expiration
  sum and elapsed time written out; counters do not overflow and clipboard sequence numbers do not
  wrap. Masks and shifts are written with division and remainder by powers of two.
- An entry address is a handle into a pool. Every entry has a link in the ring of its hash chain and
  another in the ring of the LRU list, and both lead to its one copy in the pool.

## Where code and documentation disagree

The model follows the code.

- A context window is documented to span at most `contextSize` runes; the code returns the match and
  up to `contextSize` runes more (`ContextWindow.DocumentedBoundFails`). It is also
  documented not to panic; for sizes 1 to 3 and a match that starts inside a four-byte character the
  slice bounds cross (`ContextWindow.SmallSizesFail`), for all other sizes they never do
  (`ContextWindow.NeverOutOfRange`). Exactly when both promises are kept, on any bytes, offset, length
  and size, is `ContextWindow.DocumentedBoundIff`: the arguments are rejected, or the match is no longer
  than what the text lacks around it and not so much shorter that the bounds cross.
- `SyncEvents` speaks of one consistent pass, but asks two queries. They agree if and only if no row
  stored between them sorts ahead of the batch (`Outbox.QueriesAgreeIff`), which a non-decreasing
  clock ensures and a clock set back does not (`OutboxRuns.ClockBackLosesRow`).
- "Will retry" after a failed acknowledgement holds until an acknowledgement reaches its `COMMIT`
  (`OutboxRuns.RetriedUntilMarked`). A failed `COMMIT` is not rolled back: if the database leaves the
  transaction open, its rows are not retried and no later acknowledgement can begin
  (`OutboxRuns.LeftOpenReached`, `OutboxRuns.OpenForGood`).
- A pass that can read no row of its batch ends without a send and marks nothing. A full batch of such
  rows therefore stays at the head and no later row is ever sent (`OutboxRuns.UnreadableBatchBlocks`);
  in every other case a send can still be reached (`OutboxRuns.CanSendIff`).
- The telemetry score is a `double` written as a stream writes it. One that is not finite makes the
  whole batch no JSON (`EventSender.NanScoreFails`), and only that does (`EventSender.BatchParsesIff`).
- The queue's event is a notification event that nothing resets, so the worker can sleep
  if and only if no producer has ever signalled (`NotifyQueue.SleepsIff`).
- `LoadRules` that throws keeps the rules read so far, unsorted. What is then decided is still right
  exactly when the first applying rule is representative (`PolicyEngine.UnsortedDecisionIff`); two
  rules on which it is not are in `PolicyEngine.FailedLoadMisorders`.
- The byte bound `cap + 1` of `Latin1ToUtf8` fails for a cap of zero and a first byte above 0x7F, and
  only then (`Transcode.Latin1ToUtf8`).
- An insert into a full cache evicts before it finds out that it only updates or cannot allocate. What
  is then lost is stated by `CacheRuns.InsertLosesIff` and `CacheRuns.FailedInsertShrinksIff`.
- The limit set by a configuration message has no lower clamp and evicts nothing. The cache gets above
  its limit by storing a new file while all entries are pinned or by a lowered limit, and in no other
  way (`CacheRuns.LeavesLimitIff`), and storing new files never brings it back
  (`CacheRuns.NewFilesKeepExcess`).

## Model

| member | source | states |
|---|---|---|
| PolicyTypes.HashFileId | agent/kernel/minifilter/dlp_kernel_types.h:385-402 | the hash of volume and file number is always an index into the bucket array |
| PolicyTypes.WithValid | agent/kernel/minifilter/dlp_policy_cache.c:450-451 | setting VALID leaves PERMANENT and PINNED as they were |
| CacheTable.EntryAt | agent/kernel/minifilter/dlp_policy_cache.c:215-231 | file identities are unique over all entries, and an entry is found where the LRU list has it |
| CacheTable.AbsentFromChain | agent/kernel/minifilter/dlp_policy_cache.c:215-231 | an identity missing from its own chain is in no entry of the cache |
| CacheTable.LinkKeeps | agent/kernel/minifilter/dlp_policy_cache.c:482-499 | linking a new identity keeps every entry in exactly its hash bucket, the LRU list a permutation of all entries and the counts exact, and appends it in LRU order |
| CacheTable.UnlinkKeeps | agent/kernel/minifilter/dlp_policy_cache.c:540-578 | unlinking one chain position keeps buckets, LRU list, pool and counts in step |
| CacheTable.UnlinkShows | agent/kernel/minifilter/dlp_policy_cache.c:564-578 | and takes exactly that entry out of the LRU order |
| CacheTable.RewriteKeeps | agent/kernel/minifilter/dlp_policy_cache.c:416-426 | an in-place update changes that entry's policy, not its place |
| CacheTable.TouchKeeps | agent/kernel/minifilter/dlp_policy_cache.c:749-769 | moving an entry to the most recently used end keeps the structure and the order of the rest |
| CacheTable.HitKeeps | agent/kernel/minifilter/dlp_policy_cache.c:248-256 | a hit is both: new access time, most recently used place |
| CacheTable.EmptyChains | agent/kernel/minifilter/dlp_policy_cache.c:603-623 | when all chains are empty, every entry has been freed |
| IntrusiveList.InsertHeadList | agent/kernel/minifilter/dlp_policy_cache.c:486 | splicing a link in behind the head of a ring in the heap gives the ring with it in front |
| IntrusiveList.InsertTailList | agent/kernel/minifilter/dlp_policy_cache.c:495 | and before the head the ring with it at the end |
| IntrusiveList.RemoveEntryList | agent/kernel/minifilter/dlp_policy_cache.c:552 | splicing a link out by its own two pointers gives the ring without it |
| HandleList.List.First | agent/kernel/minifilter/dlp_policy_cache.c:217 | the entry behind the head, or none in an empty ring |
| HandleList.List.Following | agent/kernel/minifilter/dlp_policy_cache.c:230 | the next entry of the ring, or none at its end |
| HandleList.List.InsertHead | agent/kernel/minifilter/dlp_policy_cache.c:486 | a new entry first, the others in order |
| HandleList.List.InsertTail | agent/kernel/minifilter/dlp_policy_cache.c:495 | a new entry last, the others in order |
| HandleList.List.Remove | agent/kernel/minifilter/dlp_policy_cache.c:552 | exactly that entry gone |
| HandleList.List.MoveToTail | agent/kernel/minifilter/dlp_policy_cache.c:763-764 | the same link taken out and put in last |
| HandleList.List.Reset | agent/kernel/minifilter/dlp_policy_cache.c:627 | an empty ring whatever the links pointed to |
| HandleList.Apart | agent/kernel/minifilter/dlp_kernel_types.h:82-84 | lists of different numbers share no link |
| CacheLists.Lists.InsertHead | agent/kernel/minifilter/dlp_policy_cache.c:486 | a change to one chain leaves all other chains and the LRU list as they were |
| CacheLists.Lists.InsertTail | agent/kernel/minifilter/dlp_policy_cache.c:495 | likewise for the LRU list |
| CacheLists.Lists.Remove | agent/kernel/minifilter/dlp_policy_cache.c:552-571 | likewise for an entry unlinked from one of its two lists |
| CacheLists.Lists.MoveToTail | agent/kernel/minifilter/dlp_policy_cache.c:749-769 | likewise for a touch |
| PolicyCache.PolicyCache.constructor | agent/kernel/minifilter/dlp_policy_cache.c:62-121 | an empty, consistent cache with clamped limit and default TTL |
| PolicyCache.PolicyCache.FindInBucket | agent/kernel/minifilter/dlp_policy_cache.c:212-231 | the walk along the chain's links finds the entry if and only if the cache has one |
| PolicyCache.PolicyCache.TouchEntry | agent/kernel/minifilter/dlp_policy_cache.c:749-769 | the whole new state after the link is moved in the LRU ring |
| PolicyCache.PolicyCache.LookupPolicy | agent/kernel/minifilter/dlp_policy_cache.c:194-277 | invariant kept; answer, LRU move and counters of a lookup, expired entries staying in place |
| PolicyCache.PolicyCache.QuickLookupClassification | agent/kernel/minifilter/dlp_policy_cache.c:292-340 | answer and counters, two misses for an expired entry, no LRU move |
| PolicyCache.PolicyCache.InsertPolicy | agent/kernel/minifilter/dlp_policy_cache.c:356-508 | eviction when full, then update in place or a new entry or an allocation failure, with every field of the new state |
| PolicyCache.PolicyCache.UpdateInPlace | agent/kernel/minifilter/dlp_policy_cache.c:403-439 | the updated entry keeps its LRU place |
| PolicyCache.PolicyCache.LinkNew | agent/kernel/minifilter/dlp_policy_cache.c:441-508 | the new entry at the most recently used end; high-water mark |
| PolicyCache.PolicyCache.LinkLists | agent/kernel/minifilter/dlp_policy_cache.c:485-499 | both links spliced in: chains, LRU ring, pool and counts become those of the value-level link |
| PolicyCache.PolicyCache.RemovePolicy | agent/kernel/minifilter/dlp_policy_cache.c:524-582 | removes exactly the entry of that identity, or reports it missing |
| PolicyCache.PolicyCache.UnlinkLists | agent/kernel/minifilter/dlp_policy_cache.c:552-578 | both links spliced out: the value-level unlink |
| PolicyCache.PolicyCache.FindVictim | agent/kernel/minifilter/dlp_policy_cache.c:704-733 | the walk along the LRU ring stops at the first unpinned entry |
| PolicyCache.PolicyCache.EvictOldestEntry | agent/kernel/minifilter/dlp_policy_cache.c:697-744 | removes the first unpinned entry of the LRU list, never a pinned one |
| PolicyCache.PolicyCache.ClearCache | agent/kernel/minifilter/dlp_policy_cache.c:591-634 | empties list, chains and counts and raises the version |
| PolicyCache.PolicyCache.FreeAllChains | agent/kernel/minifilter/dlp_policy_cache.c:603-623 | the loop over the buckets frees every entry and leaves the LRU ring stale |
| PolicyCache.PolicyCache.FreeChain | agent/kernel/minifilter/dlp_policy_cache.c:608-618 | the inner loop empties one chain |
| PolicyCache.PolicyCache.Configure | agent/kernel/minifilter/dlp_driver_core.c:2045-2051 | a limit of 1 to the maximum and a positive TTL are taken, others ignored |
| PolicyCache.PolicyCache.Perform | agent/kernel/minifilter/dlp_policy_cache.c:194-634 | any operation is the corresponding step of the list model |
| PolicyCache.ExecuteRun | agent/kernel/minifilter/dlp_policy_cache.c:194-634 | every run over rings of links answers exactly as a plain map with expiry and least-recently-used eviction does |
| CacheReference.ListsOldest | agent/kernel/minifilter/dlp_policy_cache.c:711-733 | the first unpinned entry of the LRU list is the one unpinned entry of the map with the oldest use |
| CacheReference.SimulatesStep | agent/kernel/minifilter/dlp_policy_cache.c:194-634 | one step: equal outcomes, and the LRU list still enumerates the map in order of last use |
| CacheReference.SimulatesRun | agent/kernel/minifilter/dlp_policy_cache.c:194-634 | whole runs: equal outcomes |
| CacheHistory.CommandKeeps | agent/kernel/minifilter/dlp_policy_cache.c:356-634 | no cache command makes up or alters a policy of a file it does not insert |
| CacheHistory.LookupsAnswerFromHistory | agent/kernel/minifilter/dlp_policy_cache.c:194-340 | after any run both lookup paths hit exactly while the policy last inserted and not since removed, cleared or evicted is permanent or within its TTL, and then answer with the fields handed in |
| CacheHistory.EntryLifetime | agent/kernel/minifilter/dlp_policy_cache.c:416-426 | a stored policy that nothing loses or replaces is found up to and including its insert time plus the TTL then in force times 10,000,000, for good when permanent, and not later |
| CacheHistory.SettingsAreHistory | agent/kernel/minifilter/dlp_driver_core.c:2045-2051 | limit and TTL are those of the last configuration that gave a valid one, or else those of the start |
| CacheHistory.AccessIsHistory | agent/kernel/minifilter/dlp_policy_cache.c:749-769 | the access time of an entry is that of its last insert or full hit |
| CacheHistory.CountersAreHistory | agent/kernel/minifilter/dlp_policy_cache.c:194-744 | hits, misses, evictions and version count the run, an expired entry missing twice on the quick path |
| CacheHistory.OutcomesFit | agent/kernel/minifilter/dlp_policy_cache.c:194-634 | every outcome of every run is what the history before it says |
| CacheRuns.UseIsHistory | agent/kernel/minifilter/dlp_policy_cache.c:749-769 | an entry's use number is the last step of the run that hit or created it |
| CacheRuns.EvictsLeastRecentlyUsed | agent/kernel/minifilter/dlp_policy_cache.c:697-769 | in every reachable state an eviction takes the unpinned entry whose last hit or first insertion is strictly oldest |
| CacheRuns.LeavesLimitIff | agent/kernel/minifilter/dlp_policy_cache.c:370-376 | from within the limit a step leads above the limit then in force if and only if it stores a new file while the cache is full of pinned entries, or is a configuration message with a limit below the present size |
| CacheRuns.InsertSize | agent/kernel/minifilter/dlp_policy_cache.c:370-508 | the exact change of size by any insert, within, at or above the limit |
| CacheRuns.InsertLosesIff | agent/kernel/minifilter/dlp_policy_cache.c:370-508 | an insert loses another file's entry, or its own on a failed allocation, if and only if the cache is at its limit and that entry is the first unpinned one |
| CacheRuns.FailedInsertShrinksIff | agent/kernel/minifilter/dlp_policy_cache.c:370-464 | an insert that cannot allocate shrinks the cache if and only if it was at its limit and not all pinned |
| CacheRuns.ReachableDistinct | agent/kernel/minifilter/dlp_policy_cache.c:356-508 | in every reachable state no file has two entries |
| CacheRuns.AboveLimitHasCause | agent/kernel/minifilter/dlp_driver_core.c:2045-2048 | whenever a run ends above the limit, one of its steps was one of those two |
| CacheRuns.NewFilesKeepExcess | agent/kernel/minifilter/dlp_policy_cache.c:370-376 | from above the limit storing new files never brings the cache back within it |
| CacheRuns.WithinLimit | agent/kernel/minifilter/dlp_policy_cache.c:370-376 | with a fixed limit and no pinned inserts no reachable state is above it |
| CacheRuns.PinnedOverflow | agent/kernel/minifilter/dlp_policy_cache.c:716-733 | a run that ends above the limit |
| CacheRuns.MaxUsedIsPeak | agent/kernel/minifilter/dlp_policy_cache.c:500-505 | MaxEntriesUsed is the largest size of any state of the run |
| ProcessTracker.PushChain | agent/kernel/minifilter/dlp_process_tracker.c:249-251 | a new entry at the head of its chain keeps every chain the entries of its hash, once each |
| ProcessTracker.RewriteChain | agent/kernel/minifilter/dlp_process_tracker.c:182-185 | a change to one entry or its reference count keeps them too |
| ProcessTracker.DropChain | agent/kernel/minifilter/dlp_process_tracker.c:443-447 | and so does unlinking one entry |
| ProcessTracker.ProcessTable.FindOnChain | agent/kernel/minifilter/dlp_process_tracker.c:175-186 | the walk along the process's chain finds its entry if and only if there is one |
| ProcessTracker.ProcessTable.FindOrCreate | agent/kernel/minifilter/dlp_process_tracker.c:159-259 | found, or created when asked and allocatable, with one reference held; chains, bucket counts and active entries in step |
| ProcessTracker.ProcessTable.Release | agent/kernel/minifilter/dlp_process_tracker.c:263-276 | stores the entry and gives the reference back: between operations none is held |
| ProcessTracker.ProcessTable.TrackProtectedRead | agent/kernel/minifilter/dlp_process_tracker.c:281-326 | time, highest class, file list and counters after a tracked read |
| ProcessTracker.ProcessTable.AddFile | agent/kernel/minifilter/dlp_process_tracker.c:304-318 | a file is remembered once, in at most sixteen places |
| ProcessTracker.ProcessTable.UntrackProtectedFile | agent/kernel/minifilter/dlp_process_tracker.c:331-363 | one read fewer and the file gone; time and class stay |
| ProcessTracker.ProcessTable.ShiftOut | agent/kernel/minifilter/dlp_process_tracker.c:350-360 | shifting down removes the first occurrence and keeps the order |
| ProcessTracker.WithoutAt | agent/kernel/minifilter/dlp_process_tracker.c:350-360 | removal of the first occurrence is the cut at its position |
| ProcessTracker.ProcessTable.ShouldBlockProcessWrite | agent/kernel/minifilter/dlp_process_tracker.c:368-409 | blocks exactly on a recent read of protected class, and counts it |
| ProcessTracker.ProcessTable.ProcessExit | agent/kernel/minifilter/dlp_process_tracker.c:414-460 | unlinks the entry of that process and of no other, counts included |
| Minifilter.Globals.IsOperationBlocked | agent/kernel/minifilter/dlp_driver_core.c:916-986 | verdict and cache state of the central decision |
| Minifilter.Globals.QueueBlockEvent | agent/kernel/minifilter/dlp_driver_core.c:1559-1629 | puts a record with the cached class and the bounded path into the notification queue, or counts a dropped one, or does nothing in a shutdown |
| Minifilter.Globals.PreSetInformation | agent/kernel/minifilter/dlp_driver_core.c:1110-1240 | verdict, record and statistics for delete, rename, resize and the rest |
| Minifilter.Globals.Decide | agent/kernel/minifilter/dlp_driver_core.c:1148-1182 | delete and rename: the central decision, then record and statistics |
| Minifilter.Globals.Resize | agent/kernel/minifilter/dlp_driver_core.c:1189-1206 | a change of size is refused only for files cached as protected |
| Minifilter.Globals.PreWrite | agent/kernel/minifilter/dlp_driver_core.c:1261-1345 | first the process, then the destination file; audit mode plays no part |
| Minifilter.Globals.PostRead | agent/kernel/minifilter/dlp_driver_core.c:1356-1409 | a user-mode read that returned protected data taints its process |
| Minifilter.Globals.PreCleanup | agent/kernel/minifilter/dlp_driver_core.c:1417-1460 | untracks the file of a protected handle |
| Minifilter.ExecuteDriver | agent/kernel/minifilter/dlp_driver_core.c:916-1805 | for every run of the callbacks over rings, tables and queue: under a monotone clock each verdict is exactly what the history of inserts, modes and reads says, so user-mode writes to removable media are denied exactly when the process is tainted or the destination protected, and a fail-closed denial of delete or rename lasts until the modes or that file's policy are set; after the worker's last turn every refusal outside a shutdown has reached the service, in order and with class and path, or been counted as dropped; the statistics count the run |
| DriverSafety.EventKeeps | agent/kernel/minifilter/dlp_driver_core.c:1110-1460 | nor does any callback |
| DriverSafety.RefusalSurvives | agent/kernel/minifilter/dlp_driver_core.c:916-986 | without news for a file a fail-closed refusal outlives expiry and loss of its entry |
| DriverSafety.RefusalStable | agent/kernel/minifilter/dlp_driver_core.c:916-986 | over whole runs, with inserts for other files allowed, it never becomes a permission |
| DriverSafety.FailClosedStable | agent/kernel/minifilter/dlp_driver_core.c:1133-1182 | the same for the callback's answer to delete and rename, from every reachable state |
| DriverHistory.CachedIsSeen | agent/kernel/minifilter/dlp_policy_cache.c:194-277 | after any run of the driver a lookup hands out the policy last inserted exactly while it is alive: callbacks change nothing |
| DriverHistory.OperationDecided | agent/kernel/minifilter/dlp_driver_core.c:916-986 | in every reachable state and all four settings of the modes: audit refuses nothing; without a live policy fail-closed refuses changes and writes; with one the verdict is what the policy forbids, whatever fail-closed says |
| DriverHistory.SetInformationDecided | agent/kernel/minifilter/dlp_driver_core.c:1110-1240 | after every run the callback refuses exactly that of deletes and renames, a change of size exactly when the file is held as protected, and nothing else |
| DriverHistory.InsertDecides | agent/kernel/minifilter/dlp_driver_core.c:932-958 | after a policy is stored for the file itself, deletes and renames are decided by it while it is alive and by fail-closed mode afterwards, in any modes |
| Taint.TrackerIsHistory | agent/kernel/minifilter/dlp_process_tracker.c:281-460 | a process has an entry if and only if it made a tracked protected read since it started; its time is the latest such read, its class their maximum and itself protected |
| Taint.BlockedIffTainted | agent/kernel/minifilter/dlp_process_tracker.c:368-409 | the table blocks if and only if that read is less than five minutes old |
| Taint.UsbWriteRefusedIff | agent/kernel/minifilter/dlp_driver_core.c:1275-1344 | a user-mode write to removable media is refused if and only if the process is tainted or the destination is cached as protected; closing files lifts nothing |
| ReadHistory.EntryIsHistory | agent/kernel/minifilter/dlp_process_tracker.c:281-363 | in every reachable state the entry of a process remembers exactly the files it has read and not closed, at most sixteen and each once, and its active reads are reads less closes, never below zero |
| ReadHistory.FirstReadIsHistory | agent/kernel/minifilter/dlp_process_tracker.c:205-208 | and carries the time of its first tracked read |
| ReadHistory.TallyIsHistory | agent/kernel/minifilter/dlp_process_tracker.c:281-409 | the two counters are the tracked reads and the writes refused for taint |
| DriverRuns.AllDecided | agent/kernel/minifilter/dlp_driver_core.c:1110-1345 | in every run, under a monotone clock, the verdict on every event is exactly what the history of inserts, modes and reads says |
| DriverRuns.MediaGuarded | agent/kernel/minifilter/dlp_driver_core.c:1275-1344 | so for every write event of a run |
| DriverRuns.RefusalsAllLast | agent/kernel/minifilter/dlp_driver_core.c:1133-1182 | denied at one event implies denied at every later one with nothing but sparing events between |
| DriverRuns.ReportStep | agent/kernel/minifilter/dlp_driver_core.c:1213-1236 | a refusal queues one record naming process, file, class, path and operation, or adds one to the count of missing ones, and is counted; nothing else is reported |
| DriverRuns.RefusalsReported | agent/kernel/minifilter/dlp_driver_core.c:1559-1629 | over a run the queued records are those of the refused requests, in order, each with the class its file was held under and at most 519 units of its path; with the missing ones they are as many as the refusals; blocked and scanned count the run |
| NotifyQueue.InvariantRun | agent/kernel/minifilter/dlp_driver_core.c:1559-1805 | order, counts and the wake-up condition survive every interleaving |
| NotifyQueue.QueueAlways | agent/kernel/minifilter/dlp_driver_core.c:1559-1805 | attempted, then held locally, then queued records are the enqueue history; Count is the queue length and TotalEvents lacks exactly the records whose producers, past the lock, have not counted them yet; every attempted record is delivered or counted as dropped; delivery keeps the order |
| NotifyQueue.DeliveredIsHistory | agent/kernel/minifilter/dlp_driver_core.c:1559-1805 | over every interleaving the records enqueued are those the producers stored, attempted is one for each send from the front, and delivered are exactly those whose send went well |
| NotifyQueue.RestMeansAttempted | agent/kernel/minifilter/dlp_driver_core.c:1673-1687 | whenever the worker finds the queue empty and goes back to waiting, every record enqueued so far has been attempted |
| NotifyQueue.BacklogFalls | agent/kernel/minifilter/dlp_driver_core.c:1640-1740 | signalling, taking over and sending lower the backlog; other steps neither raise it nor stop these from being possible |
| NotifyQueue.BacklogMoves | agent/kernel/minifilter/dlp_driver_core.c:1656-1687 | while there is a backlog one of these is possible at once or after the worker, which can wake, has woken |
| NotifyQueue.Drains | agent/kernel/minifilter/dlp_driver_core.c:1640-1740 | once producers are silent at most backlog-many of these happen, and with none left every record has been attempted |
| NotifyQueue.SleepsIff | agent/kernel/minifilter/dlp_driver_core.c:352 | in every run a waiting worker can sleep on if and only if no producer has signalled yet |
| NotifyQueue.EventQueue.QueueBlockEvent | agent/kernel/minifilter/dlp_driver_core.c:1570-1629 | appends and signals, or counts, or does nothing in a shutdown; the queue stays in a reachable state of the step model |
| NotifyQueue.EventQueue.TakeOver | agent/kernel/minifilter/dlp_driver_core.c:1711-1722 | the local list is the whole queue in order |
| NotifyQueue.EventQueue.SendNotification | agent/kernel/minifilter/dlp_driver_core.c:1746-1805 | one attempt: received by the service or counted as dropped |
| NotifyQueue.EventQueue.SendAll | agent/kernel/minifilter/dlp_driver_core.c:1724-1740 | every local record is attempted once, in order |
| NotifyQueue.EventQueue.FlushNotificationQueue | agent/kernel/minifilter/dlp_driver_core.c:1698-1740 | attempts exactly the records queued before it, while new ones arrive |
| NotifyQueue.EventQueue.Turn | agent/kernel/minifilter/dlp_driver_core.c:1656-1687 | wait, flush and look again; without arrivals the worker then waits with everything attempted |
| NotifyQueue.EventQueue.NotifyWorker | agent/kernel/minifilter/dlp_driver_core.c:1640-1692 | the loop from the start of the driver over any arrivals |
| NotifyQueue.ExecuteQueue | agent/kernel/minifilter/dlp_driver_core.c:1559-1805 | however arrivals fall into the worker's turns, the service receives exactly the records whose send succeeds, in order, and every other arrival is counted |
| Clipboard.BoundedSeqQueue.Record | agent/usermode/telemetry/ClipboardMonitor.cpp:136-146 | the slot holds the value last given; only an exact duplicate is no change |
| Clipboard.BoundedSeqQueue.Take | agent/usermode/telemetry/ClipboardMonitor.cpp:148-155 | hands the pending value out once |
| Clipboard.SlotIsHistory | agent/usermode/telemetry/ClipboardMonitor.cpp:136-155 | the pending value is the one posted last and not taken, and the posts superseded are counted |
| Clipboard.SnapshotStep | agent/usermode/telemetry/ClipboardMonitor.cpp:416-529 | each step of clipboard, listener or worker keeps captured content tied to its sequence number |
| Clipboard.ClassifiedIsSnapshot | agent/usermode/telemetry/ClipboardMonitor.cpp:416-529 | content classified under a sequence number is what the clipboard held at that number |
| Clipboard.ClassifiedIsHistory | agent/usermode/telemetry/ClipboardMonitor.cpp:504-528 | in every run what is classified is, in order, the number read back before each successful conversion with the content at that number |
| Clipboard.NoLostUpdate | agent/usermode/telemetry/ClipboardMonitor.cpp:376-429 | while running, the current number has been attempted or something outstanding leads to it |
| Clipboard.RankDecreases | agent/usermode/telemetry/ClipboardMonitor.cpp:396-529 | every step of the monitor itself brings it closer to rest |
| Clipboard.Settles | agent/usermode/telemetry/ClipboardMonitor.cpp:396-529 | with the clipboard at rest the monitor stops after a bounded number of steps, and then the current number has been attempted |
| Clipboard.LastChangeClassified | agent/usermode/telemetry/ClipboardMonitor.cpp:396-529 | after the last change, with content that is there and converts and fewer denied opens than tries, the monitor comes to rest with that content classified under that number |
| Clipboard.FromStart | agent/usermode/telemetry/ClipboardMonitor.cpp:376-529 | snapshot safety and no lost update in every state reachable from the start |
| ClipText.CutWellFormed | agent/usermode/telemetry/ClipboardMonitor.cpp:64-75 | a cut anywhere but after a high surrogate keeps UTF-16 well formed |
| ClipText.ClipUtf16ToWstring | agent/usermode/telemetry/ClipboardMonitor.cpp:45-79 | reads inside the allocation; exactly when each flag is set, never both; the text before the null when neither is; well-formed output within the cap for well-formed input |
| Utf8.CharTest | agent/usermode/classification/DeepContentInspector.cpp:105-136 | gathering bits and comparing ranges agrees with the byte grammar of section 4 of RFC 3629 on one character |
| Utf8.MultiByteChar | agent/usermode/classification/DeepContentInspector.cpp:105-136 | the length of the well-formed character at a position, or 0 |
| Utf8.IsValidUtf8 | agent/usermode/classification/DeepContentInspector.cpp:97-140 | accepts exactly the well-formed byte strings |
| Utf8.EncodeIsChar | agent/usermode/classification/DeepContentInspector.cpp:151-171 | the encoder's bytes are one character of the grammar that carries the same number |
| Utf8.PayloadIsScalar | agent/usermode/classification/DeepContentInspector.cpp:151-171 | a character of the grammar carries a scalar value and is its only encoding |
| Utf8.DecodeEncode | agent/usermode/classification/DeepContentInspector.cpp:151-171 | encoding any scalar values is well formed and decodes to them |
| Utf8.EncodeDecode | agent/usermode/classification/DeepContentInspector.cpp:97-140 | every well-formed string is the encoding of its characters |
| Transcode.ScalarsEncode | agent/usermode/classification/DeepContentInspector.cpp:173-194 | for well-formed UTF-16 the characters the converter sees encode back to the input |
| Transcode.EncodeScalars | agent/usermode/classification/DeepContentInspector.cpp:173-194 | the characters of an encoding (section 2.1 of RFC 2781) are those encoded |
| Transcode.ScalarsRepair | agent/usermode/classification/DeepContentInspector.cpp:173-194 | for any UTF-16 the characters seen are the input with each lone surrogate, and nothing else, replaced by U+FFFD |
| Transcode.UnitsOfBytes | agent/usermode/classification/DeepContentInspector.cpp:173-180 | units written in either byte order (section 3.1 of RFC 2781) are read back in that order |
| Transcode.NextScalar | agent/usermode/classification/DeepContentInspector.cpp:173-194 | one character off the units, lone surrogates read as U+FFFD |
| Transcode.KeptBounds | agent/usermode/classification/DeepContentInspector.cpp:173-196 | the characters kept are a prefix within cap + 3 bytes, shorter only once the cap is reached |
| Transcode.Utf16ToUtf8 | agent/usermode/classification/DeepContentInspector.cpp:142-196 | well-formed output of at most cap + 3 bytes that splits no character; not truncated, it is the input with lone surrogates replaced |
| Transcode.ConvertText | agent/usermode/classification/DeepContentInspector.cpp:142-196 | any text short enough, in either byte order, comes out as its UTF-8 encoding |
| Transcode.Latin1ToUtf8 | agent/usermode/classification/DeepContentInspector.cpp:211-227 | output decodes to a prefix of the input, all of it unless truncated; exactly when cap + 1 bounds it |
| Luhn.IsValidLuhn | agent/usermode/classification/DeepContentInspector.cpp:997-1018 | accepts exactly the nonempty digit strings whose Luhn sum is a multiple of ten |
| Luhn.DetectsSingleError | agent/usermode/classification/DeepContentInspector.cpp:997-1018 | changing one digit of a valid string makes it invalid |
| Luhn.DetectsSwapIff | agent/usermode/classification/DeepContentInspector.cpp:997-1018 | swapping neighbours keeps it valid exactly for equal digits and for 0 with 9 |
| Luhn.UniqueCheckDigit | agent/usermode/classification/DeepContentInspector.cpp:997-1018 | every prefix has exactly one valid check digit |
| Luhn.ValidIffFromRight | agent/usermode/classification/DeepContentInspector.cpp:997-1018 | validity is that of the sum from the right of decimal digits, of each digit or of its double in turn |
| ContextWindow.CutAddsAtMostTwo | backend/internal/classification/context.go:39-40 | cutting any byte string inside a character adds at most two runes |
| ContextWindow.NeverOutOfRange | backend/internal/classification/context.go:21-55 | for the default size and all sizes from 4 on, no text, offset and length make the slice bounds cross |
| ContextWindow.SmallSizesFail | backend/internal/classification/context.go:42-54 | for sizes 1 to 3 an input makes them cross |
| ContextWindow.DecodeSplit | backend/internal/classification/context.go:38-40 | counting runes of a prefix locates it among the runes of the text |
| ContextWindow.RunesRepair | backend/internal/classification/context.go:38-54 | the runes of any bytes encode the text with each byte that begins no character replaced by U+FFFD |
| ContextWindow.WindowContainsMatch | backend/internal/classification/context.go:21-55 | for valid text and a match on character boundaries: a valid substring of the match, half the size in runes before it and the other half after it, or all there are |
| ContextWindow.ExtractExact | backend/internal/classification/context.go:15-55 | on any bytes, even malformed or cut inside a character, the result is valid UTF-8 and has exactly the runes of the match and the size less what is missing around it; the slice bounds cross if and only if that number is negative |
| ContextWindow.DocumentedBoundIff | backend/internal/classification/context.go:15-55 | for all arguments a window of at most the size asked for comes back if and only if they are rejected or the match is no longer than what is missing around it and the bounds do not cross |
| ContextWindow.DocumentedBoundFails | backend/internal/classification/context.go:15-55 | a text on which size 1 gives two runes |
| Json.JsonEscape | agent/usermode/comms/EventSender.cpp:9-29 | the loop's output is the escaped string |
| Json.ParseEscaped | agent/usermode/comms/EventSender.cpp:9-29 | by section 7 of RFC 8259 any byte string is read back, up to its own closing quote |
| Json.EscapedIsClean | agent/usermode/comms/EventSender.cpp:9-29 | no control byte and no bare quote is left |
| Json.ParsePrint | agent/usermode/comms/EventSender.cpp:172-219 | any printed value whose numbers are numbers by section 6 of RFC 8259 parses back to itself and what follows it |
| Json.ImproperStuck | agent/usermode/comms/EventSender.cpp:203-204 | a value with a number that is none is read by no parser of that grammar |
| Json.ParsesIff | agent/usermode/comms/EventSender.cpp:172-219 | a printed value is JSON text if and only if its numbers are numbers |
| Json.SampleText | agent/usermode/comms/EventSender.cpp:172-219 | the text of one object, byte by byte |
| JsonUtf8.EscapeKeepsUtf8 | agent/usermode/comms/EventSender.cpp:9-29 | the escaped string is UTF-8 if and only if the string is |
| JsonUtf8.PrintUtf8Iff | agent/usermode/comms/EventSender.cpp:172-219 | printed JSON is UTF-8 if and only if every string in it is |
| JsonWriter.WriteStrings | agent/usermode/comms/EventSender.cpp:210-215 | the keyword loop writes the items of the array |
| JsonWriter.TerminatedPrints | agent/usermode/comms/EventSender.cpp:194-208 | fields written with a comma each and a last one without are the members of the object |
| EventSender.SerializeEvent | agent/usermode/comms/EventSender.cpp:187-219 | the thirteen fields written one by one, the time stamp unescaped, are the JSON object of the event |
| EventSender.SerializeBatch | agent/usermode/comms/EventSender.cpp:172-185 | the JSON object of device id and events in order; JSON exactly if every score and size is a number, and then read back name by name; UTF-8 exactly if every string field is |
| EventSender.BatchParsesIff | agent/usermode/comms/EventSender.cpp:172-219 | the batch text is JSON if and only if every score and size is a number, and then every field of every event is read back |
| EventSender.BatchReadsBack | agent/usermode/comms/EventSender.cpp:172-219 | a readable batch is read back with device id and every field of every event under its own name, in order |
| EventSender.NanScoreFails | agent/usermode/comms/EventSender.cpp:203 | one score that is not a number makes any batch unreadable |
| EventSender.BatchUtf8Iff | agent/usermode/comms/EventSender.cpp:172-219 | the batch text is UTF-8 (section 8.1 of RFC 8259) if and only if device id and string fields are |
| EventSender.BatchTextInjective | agent/usermode/comms/EventSender.cpp:172-219 | different readable batches have different texts |
| Outbox.LocalCache.StoreEvent | agent/usermode/cache/LocalCache.cpp:163-192 | a new pending row with the next id, or nothing when the insert fails |
| Outbox.LocalCache.GetPendingEvents | agent/usermode/cache/LocalCache.cpp:194-229 | the parseable rows of the oldest pending batch, in order |
| Outbox.LocalCache.GetPendingEventIds | agent/usermode/cache/LocalCache.cpp:231-255 | the ids of the oldest pending batch, malformed rows included |
| Outbox.LocalCache.MarkEventsSynced | agent/usermode/cache/LocalCache.cpp:257-306 | all ids marked or none, for every way an update or the COMMIT can fail, and when a transaction stays open |
| Outbox.PendingOrdered | agent/usermode/cache/LocalCache.cpp:203 | the query's rows are strictly ordered and exactly the rows not synced |
| Outbox.QueriesAgreeIff | agent/usermode/cache/LocalCache.cpp:313-322 | the two queries of a pass agree if and only if no row stored between them sorts ahead of the batch |
| Outbox.MonotoneNeverAhead | agent/usermode/cache/LocalCache.cpp:163-192 | under a non-decreasing clock none does |
| OutboxRuns.SentIsMarkedIff | agent/usermode/cache/LocalCache.cpp:308-333 | rows sent are exactly the rows then marked if and only if that holds and every payload of the batch parses |
| OutboxRuns.SyncedWasDelivered | agent/usermode/cache/LocalCache.cpp:308-333 | over whole runs with stores and failures in between, a row is synced only after a successful send containing it |
| OutboxRuns.SyncedWasSent | agent/usermode/cache/LocalCache.cpp:308-333 | from the empty table, a row marked after any such run is among the rows of its successful sends |
| OutboxRuns.SyncedIffMarked | agent/usermode/cache/LocalCache.cpp:257-306 | over runs a row is synced if and only if an acknowledgement that reached its COMMIT contained its id |
| OutboxRuns.RetriedUntilMarked | agent/usermode/cache/LocalCache.cpp:308-333 | under a non-decreasing clock every pass starts with the same rows in order if and only if no acknowledgement has reached its COMMIT |
| OutboxRuns.FailureIsRetried | agent/usermode/cache/LocalCache.cpp:324-333 | so after failed sends, failed updates and undone COMMITs the next pass selects the batch again |
| OutboxRuns.LoadsIff | agent/usermode/cache/LocalCache.cpp:320-325 | a pass gets to its send if and only if some row of the batch it loads can be read |
| OutboxRuns.UnreadableBatchBlocks | agent/usermode/cache/LocalCache.cpp:308-333 | under a non-decreasing clock a full oldest batch with no readable row heads every later pass, and nothing is ever sent or delivered again |
| OutboxRuns.CanSendIff | agent/usermode/cache/LocalCache.cpp:308-333 | between passes a send can still be reached if and only if the oldest batch has room or a readable row |
| OutboxRuns.LeftOpenReached | agent/usermode/cache/LocalCache.cpp:292-306 | a run whose failed COMMIT leaves the transaction open with its row no longer pending |
| OutboxRuns.OpenForGood | agent/usermode/cache/LocalCache.cpp:266-306 | after that no acknowledgement succeeds and no mark changes for the rest of the run |
| OutboxRuns.ClockBackLosesRow | agent/usermode/cache/LocalCache.cpp:308-333 | a run with the clock set back in which a row is marked and never sent |
| OutboxSync.SyncEvents | agent/usermode/cache/LocalCache.cpp:308-333 | one pass over the table, with stores at every point of it, is a run of the outbox steps; the count returned is that of the events sent and acknowledged |
| OutboxSync.ExecuteSync | agent/usermode/cache/LocalCache.cpp:163-333 | after any passes the table holds the payloads stored, and with readable payloads and a non-decreasing clock a row is marked only if a successful send contained it |
| PolicyRules.MatchContext | agent/usermode/policy/PolicyEngine.cpp:308-364 | the loops over the two lists of users, then of applications, decide the context part |
| PolicyRules.MatchOperations | agent/usermode/policy/PolicyEngine.cpp:366-420 | the loops over the lists of operations decide the operations part |
| PolicyRules.MatchDataPatterns | agent/usermode/policy/PolicyEngine.cpp:253-274 | the loop finds a regular expression that hits |
| PolicyRules.MatchConditions | agent/usermode/policy/PolicyEngine.cpp:134-171 | the parts in order; no conditions or fingerprints never match |
| PolicyRules.CheckExceptions | agent/usermode/policy/PolicyEngine.cpp:173-224 | true exactly when some exception admits both user and application |
| RuleEffect.InertIff | agent/usermode/policy/PolicyEngine.cpp:99-224 | a rule changes no decision, among whatever other rules, if and only if it is disabled or without conditions, an exception holds for user and application, the user or application is excluded or not included, the operation or type is not listed, no regular expression hits, or fingerprints are given |
| RuleEffect.OneRuleDecides | agent/usermode/policy/PolicyEngine.cpp:99-132 | a rule alone decides with its action unless it is such a one, and then the event is blocked |
| PolicyEngine.ResolveConflict | agent/usermode/policy/PolicyEngine.cpp:226-251 | BLOCK when a match of the first one's priority blocks, else the first action |
| PolicyEngine.EvaluateEvent | agent/usermode/policy/PolicyEngine.cpp:99-132 | the decision over the matching, enabled, not excepted rules |
| PolicyEngine.ParseRules | agent/usermode/policy/PolicyEngine.cpp:51-78 | rules up to the first element that throws, elements without an id skipped |
| PolicyEngine.ParsedSplit | agent/usermode/policy/PolicyEngine.cpp:51-78 | elements are read in order, one without an id adds nothing, and from one that throws on nothing is read |
| PolicyEngine.Engine.LoadRules | agent/usermode/policy/PolicyEngine.cpp:37-97 | sorted permutation on success; exactly what is left on failure |
| PolicyEngine.BlockIff | agent/usermode/policy/PolicyEngine.cpp:99-132 | after a load the decision is BLOCK if and only if no rule applies or a top-priority applying rule is BLOCK |
| PolicyEngine.OrderDoesNotBlock | agent/usermode/policy/PolicyEngine.cpp:80-84 | the order of rules never decides whether an event is blocked |
| PolicyEngine.AddingBlockKeepsBlock | agent/usermode/policy/PolicyEngine.cpp:226-251 | adding a BLOCK rule never undoes a BLOCK |
| PolicyEngine.OrderDecidesIff | agent/usermode/policy/PolicyEngine.cpp:80-84 | all sorted orders of any rules give the same decision if and only if none applies, a top rule is BLOCK, or all top rules have one action |
| PolicyEngine.TopFirst | agent/usermode/policy/PolicyEngine.cpp:80-84 | any top rule comes first in some sorted order |
| PolicyEngine.TieDependsOnOrder | agent/usermode/policy/PolicyEngine.cpp:249-250 | two rules of one priority on which the order decides |
| PolicyEngine.UnsortedDecisionIff | agent/usermode/policy/PolicyEngine.cpp:90-96 | over rules in any order the decision blocks exactly what it should if and only if no rule applies, or BLOCK stands at the first applying rule's priority exactly when it stands at the highest |
| RuleEffect.LoadAndDecide | agent/usermode/policy/PolicyEngine.cpp:37-132 | load then decide, for every policy: after success BLOCK exactly when no rule has an effect or one of the highest priority among those that have says so, and otherwise the action of such a rule; after a throw right exactly under that condition on the rules read so far |
| PolicyEngine.FailedLoadMisorders | agent/usermode/policy/PolicyEngine.cpp:90-96 | two rules on which a load that throws goes wrong |
| DeviceRegistry.DeviceManager.RegisterDevice | backend/internal/api/devices.go:169-270 | refreshes the host's record, else a stale one of the address, else makes a new one |
| DeviceRegistry.DeviceManager.UpdateHeartbeat | backend/internal/api/devices.go:273-325 | refreshes the record named by id or else host, or reports that there is none |
| DeviceRegistry.DeviceManager.UpdateStatuses | backend/internal/api/devices.go:358-391 | one tick degrades every record by its age |
| DeviceRegistry.RegisterKeeps | backend/internal/api/devices.go:169-270 | registration keeps host names unique even when it takes a record over |
| DeviceRegistry.RegistryAlways | backend/internal/api/devices.go:169-393 | in every reachable state keys are ids, host names unique, warning means over 90 s and offline over 5 min of silence |
| DeviceRegistry.RecordsKept | backend/internal/api/devices.go:169-270 | no step changes an id or registration time; another host takes a record over only by its address after two minutes |
| DeviceRegistry.RecordsKeptAlways | backend/internal/api/devices.go:169-393 | ids and registration times last for the whole run |
| DeviceHistory.RecordsAreHistory | backend/internal/api/devices.go:169-393 | in every run there is a record for a key exactly if a call named it, with time and address of the last such call, host and versions of the last registration, metrics of the last heartbeat, the last method given, the time of the first call, and online unless a tick since found it silent too long |
| DeviceHistory.TickIsExact | backend/internal/api/devices.go:353-393 | right after every tick a record is offline, in warning or online exactly as the time since the last call that named it is over 300 s, over 90 s or neither |
| DeviceHistory.SteadyStaysOnline | backend/internal/api/devices.go:273-393 | a device in contact at least every 300 s is never offline, and every 90 s always online |
| DeviceHistory.RegistrationNames | backend/internal/api/devices.go:169-228 | a registration names the record of its host, else one silent at its address for over two minutes, else a new one |
| DeviceHistory.HeartbeatNames | backend/internal/api/devices.go:273-297 | a heartbeat names the record of its id, else that of its host, else none |
| DeviceHistory.ExecuteRegistry | backend/internal/api/devices.go:169-393 | every sequence of calls to the manager is such a run |

## Left out

- Lock interleavings inside one cache or tracker operation, the lost-race branch of the insert (dlp_policy_cache.c:474-479) and pool lifetime: operations are atomic here.
- ProcessTracker.ProcessTable.FindOrCreate: the lost-race branch and the recorded process start time, because operations are atomic and nothing reads that time; the chain is a sequence whose links are not spliced.
- ProcessTracker.ProcessTable.ProcessExit: reuse of a process id before the exit callback, because the code has no check for it.
- Null-pointer parameters and an uninitialized tracker, cache or database.
- Driver load and unload, ports, `DlpPreCreate` and `DlpPostCreate`, volume and identity queries, and process-name and SID capture: they would only add parameters.
- Minifilter.Globals.QueueBlockEvent: message type, action and zeroed fields of a record, because they are the same in every record.
- `DLP_MSG_CONFIG_UPDATE` sets modes, limit and TTL in one message; here they are two events that may follow each other.
- NotifyQueue.EventQueue.NotifyWorker: the stop event, which only ends the loop, is left out; arrivals come while a taken-over list is held or the worker waits, because arrivals at other points fall into the step model, whose runs have every interleaving.
- Clipboard formats, memory handles and the conversion by `WideCharToMultiByte` are outcomes of one capture or conversion step.
- Deep inspection other than the codecs and the checksum: regular expressions, ZIP and XML extraction, `ExtractPlainText` (which may cut a code point of already valid UTF-8) and scoring.
- The `truncated` flag of the converters is theirs to set; a caller that passes it in already set is not modelled.
- The 32-bit overflow of the Luhn sum for strings of hundreds of millions of digits.
- EventSender.SerializeEvent: numbers and the time stamp are texts already formatted, because stream formatting is a library; the types `StreamedNumber` and `Label` say what they may hold.
- The JSON parser reads no white space, since none is written.
- `Event::ToJson` and `FromJson`: whether a stored payload can be read back is a property of the row.
- Closing and reopening the outbox database, which would undo a transaction left open, and queries that fail.
- PolicyEngine.Engine.LoadRules: `std::sort` is an insertion sort here; the lemmas hold for every sorted permutation.
- JSON shapes of rules other than the fields the engine reads, the defaults of missing fields and the names of actions, and exceptions thrown while matching.
- Database persistence of devices, the pointer that `RegisterDevice` returns, and loading devices at start-up.
- Event queue and threads of the sender, HTTP, authentication, quarantine, tray notifications, discovery, the dashboard and the frontend.
