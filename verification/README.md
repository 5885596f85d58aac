# VelaFlow, verified in Dafny

VelaFlow reads tasks, mails and calendars, plans days, and keeps a Todoist board and Notion databases in step, for many
tenants at once.  This project models the stateful parts of it whose guarantees must hold over unbounded runs, and
proves those guarantees.  `dafny verify dfyconfig.toml` checks everything.

Conventions throughout:

- A Python class that updates its fields is a Dafny class.  A ghost field keeps the complete history the code does not
  keep, `Valid()` ties the real fields to it, every method says what it does to the history, and the theorems are about
  the history.
- Clocks are arguments with nondecreasing readings (`real` seconds, or day numbers); locks make each method one atomic
  step.
- A remote call that may fail takes a reply from the environment, an arbitrary function; a reply may also be *lost*,
  that is the call is carried out although it raises.
- SHA-256, HMAC, AES-GCM, JSON, `str.lower` and `str.upper` are parameters.  Where a result needs one of them to be
  injective or invertible, its `requires` says so.

| module | file | what is modelled |
|---|---|---|
| `Windows`, `RateLimiting` | `Windows.dfy`, `RateLimiter.dfy` | sliding-window rate limiter with per-key pruning and idle sweep |
| `ReplayGuarding` | `ReplayGuard.dfy` | signed requests and the bounded cache of nonces |
| `CircuitBreaking`, `Retrying` | `CircuitBreaker.dfy`, `Retry.dfy` | circuit breaker with overlapping calls, retry driver with backoff |
| `Banning` | `BanManager.dfy` | ban escalation over windowed failure counts |
| `Chunking` | `Chunker.dfy` | packing sentences into overlapping chunks |
| `NotionTable`, `NotionSync`, `NotionConvergence`, `NotionTwoWay` | same names | the two-way synchronisation of Todoist sections and Notion tables |
| `WorkQueue`, `QueueWorking` | `TaskQueue.dfy`, `Worker.dfy` | queue, retries, dead letters and the worker loop |
| `UsageQuota` | `Quota.dfy` | daily quotas, their snapshots on disk, the gate of the pipeline run |
| `Scheduling` | `Scheduler.dfy` | minute ticks that fire each job at most once |
| `HashChain`, `Ledger`, `AuditLogging` | `HashChain.dfy`, `ActionLedger.dfy`, `AuditLog.dfy` | hash-chained logs: the daily action ledger and the encrypted audit log |
| `Jwt` | `Jwt.dfy` | base64url and signed access tokens |
| `Ranking`, `Weekend` | same names | task scores, ranking, greedy weekend allocation |
| `Organizer` | `Organizer.dfy` | the board reorganiser |
| `PiiMask` | `PiiMask.dfy` | masking personal data |
| `Texts`, `Slices`, `Days`, `Options` | same names | what the above share of Python's texts, slices, dates and optional values |

## What the proofs found

The code is modelled as it is.  Where it does not do what its documentation or its purpose suggests, the exact condition
is proved:

- **With the default settings a half-open breaker is not closed by its own trial call.**  From every reachable state
  that is not closed, and while no failure is reported, the breaker closes exactly with the last success report needed
  since the first question after its timeout, whichever calls report (`ReachableIsTripped`, `ClosesIffEnoughSucceed`);
  after that question a request is refused exactly while too few were reported and the quota is used up (`RefusedIff`).
  It can be closed if and only if what is left of `half_open_max_calls` and the calls still in flight together are at
  least the successes still needed (`RecoverableIff`); with the defaults 1 and 2 that takes a late call
  (`DefaultsLockOut`, and `LateReportCloses` for a run in which one closes it).
- **The ban ladder runs out.**  Bans are handed out only when the stage rises, so without the permanent mode a key that
  has served the stage-3 ban is never banned again, however often it fails (`LadderRunsOut`).
- **The ledger's daily file verifies only inside one segment.**  It is accepted if and only if what was found in it is
  and nothing was added, or its entries are exactly those of one segment of the process from its start up to the last
  one stored (`TodayVerifiesIff`); so, where no action is logged twice with the same timestamp, nothing was found and
  what was stored is one run from the start of a segment on (`OneRunVerifiesIff`).  A restart or a failed write in the
  middle of the day breaks the chain.
- **The audit log verifies only while nothing is missing at its front.**  A log without entries of an earlier process
  verifies if and only if none of the first entries logged since the last purge, as many as are looked at, is missing
  from the month's file (`OwnLogVerifiesIff`).  An entry is missing when its write failed, since its hash is remembered
  all the same; when a failing read, which `log` takes for an empty log, made the next entry replace the text (`Log`);
  and in every later month.  `UntamperedVerifiesIff` is the condition with entries of an earlier process before, and
  `FirstEntryDecides` what holds even if the digest has collisions.  Failing reads make a log look empty and intact
  (`ReadsWhatIsHeld`).
- **Verification notices every loss but one at the end.**  Entries of an accepted chain can be lost, or made unreadable,
  without notice if and only if they are cut off the end (`OnlyCuttingOffGoesUnnoticed`, `GarblingGoesUnnoticedIff`),
  although the audit log's `verify_chain` promises to notice any deletion.
- **The audit log's hash joins fields with `|`.**  Another record shares the text that is hashed if and only if one of
  the fields before the detail contains `|`: then one with the same detail and previous hash does, and otherwise none
  does, since a `|` in a JSON detail is inside a string literal (`SharedPayloadIff`).  Among records that differ in user,
  action and resource only, one does if and only if one of these contains it (`AmbiguousIff`).
- **Notion pages keep what Todoist drops.**  Updates never clear optional properties, so after a clean pass a task's page
  is an exact mirror if and only if it is new or held no property the task lacks (`PageIsExactIff`,
  `RemovedDueDateStays`).
- **A failed link duplicates a task.**  The next run creates one more task for exactly those titled pages the first run
  did not link (`SecondRunFinds`, `SecondRunRepeats`, `FailedLinkDuplicates`).  After a run without failures the next one
  reports nothing as created (`SecondRunIsSilent`).  Ids that are empty or do not survive
  sanitising get a new page in every pass (`SecondPassCreatesTheUnsettled`).
- **Joining the queue blocks for good after one failure**: the unfinished counter is never lowered for a failed attempt
  (`UnfinishedCountsFailures`).
- **A nonce can be replayed inside the time window** once enough other requests were accepted; the exact number is
  `CacheLength` (`RefusedWhileRemembered`, `DistanceIsTight`), which is never below 5,001 others within 600 seconds
  (`ReplayNeedsTraffic`).
- **Token verification raises** instead of returning None, exactly on a signature part that does not decode, or behind a
  good signature on a payload that is no object or has a non-numeric expiry (`RaisesIff`).  `DecodeFailsIff` says which
  texts do not decode, whatever characters they consist of.
- **One day late ranks below due today**: the only case in which an earlier due date scores less
  (`EarlierScoresHigherIff`).
- **Two overlapping matches, found in any order, are masked wrongly** unless the token of the one that starts later has a
  suitable length (`OverlapIsProperIff`; `NestedIsProperIff` for a match strictly inside one other).
- **The chunker's accounting ignores join spaces.**  The carried text exceeds `chunk_overlap`, by one character, if and
  only if its first sentence just made the limit without its space (`CarriedExceedsIff`, `CarriedMayExceed`).  A chunk
  exceeds its size if and only if its only fresh sentence is too long for what is carried, or the packer's count is
  within the size by less than the spaces it misses (`ChunkExceedsIff`); sentences of one character reach an excess of
  one per further sentence (`ChunkMayExceed`).

## Model

| member | source | states |
|---|---|---|
| RateLimiting.RateLimiter.Allow | src/brain/security/resilience.py:199-213 | A request is admitted exactly when the complete, never pruned history of accepted requests holds fewer than `max_requests` in the window; the history grows by the admitted request and nothing else |
| RateLimiting.RateLimiter.Remaining | src/brain/security/resilience.py:215-221 | The number reported is the allowance the complete history leaves |
| RateLimiting.RateLimiter.PruneIdleKeys | src/brain/security/resilience.py:189-197 | The sweep, which looks at last timestamps only, removes exactly the keys with nothing left in the window, and at most once per interval |
| RateLimiting.RateLimiter.NoWindowExceeds | src/brain/security/resilience.py:166-213 | In every reachable state no half-open window of the given length, wherever it starts, holds more accepted requests of a key than allowed |
| RateLimiting.RateLimiter.RequestsAreSpaced | src/brain/security/resilience.py:166-213 | In every reachable state any `max_requests + 1` accepted requests of a key in a row span at least the window |
| RateLimiting.EveryWindowIsBounded | src/brain/security/resilience.py:204-213 | Admitting only while the window ending now has room bounds every window, not only those that end at a call |
| RateLimiting.AdmittedIffSpaced | src/brain/security/resilience.py:204-213 | Admitting only while the window ending now has room yields exactly those timestamps in order any `max_requests + 1` of which in a row span at least the window |
| RateLimiting.RemainingIsExact | src/brain/security/resilience.py:215-221 | Of any number of immediate further requests, exactly as many succeed as `remaining` reports |
| RateLimiting.LastTells | src/brain/security/resilience.py:189-197 | The last stored timestamp alone tells whether anything of a key is left in its window |
| ReplayGuarding.RequestSigner.Verify | src/brain/security/zero_trust.py:99-146 | A request is accepted exactly if it is in time, correctly signed and its nonce is none of the last `CacheLength` accepted ones; a rejected request leaves the cache as it was |
| ReplayGuarding.RequestSigner.NoReplayWithin5001 | src/brain/security/zero_trust.py:117-146 | In every run any 5,002 consecutive accepted requests carry pairwise distinct nonces |
| ReplayGuarding.RequestSigner.CacheHasNoDuplicates | src/brain/security/zero_trust.py:117-146 | The cache never holds a nonce twice |
| ReplayGuarding.CacheLengthSteps | src/brain/security/zero_trust.py:138-144 | The cache holds at most 10,000 nonces and at least the last 5,001 accepted (all, if fewer), and shrinks to 5,001 exactly when a nonce comes on top of 10,000 |
| ReplayGuarding.GuardedGrows | src/brain/security/zero_trust.py:136-144 | What is remembered is the suffix of the accepted nonces that insertion and eviction leave |
| ReplayGuarding.RefusedWhileRemembered | src/brain/security/zero_trust.py:117-121 | A nonce is refused exactly while the requests accepted since its last use are fewer than the cache length |
| ReplayGuarding.DistanceIsTight | src/brain/security/zero_trust.py:138-144 | 5,002 cannot be raised: a reachable log repeats a nonce at that distance |
| ReplayGuarding.RequestSigner.ReplayNeedsTraffic | src/brain/security/zero_trust.py:111-146 | The same signed request is accepted twice only if at least 5,001 others were accepted in between, within twice the drift |
| CircuitBreaking.CircuitBreaker.CanExecute | src/brain/security/circuit_breaker.py:76-87 | Asking is answered as the state machine over all events so far demands, and is itself an event |
| CircuitBreaking.CircuitBreaker.CurrentMode | src/brain/security/circuit_breaker.py:70-74 | Looking at the state may turn an open breaker half-open, and reports the state after that |
| CircuitBreaking.CircuitBreaker.RecordSuccess | src/brain/security/circuit_breaker.py:89-100 | A success report moves the fields as the state machine demands |
| CircuitBreaking.CircuitBreaker.RecordFailure | src/brain/security/circuit_breaker.py:102-119 | A failure report moves the fields as the state machine demands |
| CircuitBreaking.CircuitBreaker.CheckRecoveryAt | src/brain/security/circuit_breaker.py:121-130 | An open breaker whose timeout is over becomes half-open with fresh counters |
| CircuitBreaking.ModeChanges | src/brain/security/circuit_breaker.py:76-130 | States move only CLOSED to OPEN to HALF_OPEN to OPEN or CLOSED; a closed breaker opens exactly on the threshold-th failure report since the last success, an open one turns half-open exactly on the first question once the timeout is over, a half-open one opens on any failure report and closes exactly on the threshold-th success report of the episode |
| CircuitBreaking.ClosedCountsTrailingFailures | src/brain/security/circuit_breaker.py:89-119 | While closed the counter is the number of failure reports since the last success, and below the threshold |
| CircuitBreaking.QuarantineHolds | src/brain/security/circuit_breaker.py:76-87 | No call is admitted between a failure report that leaves the breaker open and `recovery_timeout` later, with any calls still in flight |
| CircuitBreaking.EpisodeIsBounded | src/brain/security/circuit_breaker.py:81-86 | Each half-open episode admits at most `half_open_max_calls` calls |
| CircuitBreaking.ReachableIsTripped | src/brain/security/circuit_breaker.py:76-130 | Every reachable state that is not closed is open, or half-open with fewer successes than needed and no more trial calls than allowed: the states the next five rows start from |
| CircuitBreaking.ClosesIffEnoughSucceed | src/brain/security/circuit_breaker.py:76-130 | From such a state and without failures the breaker is half-open from the first question after the timeout on and closed exactly once the successes needed since then were reported, whichever calls report; until then it counts reports and admissions |
| CircuitBreaking.RefusedIff | src/brain/security/circuit_breaker.py:76-87 | In such a continuation a request is refused exactly if the timeout is not over and nobody has asked since it was, or while too few successes were reported and the quota is used up |
| CircuitBreaking.RecoverableIff | src/brain/security/circuit_breaker.py:76-130 | From such a state calls that report at most once each can close the breaker, at times after any given one, if and only if what is left of its quota and the calls still in flight together are at least the successes still needed |
| CircuitBreaking.TooFewReports | src/brain/security/circuit_breaker.py:80-100 | With fewer calls that can report, the earlier ones in flight included, the breaker is not closed however long no failure is reported |
| CircuitBreaking.DefaultsLockOut | src/brain/security/circuit_breaker.py:35-38 | With the default parameters a breaker that is open or has just turned half-open can close if and only if an earlier call is still to report; if none is and the trial call is used, every later request is refused as long as no failure is reported |
| CircuitBreaking.LateReportCloses | src/brain/security/circuit_breaker.py:76-130 | A run from the start in which a late report and the trial call close a breaker with the defaults |
| Retrying.RetryWithBreaker | src/brain/security/circuit_breaker.py:235-282 | Whatever other callers do to the shared breaker meanwhile, the function runs at most `max_retries + 1` times, each run admitted by the breaker and reported exactly once; the result is the function's iff a run succeeded, else the fallback or an exception; the waits are those of the backoff |
| Retrying.SleepsGrow | src/brain/security/circuit_breaker.py:262-266 | The waits never get shorter |
| Retrying.SleepIsBounded | src/brain/security/circuit_breaker.py:262-266 | The total wait is at most `base * (2^max_retries - 1)` and at most `max_retries * max_delay` |
| Banning.BanManager.IsBanned | src/brain/security/ban.py:94-106 | A key is banned exactly if it is on the permanent list or its failures since the last clear earned a ban that has not run out |
| Banning.BanManager.GetBanRemaining | src/brain/security/ban.py:108-119 | The time left is positive (or infinite) exactly for banned keys, infinite exactly for permanent bans |
| Banning.BanManager.ListBans | src/brain/security/ban.py:157-185 | The listing contains exactly the banned keys, each with its entry |
| Banning.BanManager.EvaluateEscalation | src/brain/security/ban.py:187-218 | The loop over the rules raises the record to the highest stage whose window is full, and fills the permanent list exactly on reaching stage 3 in permanent mode |
| Banning.BanManager.RecordFailure | src/brain/security/ban.py:121-127 | One failure is added to the key's history, no other key changes, and the key becomes permanent exactly when this failure lifts it to stage 3 in permanent mode |
| Banning.BanManager.RecordSuccess | src/brain/security/ban.py:129-133 | A success clears the key's failures, unless they earned a permanent ban |
| Banning.BanManager.BanPermanent | src/brain/security/ban.py:135-140 | Only the key's permanent entry changes |
| Banning.BanManager.Unban | src/brain/security/ban.py:142-155 | The key is banned no longer, nothing is left of its failures, other keys are unchanged, and the result tells whether anything was removed |
| Banning.StageStep | src/brain/security/ban.py:187-218 | Keeping only the stage is enough: it equals the highest stage whose rule some window of the complete failure history ever satisfied |
| Banning.EscalationIsMonotone | src/brain/security/ban.py:187-218 | Between clears neither the stage nor the end of the ban goes down |
| Banning.BanEndIsEarned | src/brain/security/ban.py:45-49 | A ban ends no later than the latest failure plus the penalty of the stage |
| Banning.BannedAgainIffStageRises | src/brain/security/ban.py:199-218 | After a ban has run out a failure bans again if and only if the window ending with it is full for a stage above the one reached |
| Banning.LadderRunsOut | src/brain/security/ban.py:199-218 | Without the permanent mode no number of failures after stage 3 moves the end of the ban |
| Chunking.DocumentChunker.Chunk | src/brain/rag.py:75-137 | The document is refused iff it has sentences and is too large; otherwise the chunks are a packing: each carries a suffix of the one before and adds at least one fresh sentence, and the fresh parts concatenated are exactly the sentences |
| Chunking.DocumentChunker.KeepOverlap | src/brain/rag.py:110-119 | The inner loop keeps what `Carry` describes, and its text |
| Chunking.GroupFacts | src/brain/rag.py:97-130 | Every group of a packing fits, follows from the one before, adds the next stretch of sentences, and was closed only because the next sentence did not fit |
| Chunking.PackingIsUnique | src/brain/rag.py:97-137 | Two packings of the same sentences are equal, so the result is determined |
| Chunking.CarryIsGreedy | src/brain/rag.py:110-119 | What is carried is the longest suffix that can be built up sentence by sentence within the limit |
| Chunking.CarriedIsShort | src/brain/rag.py:110-119 | The carried text has at most `chunk_overlap + 1` characters |
| Chunking.CarriedExceedsIff | src/brain/rag.py:110-119 | It has more than `chunk_overlap` characters if and only if two or more sentences are carried and the first just made the limit |
| Chunking.CarriedMayExceed | src/brain/rag.py:110-119 | Two sentences of two characters with a limit of four |
| Chunking.ContentLength | src/brain/rag.py:97-130 | The packer's count misses one join space per fresh sentence (one less without overlap) |
| Chunking.ChunkExceedsIff | src/brain/rag.py:97-130 | Exactly when a chunk is longer than `chunk_size` |
| Chunking.ChunkMayExceed | src/brain/rag.py:97-130 | n sentences of one character and a size of n give one chunk of 2n - 1 characters |
| Chunking.ContentIsBounded | src/brain/rag.py:97-130 | A chunk has at most max(`chunk_size`, `chunk_overlap` + 1 + longest sentence) characters plus the uncounted spaces |
| Chunking.AtMostOneChunkPerSentence | src/brain/rag.py:97-137 | There are at most as many chunks as sentences |
| NotionTable.SanitizeCleans | src/brain/notion.py:31-39 | Sanitised texts are clean, and exactly the clean ones are left alone |
| NotionTable.EmittedId | src/brain/notion.py:383-414 | The properties emitted for a task always carry its sanitised id and a status |
| NotionSync.SyncTasksToDatabase | src/brain/notion.py:988-1067 | Whatever writes fail, the table afterwards is, page by page, the one described by `Pass`, and the counts are those of the successful replies |
| NotionSync.BuildIdMap | src/brain/notion.py:1006-1015 | The map sends each id to the last page holding it |
| NotionSync.WriteTasks | src/brain/notion.py:1020-1041 | Each task updates the page of its id if the table knew it and adds a page otherwise; failed writes leave no trace |
| NotionSync.MarkStale | src/brain/notion.py:1043-1055 | Exactly the pages of known ids without an active task are marked Done, as far as the writes succeed |
| NotionSync.WriteOneMore | src/brain/notion.py:1020-1041 | One more task touches one page at most |
| NotionSync.MarkOneMore | src/brain/notion.py:1043-1055 | Marking one more id touches its page only |
| NotionConvergence.ReportsAreBounded | src/brain/notion.py:1017-1067 | created + updated never exceeds the number of tasks |
| NotionConvergence.PassKeepsIdsUnique | src/brain/notion.py:1003-1067 | A pass keeps at most one page per id, whatever fails |
| NotionConvergence.PassLeavesIdlessAlone | src/brain/notion.py:1003-1067 | Pages without an id are untouched by any pass |
| NotionConvergence.CleanPassMirrors | src/brain/notion.py:1003-1067 | After a pass without failures every task's page carries all that is emitted for it, and every other id is Done if stale pages are marked |
| NotionConvergence.PageIsExactIff | src/brain/notion.py:1020-1041 | It carries exactly that if and only if the page is new or held no property the task lacks |
| NotionConvergence.MirroringIsStable | src/brain/notion.py:1003-1067 | From there a further clean pass creates nothing and changes nothing |
| NotionConvergence.RunKeepsIdsUnique | src/brain/notion.py:1003-1067 | Uniqueness holds over any sequence of passes with any failures |
| NotionConvergence.RunConverges | src/brain/notion.py:1003-1067 | After any such run one clean pass mirrors the tasks and the next creates nothing |
| NotionConvergence.RemovedDueDateStays | src/brain/notion.py:383-414 | A due date removed in Todoist stays in Notion |
| NotionConvergence.KnownAfterwardsIffGood | src/brain/notion.py:393 | After a clean pass the table knows a task's id if and only if the id is non-empty and survives sanitising |
| NotionConvergence.SecondPassCreatesTheUnsettled | src/brain/notion.py:1020-1041 | A second clean pass creates one more page for exactly the tasks with other ids |
| NotionTwoWay.PushItem | src/brain/cli.py:409-440 | A titled page without an id becomes one task if its creation is carried out, is linked as far as replies allow, and counts as created or as an error |
| NotionTwoWay.PushNotionOnly | src/brain/cli.py:398-443 | The push does so for every page, and counts creations and errors |
| NotionTwoWay.WritePlanners | src/brain/cli.py:363-376 | The first direction leaves every configured planner with its pass, and adds up the counts |
| NotionTwoWay.PushPlanners | src/brain/cli.py:398-443 | The second direction pushes every configured planner, and adds up creations and errors |
| NotionTwoWay.SyncBoard | src/brain/cli.py:378-393 | The full pass leaves the board's table as a pass with sections and stale marks does, and reports its counts |
| NotionTwoWay.CmdNotionSync | src/brain/cli.py:330-443 | The command does the first direction for all planners, then the board if asked for, then the second direction unless writes are disabled, with the totals of all; reads that fail count as an error each and the others go on |
| NotionTwoWay.PushAgrees | src/brain/notion.py:1069-1079 | Pushing without failures from a table that knows its tasks makes both sides agree |
| NotionTwoWay.OneCleanRunAgrees | src/brain/cli.py:363-443 | After one run without failures every titled page has an id and every task a page |
| NotionTwoWay.AgreementIsFinal | src/brain/cli.py:363-443 | From agreement on no run creates anything in either direction, whatever fails, and agreement persists |
| NotionTwoWay.AgreementIsSilent | src/brain/cli.py:363-443 | So the command over agreed planners reports nothing as created, and in the second direction no errors but reads that fail |
| NotionTwoWay.SecondRunIsSilent | src/brain/cli.py:363-443 | So a run without failures makes the next one report nothing as created, whatever fails then |
| NotionTwoWay.SecondRunFinds | src/brain/cli.py:363-443 | After any run, and the write pass of the next, exactly the titled pages the run did not link still have to be pushed |
| NotionTwoWay.SecondRunRepeats | src/brain/cli.py:398-443 | So the next run creates exactly one task for each of them |
| NotionTwoWay.FailedLinkDuplicates | src/brain/cli.py:398-443 | A page whose creation was carried out but not linked ends up with two tasks of the same content after the next run, in any table |
| WorkQueue.NothingIsLost | src/brain/queue/tasks.py:100-139 | Over every interleaving, any quantity carried by messages is conserved: submitted = queued + in flight + processed + dead-lettered |
| WorkQueue.EverythingIsSomewhere | src/brain/queue/tasks.py:100-139 | The submissions of an id, or of any set of ids, are each in exactly one place |
| WorkQueue.NumbersAddUp | src/brain/queue/tasks.py:100-152 | The same in numbers with the queue's own counters |
| WorkQueue.DeadLettersAreTheNewest | src/brain/queue/tasks.py:117-133 | The deque holds the newest 10,000 dead letters, the others are counted as dropped |
| WorkQueue.UnfinishedCountsFailures | src/brain/queue/tasks.py:100-139 | The unfinished counter is queued + in flight + failed attempts, so `task_done` never underflows, and it is zero iff all is idle and nothing ever failed |
| WorkQueue.DeliveriesAreBounded | src/brain/queue/tasks.py:110-133 | A message is delivered at most max_retries - retry_count + 1 times, also summed over any set of ids |
| QueueWorking.TaskQueue.Enqueue | src/brain/queue/tasks.py:100-108 | Appends the message; the object refines the state machine |
| QueueWorking.TaskQueue.Dequeue | src/brain/queue/tasks.py:110-115 | Takes the first message, or none |
| QueueWorking.TaskQueue.Requeue | src/brain/queue/tasks.py:117-133 | Puts the message back with one more retry, or buries it when its retries are used up |
| QueueWorking.TaskQueue.MarkDone | src/brain/queue/tasks.py:135-139 | Counts the message as processed |
| QueueWorking.TakeTurn | src/brain/queue/worker.py:303-328 | One turn delivers one message and settles it, whatever other producers and workers do while its handler runs |
| QueueWorking.RunLoop | src/brain/queue/worker.py:303-328 | The loop is that many turns, with other producers and workers acting before and during each |
| QueueWorking.OthersAct | src/brain/queue/tasks.py:100-139 | Any sequence of events of others is carried out on the same queue object; what they do not settle is still held |
| QueueWorking.LoopIsRun | src/brain/queue/worker.py:303-328 | The loop among others is a run of the queue's protocol, so conservation and the delivery bounds apply to it |
| QueueWorking.TurnSpends | src/brain/queue/worker.py:303-328 | A turn that finds a message uses up one of the deliveries left, apart from what others submit meanwhile |
| QueueWorking.BusyTurnsAreBounded | src/brain/queue/worker.py:303-328 | Whatever others do, the turns that find a message are at most the deliveries left at the start and those submitted since |
| QueueWorking.WorkerDrains | src/brain/queue/worker.py:303-328 | A worker that is alone leaves the queue empty after as many turns as there were deliveries left, whichever handlers fail |
| UsageQuota.UsageTracker.CheckQuota | src/brain/queue/worker.py:171-205 | Grants exactly while the day's count, with what the process found on disk, is below the quota; the counter in memory is that count |
| UsageQuota.CurrentCounts | src/brain/queue/worker.py:179-185 | The counters a check works on, from memory, from the snapshot or from zero, are what the process found on disk plus what it granted that day |
| UsageQuota.UsageTracker.PersistUsage | src/brain/queue/worker.py:207-212 | Writes the tenant's counters as snapshot |
| UsageQuota.UsageTracker.HandlePipelineRun | src/brain/queue/worker.py:330-387 | The gate's verdicts in their order: unknown tenant, expired demo, quota, demo cost cap, execution; what each leaves charged, and that the counters are saved exactly after a run that did not raise |
| UsageQuota.UsageTracker.NeverExceeded | src/brain/queue/worker.py:171-218 | Grants per tenant, kind and day never exceed the quota, executed demo runs neither quota nor cap, and no snapshot is ahead of memory |
| Scheduling.FiresOnceIffDue | src/brain/queue/scheduler.py:60-136 | Over any run each (tenant, kind, day) and, for overdue alerts, hour fires at most once, and fires iff some tick lands in its due minute while the tenant is active |
| Scheduling.TickingAgainAddsNothing | src/brain/queue/scheduler.py:72-126 | A repeated tick in the same minute adds nothing |
| Scheduling.SlotDecides | src/brain/queue/scheduler.py:72-126 | Remembering only the last key per tenant and kind decides as remembering all fired keys would |
| Scheduling.TenantScheduler.CheckKind | src/brain/queue/scheduler.py:72-126 | One kind fires exactly when the scheduler that never forgets would fire it |
| Scheduling.TenantScheduler.CheckTenant | src/brain/queue/scheduler.py:72-126 | All kinds of one tenant, with their number |
| Scheduling.TenantScheduler.DoTick | src/brain/queue/scheduler.py:60-70 | For nondecreasing times the messages enqueued are those of the complete memory, and the result is their number |
| HashChain.VerifyEntries | src/brain/security/audit_log.py:214-242 | The verification loop accepts exactly the linked chains with correct hashes |
| HashChain.PrefixVerifies | src/brain/security/audit_log.py:204-242 | Cutting entries off the end goes unnoticed |
| HashChain.OnlyCuttingOffGoesUnnoticed | src/brain/security/audit_log.py:204-242 | A choice of entries of an accepted chain is accepted if and only if it is a first part of it |
| HashChain.KeptVerifiesIff | src/brain/security/audit_log.py:204-242 | The first n of the entries that are kept of an accepted chain are accepted if and only if the first n of the chain are kept |
| HashChain.FinalHashDetermines | src/brain/security/action_ledger.py:365-406 | Two accepted logs with the same final hash are identical entry for entry, as far as the hash tells contents apart |
| HashChain.EndTells | src/brain/security/action_ledger.py:365-406 | A log that ends with an entry of an accepted chain is accepted if and only if it is that chain up to the entry |
| Ledger.VerifyChain | src/brain/security/action_ledger.py:365-406 | A file is intact iff every non-blank line is an object that continues the chain; verification raises iff it is accepted up to a line that is no object, or whose `prev` cannot be sliced for the error message, or whose `prev` is as expected but whose `hash` cannot be sliced |
| Ledger.ActionLedger.Log | src/brain/security/action_ledger.py:153-202 | The entry is linked and counted, and appended to the day's file unless the write fails; the state stays coherent with all that was logged and stored |
| Ledger.ActionLedger.Append | src/brain/security/action_ledger.py:291-315 | The line goes to the day's file unless the write fails, and the link is reset exactly when a segment is complete |
| Ledger.StretchVerifiesIff | src/brain/security/action_ledger.py:279-295 | A stretch of a process's entries verifies iff it is empty, or starts at a segment boundary and stays within the segment |
| Ledger.StoredVerifiesIff | src/brain/security/action_ledger.py:279-315 | What was found and what is left of a stretch of the process's entries verify together iff they are exactly the entries of one segment, from its start up to the last one stored |
| Ledger.ActionLedger.TodayVerifiesIff | src/brain/security/action_ledger.py:317-320 | `verify_chain` finds the day's file intact iff it found what was there intact and nothing was added, or could read it and its entries are exactly those of one segment, from its start up to the last one stored |
| Ledger.ActionLedger.OneRunVerifiesIff | src/brain/security/action_ledger.py:279-320 | Where no action repeats with the same timestamp: iff what was there is intact, and nothing was added, or nothing was there and the stored entries are one run from a segment boundary on, within the segment |
| Ledger.ActionLedger.FullDayVerifiesIff | src/brain/security/action_ledger.py:317-320 | Without failing writes and found entries, the day must start at a segment boundary and stay within the segment |
| Ledger.ActionLedger.RestartBreaksTheChain | src/brain/security/action_ledger.py:125-151 | A process that continues a file with entries of an earlier one breaks its chain with the first entry it stores |
| AuditLogging.AuditLog.Log | src/brain/security/audit_log.py:124-164 | The entry is linked to the hash remembered for the tenant and its own hash is remembered; the tenant's log of the month grows by it, or after a failing read consists of it alone, or after a failing write is as before; every other log is unchanged |
| AuditLogging.AuditLog.Purge | src/brain/security/audit_log.py:255-262 | The tenant's log of the month and the remembered hash are gone unless the write fails; every other log is unchanged |
| AuditLogging.AuditLog.Read | src/brain/security/audit_log.py:166-202 | The decryptable lines of the slice, in order, for any stored text, offset and limit; nothing if the text cannot be read |
| AuditLogging.AuditLog.VerifyChain | src/brain/security/audit_log.py:204-242 | Accepts iff what can be read of the first 10,000 lines is a chain |
| AuditLogging.AuditLog.ReadsWhatIsHeld | src/brain/security/audit_log.py:166-253 | After any interleaving of calls for many tenants, with reads and writes that fail, a page is that slice of what an earlier process left and this one stored, consecutive pages concatenate to all of it, and the count is its number; a log that cannot be read looks empty and intact |
| AuditLogging.AuditLog.UntamperedVerifiesIff | src/brain/security/audit_log.py:124-164 | If nothing this process stored is looked at, an untampered log verifies iff what an earlier process left does; otherwise iff the first 10,000 entries are the first ones this process logged since the last purge |
| AuditLogging.AuditLog.OwnLogVerifiesIff | src/brain/security/audit_log.py:124-164 | Without entries of an earlier process: iff none of the first entries logged since the last purge, as many as are looked at, is missing from the month's file, in any month, after any reads and writes that failed |
| AuditLogging.AuditLog.FirstEntryDecides | src/brain/security/audit_log.py:204-242 | For any digest: it verifies if nothing is missing at the front; it does not if the very first entry is missing, or is stored behind those of an earlier process |
| AuditLogging.PagesConcatenate | src/brain/security/audit_log.py:166-202 | Consecutive pages of any positive size concatenate to the rest of the log |
| AuditLogging.AcceptedLogsAgree | src/brain/security/audit_log.py:65-73 | With a collision-free digest, accepted logs without `\|` in the fields before the detail and with the same final hash are identical |
| AuditLogging.SharedPayloadIff | src/brain/security/audit_log.py:65-73 | For JSON details and previous hashes: another record, with the same detail and previous hash or with any, has the same hashed text iff one of the five fields before the detail contains the separator |
| AuditLogging.AmbiguousIff | src/brain/security/audit_log.py:65-73 | Another record that differs only in user, action and resource has it iff one of these contains the separator |
| AuditLogging.GarblingGoesUnnoticedIff | src/brain/security/audit_log.py:184-242 | Making lines of an accepted log unreadable goes unnoticed iff they are cut off the end |
| AuditLogging.UnreadableVerifies | src/brain/security/audit_log.py:184-212 | A log none of whose lines decrypts is accepted |
| Texts.SplitUndoesJoin | src/brain/api/auth.py:113-117 | Splitting at a separator undoes joining parts without it |
| Texts.LinesReadBack | src/brain/security/audit_log.py:177-188 | Stripping and splitting a text of visible lines gives the lines |
| Jwt.DecodeUndoesEncode | src/brain/api/auth.py:157-172 | Unpadded base64url decoding inverts encoding for every number of bytes, with the code's padding arithmetic |
| Jwt.EncodedIsSafe | src/brain/api/auth.py:157-158 | Encoded text consists of url-safe symbols, has no `.`, and has the length section 5 of RFC 4648 gives without padding |
| Jwt.DecodeFailsIff | src/brain/api/auth.py:161-172 | Any text fails to decode iff it is not ASCII, or its symbols leave an incomplete group that no padding completes |
| Jwt.UnpaddedFailsIff | src/brain/api/auth.py:161-172 | For text without `=`: iff it is not ASCII, or one symbol is left over, or two or three are and the length gets too little padding put back |
| Jwt.SymbolsFailIff | src/brain/api/auth.py:161-172 | For text of symbols: iff it is one longer than a multiple of four |
| Jwt.CreatedIsVerified | src/brain/api/auth.py:58-152 | Under the same secret a created token yields the same claims at every time up to exp and None after; under another secret it is rejected if the MACs differ |
| Jwt.SignatureDetermines | src/brain/api/auth.py:113-132 | Accepted tokens with the same signature have the same header, payload and claims if the MAC tells messages apart |
| Jwt.RaisesIff | src/brain/api/auth.py:106-141 | For every token and secret, verification raises iff there are three parts and a secret and the signature part does not decode, or a correctly signed payload is no object or has a non-numeric expiry |
| Ranking.EarlierScoresHigherIff | src/brain/planner.py:32-62 | All else equal an earlier due date scores at least as high, except one day overdue against due today |
| Ranking.SortSorts | src/brain/planner.py:124-137 | The ranking is a permutation in the order of (-score, due, -priority, name) that keeps the order of equal keys |
| Ranking.RankingIsUnique | src/brain/planner.py:129-136 | These properties leave no choice |
| Ranking.RankingIgnoresOrder | src/brain/planner.py:124-137 | With distinct keys the ranking does not depend on the order of the input |
| Ranking.HigherPriorityScoresHigher | src/brain/planner.py:64-119 | All else equal a higher priority scores strictly higher, in every section |
| Weekend.Allocate | src/brain/planner.py:311-341 | Every task dealt with gets the slot a greedy choice calls for, given those before it; the loop stops exactly when the limit is reached or the tasks are used up |
| Weekend.AllocationIsUnique | src/brain/planner.py:311-341 | That determines the plan |
| Weekend.OverflowDoesNotFit | src/brain/planner.py:319-338 | No overflow task of a plan fits what is left of either day |
| Weekend.GreedyIsUnique | src/brain/planner.py:319-338 | The greedy choice determines the allocation |
| Weekend.DaysHold | src/brain/planner.py:319-335 | Neither day is filled beyond its free minutes |
| Weekend.NothingMoreFits | src/brain/planner.py:319-338 | In the end no overflow task fits what is left of either day |
| Weekend.LimitHolds | src/brain/planner.py:340-341 | At most `weekend_task_limit` tasks are placed (one if the limit is not positive) |
| Weekend.SharedOut | src/brain/planner.py:311-338 | Saturday, Sunday and overflow share out a prefix of the ranking, each task once |
| Weekend.SlotsInterleave | src/brain/planner.py:311-338 | They are subsequences that interleave to that prefix |
| Weekend.SlotsKeepOrder | src/brain/planner.py:319-338 | Each of the three is in the order of the keys |
| Weekend.ConsideredAreRanked | src/brain/planner.py:319 | The tasks looked at come from those given and are ranked, also for a negative limit |
| Weekend.PlanWeekend | src/brain/planner.py:286-341 | The plan is the greedy allocation of the best `2 * limit` tasks to the free minutes the events leave on the coming Saturday and Sunday |
| Weekend.PlanIsSound | src/brain/planner.py:286-341 | A plan keeps within free minutes and limit, and its parts interleave to a prefix of the ranked tasks, each in their order |
| Weekend.FirstSaturday | src/brain/planner.py:294-299 | The day computed is the first Saturday from today on |
| Organizer.InferLabels | src/brain/organizer.py:77-86 | The labels suggested are those of the table with a keyword in the text, in the order of the table |
| Organizer.MentionedIff | src/brain/organizer.py:77-86 | A label is suggested iff it is in the table and one of its keywords occurs |
| Organizer.UrgencyOnlyGrows | src/brain/organizer.py:127-163 | Time passing and rising priority never take a task out of the urgent section |
| Organizer.NoIdealIff | src/brain/organizer.py:127-163 | Exactly which tasks have no ideal section |
| Organizer.Board.Reorganize | src/brain/organizer.py:355-431 | Whatever calls fail, the board afterwards is the one described task by task by `After`, and the report lists the proposals, successes and failures; a dry run changes nothing |
| Organizer.IdealIsReached | src/brain/organizer.py:111-163 | A moved task is where it should be, also once it is labelled |
| Organizer.SecondProposesIff | src/brain/organizer.py:384-425 | A second run proposes a move or labels iff the first did and its call was not applied |
| Organizer.OneRunSettles | src/brain/organizer.py:384-431 | A run without failures is a fixpoint: a further run proposes and changes nothing |
| Organizer.DryRunForetells | src/brain/organizer.py:427-431 | A dry run reports the same moves, labels and counts as a run without failures |
| Organizer.NothingIsLost | src/brain/organizer.py:384-425 | No task is lost or changed but for section and labels, and every proposal either succeeded or is among the errors |
| PiiMask.DetectedIff | src/brain/security/pii.py:94-105 | A match is detected iff some pattern finds it |
| PiiMask.HasPii | src/brain/security/pii.py:107-112 | True iff there is a match |
| PiiMask.Mask | src/brain/security/pii.py:114-122 | The matches are spliced from the last start to the first |
| PiiMask.MaskIsRewrite | src/brain/security/pii.py:114-122 | For disjoint matches this equals reading the text once from left to right |
| PiiMask.KeepsTheUncovered | src/brain/security/pii.py:114-122 | That rewrite keeps exactly the characters outside all matches, in order |
| PiiMask.OverlapIsProperIff | src/brain/security/pii.py:114-122 | What the splicing makes of any two overlapping matches, found in either order, has none of their characters left and none after them lost, iff the token of the one that starts later has a suitable length |
| PiiMask.NestedIsProperIff | src/brain/security/pii.py:114-122 | A match strictly inside one other, found in either order, is masked as if it were not there iff its token is as long as it, or shorter with the outer match at the end of the text |

## Left out

- HTTP, IMAP, calendars, databases and files: only the table, map or text they act on is modelled.
- Wall-clock time going backwards, locks and true thread scheduling.
- Floating-point rounding: times and delays are reals.
- The retry driver without a breaker (the same loop without questions and reports).
- `resilience.py`'s own `CircuitBreaker` and retry decorator: simpler variants of the breaker and driver modelled.
- The sync-status callout of the Notion command, the section options of the board's schema, and page layouts.
- JSON of queue messages and the job handlers other than the pipeline run's gate.
- The recorded times of nonces, which the original never reads.
- Token expiry times that are not integers, and header checks (the original makes none).
- Reasons attached to scores, digest texts, and the label keywords, which are a parameter of the organiser.
- Sanitising of what the organiser reads back; the labels it writes pass unchanged.
- The regular expressions of the PII detector and of the sentence splitter: what they find is the input.
- Role tables, settings loading, embeddings, security headers and the user interface.
- NotionSync.SyncTasksToDatabase: the tasks have distinct ids, as Todoist gives them; a list with a repeated id would be written twice in one pass.
- NotionSync.WriteTasks: the same.
- NotionTwoWay.SecondRunRepeats: assumes that Todoist gives the tasks it creates distinct, well-formed ids.
- QueueWorking.TaskQueue.Enqueue: the message object is not yet in the queue; putting one object in twice would make its two places share a retry counter.
- AuditLogging.AuditLog.constructor: what a process finds in the logs of the current month is untampered; tampering is treated by `GarblingGoesUnnoticedIff` and `AcceptedLogsAgree`.
- AuditLogging.AuditLog.OwnLogVerifiesIff: assumes a digest without collisions; `FirstEntryDecides` does not.
- AuditLogging.AuditLog.UntamperedVerifiesIff: the same, and no `|` in the fields before the detail.
- Ledger.ActionLedger.TodayVerifiesIff: assumes a MAC without collisions; `FullDayVerifiesIff` and `RestartBreaksTheChain` do not.
- Ranking.RankTasks: sorting is modelled by a stable insertion sort; `RankingIsUnique` shows that any stable sort gives the same.
- Weekend.OverflowDoesNotFit: assumes durations that are not negative, as the data model has them; with negative ones a later task can free minutes.
- PiiMask.MaskIsRewrite: assumes disjoint, non-empty matches; of overlapping matches only pairs are treated (`OverlapIsProperIff`).
