# Verification of pg_work_queue

pg_work_queue keeps jobs in one Postgres table. Any number of processes push rows, claim them under a
lease, mark them done, retried or dead behind a fencing token, reap expired leases and purge old terminal
rows. This project models that table protocol and the single-process worker on top of it, and proves what
the crate promises about them.

| file | contents |
|---|---|
| `Jobs.dfy` | a row, the schema's CHECK constraints, the SET list and WHERE clause of every statement |
| `Ranking.dfy` | `ORDER BY run_at, id LIMIT n` over a set of rows |
| `Protocol.dfy` | worlds, steps and runs: every statement is one atomic step, any processes interleave |
| `Histories.dfy` | the claims and exits of one row, as a sequence of events |
| `Invariants.dfy` | the invariant of every reachable world, kept by every step |
| `Guarantees.dfy` | what follows for whole runs: fencing, attempt bounds, verdicts, provenance, schedules |
| `Effects.dfy` | what each statement does in the schema's own columns: order of claims, SET lists, verdicts, when a row runs again |
| `KeyedClaim.dfy` | the per-key bounded claim query against a one-pass greedy scan |
| `Database.dfy` | the database as shared mutable state with the library's statements as methods |
| `Ownership.dfy` | what a worker can rely on about a job between its claim and its mark |
| `Decoding.dfy` | claim and decode; an undecodable row is buried, with other statements landing before each mark |
| `KeySlots.dfy` | the per-key live-task counter and its guard |
| `PollLoop.dfy` | permits, slots, handler tasks, counters, shutdown, under arbitrary interleaving |
| `Reaper.dfy` | adaptive drain, panic escalation |
| `Recovery.dfy` | how long the reaper can bypass an expired claim, at any pace, and the runs that meet the bound |
| `Purge.dfy` | the chunked purge loop |
| `Escalation.dfy` | claim-error escalation and which error is surfaced |
| `Config.dfy` | `build`, `compute_retry_delay`, and the timed fencing of accepted configurations |
| `Abandonment.dfy` | when an abandoned claim is back within one and a half leases |
| `Backoff.dfy` | retry backoff over reals |
| `Pusher.dfy` | batch validation in front of INSERT |

How the model reads the system:

- A statement is one atomic step. `SKIP LOCKED` is an arbitrary set of rows locked by somebody else. The
  keyed claim is also treated as two steps, candidate selection and locking, with any run in between.
- `now()` never decreases from one step to the next; `gen_random_uuid()` (UUIDv4, section 5.4 of RFC 9562)
  never repeats; an `IDENTITY` id is never reused. These three are the only assumptions about the database.
- A world also carries what no process can read: every token issued, with the claim it answered, and for every
  id ever inserted the events of that row. No step looks at them, except that tokens and ids must be new.
- A worker acts on its own copy of the claim. A `mark_*` that timed out or errored on the client may or may not
  have been applied.
- `Database.Db` holds a world of the protocol, always one that some run from the empty table leads to. Its methods
  work out the table row by row and ensure that the new world is the protocol's enabled step; other processes are an
  arbitrary run. So what holds of all runs holds wherever the loops are.
- In `PollLoop.dfy` any tasks may end in any way, and other processes may take any steps, between any two actions of
  the loop. Other processes do not know the tokens of the worker's own claims.

Where code and prose differ, the code is modelled:

- UPDATE … RETURNING yields rows in no particular order, although `src/claim.rs:141` speaks of claim order.
- A default mark timeout below 100 ms is rejected, although `README.md:805` says it is clamped.
  `Config.DefaultTimeoutsNeedLease` gives the exact lease from which the defaults are accepted, and
  `Config.ShortDefaultMarkRejected` a 5 s lease that is rejected.
- "lease ≥ 5 × poll" is not enforced when the product overflows `Duration`, "pool ≥ 2 × concurrency + 2" not
  when it saturates u32, and a `retry_in` panics when the poll interval exceeds 24 h, which `build` accepts.
  Each has its exact condition (`Config.FivePollsFitUnlessOverflow`, `Config.PoolFitsUnlessSaturated`,
  `Config.RetryInBand`) and a builder that `build` accepts although it breaks the rule
  (`Config.OverflowingPollAccepted`, `Config.SaturatedPoolAccepted`, `Config.PanickingPollAccepted`).
- "A stale row never sits beyond `lease × 1.5`" (`README.md:820`) is not what the code guarantees. A full batch of
  1024 rows that expired earlier makes the row wait for the next reap. `Abandonment.ThreeHalvesLeasesExactly`: the
  promise holds, for the rows ahead and the pause from a full batch to the next reap, iff
  2 × (reaper_interval + (ahead / 1024) × pause) ≤ lease. `Abandonment.OneBatchIsLate` is a run that breaks it.
- Purging is not per queue.

## Model

| member | source | states |
|---|---|---|
| `Ranking.FirstSize` | src/claim.rs:56-58 | ORDER BY … LIMIT n keeps min(n, size) rows, and everything when n covers the set |
| `Histories.AlternatingCounts` | migrations/20260513000000_v01_init.sql:110-140 | in an alternating history claims and exits differ by one exactly while the row is running |
| `Invariants.ClaimKeepsRow` | src/claim.rs:60-67 | a claim of any claimable row yields a row that meets every CHECK, stays within INTEGER and within its attempt budget |
| `Invariants.MarkKeepsRow` | src/mark.rs:34-45 | a mark by the lease holder, whatever the handler did, yields a row that meets every CHECK and whose status, error and times fit the outcome |
| `Invariants.ReapKeepsRow` | src/reaper.rs:93-110 | a reap yields a row that meets every CHECK, dead iff its attempts are spent |
| `Invariants.StepKeeps` | migrations/20260513000000_v01_init.sql:86-140 | no statement of any process breaks the invariant of the table, the histories and the issued tokens |
| `Invariants.RunKeeps` | migrations/20260513000000_v01_init.sql:86-140 | no run does |
| `Guarantees.ChecksAlwaysHold` | migrations/20260513000000_v01_init.sql:86-140 | after any run every row meets every CHECK, and `attempts + 1` of a claimable row fits INTEGER |
| `Guarantees.MarkFencing` | src/mark.rs:28-115 | after any run, a mark with any id and token changes the table iff the token is that row's open claim, and then that row only |
| `Guarantees.ClaimEndsOnce` | src/mark.rs:34-45 | every token ever issued is one claim of one row, ended exactly once unless that row still runs under it |
| `Guarantees.AttemptsCountClaims` | src/claim.rs:61 | attempts = claims so far = exits so far + (1 if running) |
| `Guarantees.VerdictAgreement` | src/worker.rs:1928-1961 | a worker whose mark lands cached the row's own counters, so its retry-or-dead verdict is the reaper's |
| `Guarantees.RetryHasBudget` | src/worker.rs:1930-1961 | every reachable awaiting_retry row has 0 < attempts < max_attempts, with workers configured differently |
| `Guarantees.StatusTellsCause` | src/worker.rs:1776-1882 | done iff the last exit was Ok, awaiting_retry iff a budgeted exit with budget left, dead otherwise; last_error is the exit's text |
| `Guarantees.AttemptBound` | src/claim.rs:158-160 | no job, purged or not, is claimed more often than the largest clamped max_attempts of a worker that claimed it |
| `Guarantees.UniformDeadUsesAllAttempts` | src/reaper.rs:94-97 | with one max_attempts M, a row dead by retry or lease expiry has attempts exactly M, and no dead row more |
| `Guarantees.StepOnRow` | src/mark.rs:34-45 | a step changes an existing row only by claiming a claimable one, marking a held one or reaping an expired one |
| `Guarantees.RunFollows` | migrations/20260521000000_v01_concurrency_key.sql:49-66 | over any run public_id, queue, payload and key never change, first_attempted_at is set once, terminal rows are frozen, purged ids never return |
| `Guarantees.PublicIdsStayUnique` | migrations/20260513000000_v01_init.sql:47 | no two stored rows share a public_id after any run |
| `Guarantees.NoLoss` | src/purge.rs:75-84 | a row disappears only in a purge step that found it terminal and older than its age |
| `Guarantees.ExitsComeFromSteps` | src/worker.rs:1981-2170 | every worker exit in a history is a mark step of the run with that token and outcome |
| `Guarantees.DoneMeansHandlerOk` | src/worker.rs:1924-1927 | a row is done only if a handler returned Ok under its latest claim's token |
| `Guarantees.EarlyDeathCauses` | src/worker.rs:1860-1880 | a row dead with attempts to spare died by Abort, PanicPolicy::Dead or a decode failure under its latest token |
| `Guarantees.LeaseIsExclusive` | src/reaper.rs:86-88 | until its deadline passes or its own worker marks it, a claimed row cannot change, whatever others do |
| `Guarantees.NotBeforeRunAt` | src/claim.rs:54-55 | a queued or retried row does not move before its run_at |
| `Guarantees.RetryWaitsOutDelay` | src/mark.rs:103-115 | a retried row sits out its delay in every continuation |
| `Effects.ClaimsExactly` | src/claim.rs:54-58 | a claim takes a row iff it is a stored, due, unlocked candidate and fewer such rows than the limit have an earlier (run_at, id) |
| `Effects.ClaimsInOrder` | src/claim.rs:56-58 | a row that could have been taken and was not has a later (run_at, id) than every row taken |
| `Effects.ShortClaimTakesAll` | src/claim.rs:54-58 | a claim that comes back short left no due unlocked candidate |
| `Effects.ClaimWrites` | src/claim.rs:60-67 | the claimed row column by column: one attempt more, the claimer's own max_attempts up to i32::MAX, its lease and token; run_at stays |
| `Effects.MarkWrites` | src/worker.rs:1910-1977 | the marked row column by column, by outcome: Ok done; Abort, undecodable, PanicPolicy::Dead dead at once; Retry, timeout, PanicPolicy::Retry dead iff attempts are spent, else waiting exactly the delay |
| `Effects.ReapWrites` | src/reaper.rs:93-110 | the reaped row column by column: dead iff attempts are spent, run_at and counters stay |
| `Effects.PushWrites` | src/pusher.rs:109-160 | a push stores one queued row with the pusher's payload, key and run_at, and touches no other |
| `Effects.ReapsExactly` | src/reaper.rs:84-91 | a reap takes only unlocked expired running rows of its queue, and leaves one only when full of rows that expired no later |
| `Effects.EmptyReap` | src/reaper.rs:84-91 | a reap that takes nothing had nothing to take |
| `Effects.PurgesExactly` | src/purge.rs:75-84 | a purge deletes only unlocked rows of its status finished before its age, and leaves one only when full of rows finished no later |
| `Effects.ChecksMean` | migrations/20260513000000_v01_init.sql:86-140 | the CHECKs give a lease exactly while running, an end exactly when terminal, attempts only after a claim, times in order |
| `Effects.PushedWaitsForRunAt` | src/pusher.rs:140-160 | in every continuation a scheduled push is untouched before its run_at, and due from then on |
| `Effects.RetriedWaitsForDelay` | src/mark.rs:103-115 | in every continuation a retried row is untouched before now + delay, and due from then on |
| `Effects.ReapedIsDueAtOnce` | src/reaper.rs:93-110 | a reaped row with attempts left is due at once, in every reachable world |
| `Effects.NeverRunsAgain` | src/worker.rs:1860-1880 | after an Abort, a decode failure or a PanicPolicy::Dead panic the row is dead in every continuation, whatever budget was left |
| `Effects.StatusIsVerdict` | src/worker.rs:1910-1977 | after any run the status of a row that left running is the verdict of its latest exit, outcome by outcome |
| `Effects.FleetSpendsBudget` | src/claim.rs:158-160 | when every worker of a run has max_attempts M, a job dead of retries or expired leases was tried exactly min(M, i32::MAX) times |
| `KeyedClaim.Listing` | src/claim.rs:123-123 | every set of rows has a listing in (run_at, id) order, so the greedy scan is always defined |
| `KeyedClaim.KeyedIsFirstAdmitted` | src/claim.rs:88-137 | the four CTEs with their three LIMITs equal one LIMIT over the rows whose key has room |
| `KeyedClaim.KeyedIsGreedy` | src/claim.rs:88-137 | with nothing locked, SQL_KEYED claims exactly the rows of a one-pass greedy scan with per-key budgets |
| `KeyedClaim.KeyedSkipsOnlySaturated` | src/claim.rs:88-137 | with nothing locked, a due row of the queue is left behind only if its key's headroom is used up or the batch is full of rows with an earlier (run_at, id) |
| `KeyedClaim.KeyedCollapsesToPlain` | src/claim.rs:51-137 | with no headroom entry below `want` (or none at all) SQL_KEYED claims what SQL_PLAIN claims |
| `KeyedClaim.CandidatesWithinHeadroom` | src/claim.rs:93-105 | the candidates of one key never outnumber its headroom |
| `KeyedClaim.KeyedUnderLocks` | src/claim.rs:116-126 | under any locks it claims the first `want` unlocked candidates and never more than a key's headroom |
| `KeyedClaim.SplitClaimIsSafe` | src/claim.rs:93-134 | candidates chosen in one world and locked after any run still give only claimable rows of the queue, at most `want`, at most headroom per key |
| `KeyedClaim.SaturatedKeyBlocksNobody` | src/claim.rs:72-137 | a key without headroom claims nothing and changes nothing for other rows; the claim is short only when no admitted row is left |
| `KeyedClaim.PlainIsClaimStep` | src/claim.rs:51-67 | SQL_PLAIN is a claim step of the protocol |
| `KeyedClaim.KeyedIsClaimStep` | src/claim.rs:88-134 | SQL_KEYED is a claim step of the protocol |
| `Database.RunKeepsKeys` | migrations/20260521000000_v01_concurrency_key.sql:49-66 | no run changes the queue or key of a row that stays |
| `Database.SelectLimited` | src/reaper.rs:89-91 | the selection loop returns a legal answer of ORDER BY column LIMIT n |
| `Database.UpdateClaimed` | src/claim.rs:60-70 | the claim UPDATE row by row: exactly the chosen rows, each a fresh token, each returned once |
| `Database.UpdateReaped` | src/reaper.rs:93-111 | the reap UPDATE row by row: exactly the chosen rows, each returned once with its new status |
| `Database.Db.Mark` | src/mark.rs:28-115 | the fenced UPDATE decided from the worker's copy of the claim is the protocol's finish step; affected is 1 iff the lease was held, 0 iff the table is unchanged |
| `Database.Db.ClaimBatch` | src/claim.rs:148-201 | path choice and i32 clamps; after whatever others did between selection and locking it is an enabled claim step of the protocol; every claimed row is returned once with its columns, in (run_at, id) order of choice, of that queue only, at most the batch, at most headroom per key |
| `Database.Db.ClaimFrom` | src/claim.rs:51-70 | locking the first unlocked still-claimable candidates and updating them row by row under unused tokens is an enabled claim step; those left have a later (run_at, id) |
| `Database.PlainClaimsExactly` | src/claim.rs:51-58 | without limits a row is taken iff it is a due unlocked row of the queue with fewer than the batch of such rows before it in (run_at, id) order |
| `Database.ClaimIsOfQueue` | src/claim.rs:53-134 | a claim takes rows of its queue only, due when locked |
| `Database.ClaimWithinHeadroom` | src/claim.rs:93-134 | rows claimed out of candidates selected before an arbitrary run stay within every key's headroom |
| `Database.Db.Reap` | src/reaper.rs:72-130 | flipping the stalest unlocked expired rows up to the limit, row by row, is an enabled reap step; each is returned once with its new status |
| `Database.Db.PurgeChunk` | src/purge.rs:75-92 | deleting the oldest unlocked eligible rows up to the limit is an enabled purge step; they are counted |
| `Ownership.OwnedThroughRun` | src/mark.rs:34-45 | until its deadline a claimed row keeps running under the worker's claim, over any run of processes that do not know its token |
| `Ownership.OwnersDiffer` | src/claim.rs:60-67 | two claims within their leases, of one worker or of two, are of different rows |
| `Ownership.ClaimHandsOut` | src/claim.rs:68-70 | a claim hands out owned jobs, each with the id, attempts and max_attempts issued under its token, all tokens fresh and different |
| `Decoding.DecodableIsSmaller` | src/claim.rs:259-279 | the decoded jobs are exactly the returned rows that decode, per key no more than were returned |
| `Decoding.BuriedExactly` | src/claim.rs:280-320 | a mark_dead that lands moves its row to dead iff the claim is still held, and moves no other row; until the deadline it is held, whatever landed before; last_error says what the codec did |
| `Decoding.ClaimAndDecode` | src/claim.rs:235-324 | the claim is the one for this queue, batch, lease, max_attempts and headroom; jobs are exactly its rows that decode, owned, under different tokens, within batch and headroom; every other row of it is buried in turn, with anything happening before each mark, and a mark that errored possibly applied |
| `KeySlots.Counter.Acquire` | src/key_slot.rs:34-50 | increments one key's count, saturating |
| `KeySlots.Counter.Drop` | src/key_slot.rs:58-67 | decrements the guard's key, saturating, or nothing |
| `PollLoop.SpawnKeepsSlots` | src/worker.rs:1670-1682 | spawning the next claimed row keeps count = live holders, count + claimed ≤ limit and the slot each task's key calls for, and its increment does not saturate |
| `PollLoop.ExitKeepsSlots` | src/key_slot.rs:58-67 | any task exit keeps them, and its decrement does not saturate |
| `PollLoop.SettleKeepsStats` | src/worker.rs:1981-2170 | one more settled task adds to at most one counter, completed matching rows moved to done and failed rows moved elsewhere |
| `PollLoop.CountersTellEffects` | src/worker.rs:1981-2170 | completed and failed count answered marks that moved their row, by where it went; fenced_out counts answered marks that changed nothing; the timeouts count themselves |
| `PollLoop.Worker.Settle` | src/worker.rs:1910-2170 | the mark sent, its effect on the table, and the one counter bumped |
| `PollLoop.Worker.EndTask` | src/worker.rs:1732-1905 | however a task ends, permits, slots and the other tasks' claims stay conserved, and table and counters are those of its ending; a task settled within its lease is never fenced out |
| `PollLoop.Worker.SettleTask` | src/worker.rs:1732-1905 | the counter of a settled task is the one its reply and its lease at that moment call for |
| `PollLoop.NoTwoTasksShareRow` | src/claim.rs:60-67 | no two live tasks within their leases work on the same row |
| `PollLoop.OwnedElsewhere` | src/mark.rs:34-45 | no run of other processes takes a claim from the worker before its deadline |
| `PollLoop.OwnedAfterMark` | src/mark.rs:34-45 | one task's mark leaves every other task's claim alone |
| `PollLoop.Worker.AcquirePermits` | src/worker.rs:1559-1573 | the permits taken, at most the batch size, with tasks ending meanwhile |
| `PollLoop.Worker.Snapshot` | src/worker.rs:1604-1620 | headroom is limit minus live count, never saturated |
| `PollLoop.Worker.SpawnPending` | src/worker.rs:1669-1682 | the zip of rows with permits drops no row |
| `PollLoop.Worker.PollTick` | src/worker.rs:1548-1722 | unless every permit is held by a task or the claim errors, a tick claims for its queue with headroom limit minus live tasks per key and starts a handler for every row that decodes; it keeps every conservation law and returns surplus permits |
| `PollLoop.Worker.Poll` | src/worker.rs:1530-1723 | after any number of ticks the handlers started are exactly those of the jobs the ticks got; live tasks are within concurrency, those of a configured key within its limit, and no two of them within their leases share a row |
| `PollLoop.Worker.AbortRemaining` | src/worker.rs:1430-1480 | each remaining task is counted aborted once, or counted itself, or stays live |
| `PollLoop.TasksWithinLimit` | src/worker.rs:1604-1682 | in every valid worker state no configured key has more live tasks, slot or not, than its limit |
| `PollLoop.Worker.CancelTask` | src/worker.rs:1455-1470 | a cancelled task gives back permit and slot, its handler timeout counted, its mark applied or not |
| `PollLoop.Worker.StopPolling` | src/worker.rs:1291-1294 | the poll loop can stop at any point; its permits return and unspawned rows are left to the reaper |
| `PollLoop.Worker.Shutdown` | src/worker.rs:1291-1319 | the five counters and the live tasks never exceed tasks spawned; with no unseen reply completed and failed are exactly the rows moved; every permit not held by a surviving task is free; pending_recovery is the number of running rows of the queue, or 0 when the query fails |
| `Reaper.Tick` | src/reaper.rs:201-215 | one tick is an enabled reap step of at most 1024 rows; short, it leaves no unlocked expired row of the queue |
| `Reaper.Drain` | src/reaper.rs:164-215 | S expired rows are all reaped, once each, in S / 1024 + 1 back-to-back reaps |
| `Reaper.Loop` | src/reaper.rs:154-299 | every sweep is an enabled 1024-row reap of the queue in the world left by the ticks before it and by others, and a short one leaves nothing unlocked; the loop leaves at the first fatal error, cancellation or third panic in a row and at no other tick, recording 3; it waits before every tick except right after a full sweep |
| `Recovery.AheadNeverGrows` | src/reaper.rs:84-91 | past a claim's deadline no statement puts another row ahead of it in lease_expires_at order |
| `Recovery.ReapTakesOrThins` | src/reaper.rs:84-91 | a reap that may take an expired claim takes it, or a full batch out of the rows ahead of it |
| `Recovery.ShortReapRecovers` | src/reaper.rs:84-111 | a reap that comes back short has recovered every unlocked expired claim, to the status its counters call for |
| `Recovery.BypassBounded` | src/reaper.rs:84-91 | while an expired claim is held, 1024 × the reaps so far plus the rows still ahead never exceed the rows ahead at the start, whatever arrives |
| `Recovery.PacedRecovers` | src/reaper.rs:154-215 | at any pace, `interval` between reaps and `pause` after a full one, no claim is held past its deadline by more than one interval and one pause per full batch ahead of it at expiry |
| `Recovery.WorstRun` | src/reaper.rs:84-215 | some run at that pace, with nothing locked, holds the claim exactly that long |
| `Recovery.PacedExactly` | src/reaper.rs:84-215 | the pace frees an expired claim within a bound iff one interval and one pause per full batch ahead fit into it |
| `Recovery.OneTickExactly` | src/reaper.rs:84-215 | with ticks that never hurry, one interval is enough iff fewer than 1024 rows are ahead |
| `Guarantees.LostForGood` | src/mark.rs:34-45 | a lease once lost never comes back |
| `Purge.PurgeTerminal` | src/purge.rs:65-109 | the loop ends, returns the number of rows deleted, at most 10000 per chunk, deleted only rows eligible at their chunk's clock, and leaves none unlocked and eligible |
| `Escalation.PollErrors` | src/worker.rs:1654-1721 | last_fatal is set at the first fatal error or 30th transient error in a row, with that error, and at no other tick |
| `Escalation.Surface` | src/worker.rs:1334-1339 | the first fatal error is surfaced if there is one, else the first escalation |
| `Config.Build` | src/worker.rs:668-838 | every accepted configuration fits handler and mark into the lease and two reaper ticks per lease; the default mark timeout leaves exactly 1 s |
| `Config.BuildExactly` | src/worker.rs:668-838 | a builder is accepted iff it breaks none of the 18 rules, each in the documented numbers; otherwise the error names the first rule it breaks |
| `Config.SettingsAreTheBuilders` | src/worker.rs:741-838 | the worker gets the builder's values; defaults are 0.8 lease, what is left less 1 s, and a quarter of the lease |
| `Config.DefaultTimeoutsNeedLease` | src/worker.rs:741-773 | with default timeouts, accepted iff the lease is at least 5.5 s (less 2 ns of rounding) |
| `Config.ShortDefaultMarkRejected` | src/worker.rs:755-773 | a 5 s lease with default timeouts, accepted at 60 s, is rejected for its mark timeout |
| `Config.FivePollsFitUnlessOverflow` | src/worker.rs:708-714 | an accepted lease covers five polls iff five polls fit a Duration |
| `Config.OverflowingPollAccepted` | src/worker.rs:708-714 | build accepts a lease shorter than one poll |
| `Config.PoolFitsUnlessSaturated` | src/worker.rs:729-739 | an accepted pool has 2 × concurrency + 2 connections iff that fits u32 |
| `Config.SaturatedPoolAccepted` | src/worker.rs:729-739 | build accepts a pool with one connection per handler |
| `Config.RetryInBand` | src/worker.rs:2262-2285 | retry_in is clamped into [max(poll, 100 ms), 24 h]; the clamp panics iff the poll interval exceeds 24 h |
| `Config.DelaysWithinADay` | src/worker.rs:2262-2285 | under every accepted configuration a job without retry_in waits its backoff to the nearest nanosecond, and no delay exceeds 24 h |
| `Config.PanickingPollAccepted` | src/worker.rs:702-714 | build accepts a poll interval for which that clamp panics |
| `Config.TimedMarkLands` | src/worker.rs:741-779 | for every accepted configuration and run, a handler started within the slack and marked in time still holds its lease, and its mark moves its row only |
| `Abandonment.AbandonedClaimRecovered` | src/worker.rs:784-797 | for every accepted configuration and run at the reaper's pace, no claim is held longer than its lease, one reaper_interval and one pause per full batch ahead at expiry |
| `Abandonment.WorstCase` | src/worker.rs:784-797 | for every accepted configuration, pace and backlog a run from the empty table holds a claim exactly that long |
| `Abandonment.ThreeHalvesLeasesExactly` | src/worker.rs:784-797 | every abandoned claim is back within 1.5 leases iff 2 × (reaper_interval + (ahead / 1024) × pause) ≤ lease |
| `Abandonment.OneBatchIsLate` | src/worker.rs:784-797 | with reaper_interval = lease / 2, one full batch ahead and any pause, a run breaks 1.5 leases |
| `Abandonment.DefaultIntervalLeavesAQuarter` | src/worker.rs:784-797 | with the default interval 1.5 leases hold while the batches ahead take at most a quarter of the lease |
| `Backoff.Bernoulli` | src/backoff.rs:176-182 | factor^n is at least 1 + n (factor − 1) |
| `Backoff.ClampIsExact` | src/backoff.rs:162-190 | the clamped delay is min(raw, cap) whether or not the product overflowed |
| `Backoff.LinearSteps` | src/backoff.rs:162-190 | linear delays start at min(base, cap) and grow by increment up to cap |
| `Backoff.ExponentialSteps` | src/backoff.rs:176-190 | unjittered exponential delays start at min(base, cap) and grow by factor up to cap, for i32::MAX attempts |
| `Backoff.JitterScales` | src/backoff.rs:191-218 | a jittered delay is the unjittered one times 1 + draw, up to cap |
| `Backoff.NextInBand` | src/backoff.rs:191-218 | every delay lies in [0, cap] and within the jitter band of the clamped value |
| `Backoff.NextMonotone` | src/backoff.rs:162-199 | without jitter delays never shrink |
| `Backoff.PinnedAtCap` | src/backoff.rs:176-199 | without jitter the delay is cap from any n ≤ i32::MAX with base (1 + n (factor − 1)) ≥ cap |
| `Pusher.ValidatedPushPassesChecks` | src/pusher.rs:109-160 | the validation refuses exactly the queues, keys and payloads the CHECKs would |
| `Pusher.PushPassesChecksExactly` | migrations/20260513000000_v01_init.sql:86-140 | a pushed row passes every CHECK iff queue, key and payload are within the documented limits and its run_at is absent or not in the past |
| `Pusher.ItemErrorTells` | src/pusher.rs:176-209 | an item is fine iff its key, payload and the batch so far are within the documented limits; otherwise the error names the first it breaks |
| `Pusher.PrepareBatch` | src/pusher.rs:176-209 | all items in input order with every row passing the CHECKs, or the error of the first bad item in check order |

## Left out

- PollLoop.Worker.Shutdown: the split of the timeout between the loops and the handlers, and aborting the reaper, whose statements are atomic steps anyway, are not modelled.
- PollLoop.Worker.EndTask: the delay of a retry is part of how the task ended; what `compute_retry_delay` makes it is stated by `Config.DelaysWithinADay`.
- Recovery.PacedRecovers: `pause` is at most `interval`, since the loop skips its wait after a full batch; a reap counts when the row is not locked by somebody else at that moment; a row whose lock is never free is never reaped.
- Tracing, transition events, saturation logging and error texts other than `last_error`: observability only.
- Connection pool, TLS, the schema probe and migrations: a statement is answered, errors or times out.
- Codec and serde internals: decode is a parameter with three outcomes.
- The variant list of `is_fatal_sqlx`: an error carries its classification.
- `tick_once` and `queue_stats`: they repeat `handle_job` and the statements.
- Poisoned mutexes: the code treats them as unreachable.
- Transactions whose `now()` lies before an earlier committed statement's: the clock is nondecreasing across steps.
- Clock skew and handlers that ignore their timeout: worker timers and the database share one clock, and the timed results assume a handler ends within `handler_timeout`.
- Timestamp precision, interval and timestamp overflow, u64 overflow of the counters: times and counters are unbounded integers.
- f64 rounding in `mul_f64`, `powi` and jitter: reals, with overflow beyond 2^1024 kept as its own case.
- `BackoffPolicy::next` on a policy that `validate` rejects: the worker only calls it on validated ones.
- Several workers sharing one per-key limit: the crate documents the limit per worker object, and so does the model.
- The INSERT of `push_batch` and its `BatchPartial` error: insertion is the push step of the protocol, one row at a time.
