/** The worker's poll loop: permits, per-key slots, handler tasks and their counters, with task
    exits and other processes' statements landing between any two of its actions. */
module PollLoop {
  import opened Jobs
  import opened Ranking
  import opened Protocol
  import opened Guarantees
  import opened KeyedClaim
  import opened Database
  import opened Ownership
  import opened Decoding
  import opened KeySlots

  /** A spawned `handle_job`. */
  datatype Task = Task(job: Job, slot: Guard)

  /** The live tasks, by the token of the claim each works on. */
  type Tasks = map<Token, Task>

  /** How a `mark_*` sent by a task came back. A statement that errored or timed out on the
      client may or may not have been applied. */
  datatype Reply = Answered | SqlError(applied: bool) | TimedOut(applied: bool)

  /** How a task ends. `Vanished` covers a cancelled inner task and a panic outside the handler. */
  datatype Ending = Settled(outcome: Outcome, delay: nat, reply: Reply) | Vanished

  /** How a task is joined during the abort: cancelled, its handler possibly timed out before that and its mark
      for `applied` possibly applied unseen, or ended by itself. */
  datatype Joined = Cancelled(handlerTimedOut: bool, applied: Option<Outcome>, delay: nat) | Ended(ending: Ending)

  /** The worker's counters. */
  datatype Stats = Stats(completed: nat, failed: nat, fencedOut: nat, timedOut: nat, markTimedOut: nat, aborted: nat)

  /** Tasks that ended without touching a counter, and rows that tasks' marks moved to done or elsewhere. */
  datatype Ledger = Ledger(uncounted: nat, toDone: nat, toOther: nat)

  // ------------------------------------------------------------- conservation

  /** Free permits, permits held by the poll loop and permits held by tasks add up,
      and every row claimed but not yet spawned has one. */
  ghost predicate PermitsOk(concurrency: nat, free: nat, permits: nat, live: Tasks, pending: seq<Job>) {
    free + permits + |live| == concurrency && |pending| <= permits
  }

  /** The guard a claimed row's task is given. */
  function SlotFor(limits: map<Key, nat>, job: Job): Guard {
    if job.key.Some? && job.key.value in limits then Slot(job.key.value) else NoSlot
  }

  /** The live tasks holding a slot of `k`. */
  ghost function Holders(live: Tasks, k: Key): set<Token> {
    set t | t in live && live[t].slot == Slot(k)
  }

  /** For each configured key, the count is its number of live slot holders, and count plus claimed
      rows stays within the limit. Every live task holds the slot its job's key calls for. */
  ghost predicate SlotsOk(limits: map<Key, nat>, counts: map<Key, nat>, live: Tasks, pending: seq<Job>) {
    && counts.Keys == limits.Keys
    && (forall k :: k in limits ==>
          && limits[k] <= I32_MAX
          && counts[k] == |Holders(live, k)|
          && counts[k] + KeyCount(pending, k) <= limits[k])
    && (forall t :: t in live ==> live[t].slot == SlotFor(limits, live[t].job))
  }

  /** Every task ever spawned is live or ended in at most one counter. The rows tasks moved to done are the
      completed ones, those they moved to awaiting_retry or dead the failed ones, up to replies nobody saw.
      `extra` ended tasks still have to be counted, `unseen` of them with a mark that may have been applied. */
  ghost predicate StatsOk(s: Stats, l: Ledger, live: Tasks, spawned: nat, extra: nat, unseen: nat) {
    && s.completed + s.failed + s.fencedOut + s.markTimedOut + s.aborted + l.uncounted + extra + |live| == spawned
    && s.timedOut + extra + |live| <= spawned + unseen
    && s.completed <= l.toDone && s.failed <= l.toOther
    && l.toDone + l.toOther <= s.completed + s.failed + s.markTimedOut + s.aborted + l.uncounted + unseen
  }

  /** The live tasks whose job has key `k`, slot or not. */
  ghost function TasksOfKey(live: Tasks, k: Key): set<Token> {
    set t | t in live && live[t].job.key == Some(k)
  }

  /** No configured key has more live tasks than its limit. */
  lemma TasksWithinLimit(limits: map<Key, nat>, counts: map<Key, nat>, live: Tasks, pending: seq<Job>, k: Key)
    requires SlotsOk(limits, counts, live, pending) && k in limits
    ensures |TasksOfKey(live, k)| == counts[k] <= limits[k]
  {
    assert TasksOfKey(live, k) == Holders(live, k);
  }

  /** Rows claimed within the headroom fit beside the live tasks. */
  lemma PendingFits(limits: map<Key, nat>, counts: map<Key, nat>, live: Tasks, jobs: seq<Job>, headroom: Headroom)
    requires SlotsOk(limits, counts, live, []) && headroom.Keys == limits.Keys
    requires forall k :: k in limits ==> 0 <= headroom[k] <= limits[k] - counts[k]
    requires forall k :: k in headroom ==> KeyCount(jobs, k) <= Max(headroom[k], 0)
    ensures SlotsOk(limits, counts, live, jobs)
  {
  }

  lemma HoldersAfterSpawn(live: Tasks, t: Token, task: Task, k: Key)
    requires t !in live
    ensures |Holders(live[t := task], k)| == |Holders(live, k)| + if task.slot == Slot(k) then 1 else 0
  {
    if task.slot == Slot(k) {
      assert Holders(live[t := task], k) == Holders(live, k) + {t};
    } else {
      assert Holders(live[t := task], k) == Holders(live, k);
    }
  }

  function Take(counts: map<Key, nat>, g: Guard): map<Key, nat> {
    if g.Slot? then Acquired(counts, g.key) else counts
  }

  /** Spawning the next claimed row keeps the slots, and its `saturating_add` does not saturate. */
  lemma SpawnKeepsSlots(limits: map<Key, nat>, counts: map<Key, nat>, live: Tasks, pending: seq<Job>, t: Token)
    requires SlotsOk(limits, counts, live, pending) && pending != [] && t !in live
    ensures var g := SlotFor(limits, pending[0]);
            && SlotsOk(limits, Take(counts, g), live[t := Task(pending[0], g)], pending[1..])
            && (g.Slot? ==> counts[g.key] < limits[g.key] && Take(counts, g)[g.key] == counts[g.key] + 1)
  {
    var g := SlotFor(limits, pending[0]);
    var next := live[t := Task(pending[0], g)];
    forall k | k in limits
      ensures Take(counts, g)[k] == |Holders(next, k)| && Take(counts, g)[k] + KeyCount(pending[1..], k) <= limits[k]
    {
      HoldersAfterSpawn(live, t, Task(pending[0], g), k);
      assert KeyCount(pending, k) == KeyCount(pending[1..], k) + if pending[0].key == Some(k) then 1 else 0;
    }
  }

  /** A task's exit keeps the slots, and its `saturating_sub` does not saturate. */
  lemma ExitKeepsSlots(limits: map<Key, nat>, counts: map<Key, nat>, live: Tasks, pending: seq<Job>, t: Token)
    requires SlotsOk(limits, counts, live, pending) && t in live
    ensures var g := live[t].slot;
            && SlotsOk(limits, Dropped(counts, g), live - {t}, pending)
            && (g.Slot? ==> counts[g.key] > 0)
            && (forall k :: k in limits ==> Dropped(counts, g)[k] <= counts[k])
  {
    var g, rest := live[t].slot, live - {t};
    assert live == rest[t := live[t]];
    forall k | k in limits ensures Dropped(counts, g)[k] == |Holders(rest, k)| {
      HoldersAfterSpawn(rest, t, live[t], k);
    }
    if g.Slot? { HoldersAfterSpawn(rest, t, live[t], g.key); }
  }

  /** The rows `count_pending_recovery` counts. */
  function RunningIds(rows: Table, queue: string): set<Id> {
    set i | i in rows && rows[i].queue == queue && rows[i].status == Running
  }

  // --------------------------------------------------------------- ownership

  /** Every live task and every claimed row has its own claim, and owns it. */
  ghost predicate TasksOwned(w: World, live: Tasks, pending: seq<Job>) {
    && (forall t :: t in live ==> live[t].job.leaseToken == t && Owned(w, live[t].job))
    && AllOwned(w, pending) && TokensDiffer(pending)
    && (forall a :: 0 <= a < |pending| ==> pending[a].leaseToken !in live)
  }

  /** The tokens only this worker knows. */
  function Mine(live: Tasks, pending: seq<Job>): set<Token> {
    live.Keys + TokensOf(pending)
  }

  /** Task `t` is live and its lease has not run out. */
  ghost predicate InLease(w: World, live: Tasks, t: Token) { t in live && w.now <= live[t].job.leaseExpiresAt }

  /** No two live tasks within their leases work on the same row. */
  lemma NoTwoTasksShareRow(w: World, live: Tasks, pending: seq<Job>, t: Token, u: Token)
    requires TasksOwned(w, live, pending) && InLease(w, live, t) && InLease(w, live, u) && t != u
    ensures live[t].job.id != live[u].job.id
  {
    OwnersDiffer(w, live[t].job, live[u].job);
  }

  lemma MineIsIssued(w: World, live: Tasks, pending: seq<Job>)
    requires TasksOwned(w, live, pending)
    ensures Mine(live, pending) <= w.issued.Keys
  {
  }

  /** Whatever others do leaves the worker's claims alone. */
  lemma OwnedElsewhere(w: World, steps: seq<Step>, live: Tasks, pending: seq<Job>)
    requires Reached(w) && TasksOwned(w, live, pending) && Spares(steps, Mine(live, pending))
    ensures TasksOwned(Run(w, steps), live, pending)
  {
    ReachedKeeps(w);
    forall t | t in live ensures Owned(Run(w, steps), live[t].job) {
      OwnedThroughRun(w, steps, live[t].job);
    }
    forall a | 0 <= a < |pending| ensures Owned(Run(w, steps), pending[a]) {
      assert pending[a].leaseToken in TokensOf(pending);
      OwnedThroughRun(w, steps, pending[a]);
    }
  }

  /** Nor does the mark of one task touch another's claim. */
  lemma OwnedAfterMark(w: World, live: Tasks, pending: seq<Job>, t: Token, o: Outcome, delay: nat)
    requires Reached(w) && TasksOwned(w, live, pending) && t in live
    ensures TasksOwned(Apply(w, Finish(t, o, delay)), live - {t}, pending)
  {
    var s := Finish(t, o, delay);
    OneStep(w, s);
    OwnedElsewhere(w, [s], live - {t}, pending);
  }

  lemma OwnedMore(w: World, live: Tasks, jobs: seq<Job>)
    requires TasksOwned(w, live, []) && AllOwned(w, jobs) && TokensDiffer(jobs) && TokensOf(jobs) !! live.Keys
    ensures TasksOwned(w, live, jobs)
  {
    forall a | 0 <= a < |jobs| ensures jobs[a].leaseToken !in live { assert jobs[a].leaseToken in TokensOf(jobs); }
  }

  lemma OwnedSpawn(w: World, live: Tasks, pending: seq<Job>, slot: Guard)
    requires TasksOwned(w, live, pending) && pending != []
    ensures pending[0].leaseToken !in live
    ensures TasksOwned(w, live[pending[0].leaseToken := Task(pending[0], slot)], pending[1..])
  {
  }

  // ------------------------------------------------------------------- marks

  /** A statement that errored or timed out changes the table only if it was applied. */
  function Replied(w: World, job: Job, o: Outcome, delay: nat, reply: Reply): World {
    if reply.Answered? || reply.applied then Apply(w, Finish(job.leaseToken, o, delay)) else w
  }

  lemma OwnedAfterReply(w: World, live: Tasks, pending: seq<Job>, t: Token, o: Outcome, delay: nat, reply: Reply)
    requires Reached(w) && TasksOwned(w, live, pending) && t in live
    ensures TasksOwned(Replied(w, live[t].job, o, delay, reply), live - {t}, pending)
  {
    if reply.Answered? || reply.applied { OwnedAfterMark(w, live, pending, t, o, delay); }
  }

  function Unseen(w: World, job: Job, applied: Option<Outcome>, delay: nat): World {
    if applied.Some? then Apply(w, Finish(job.leaseToken, applied.value, delay)) else w
  }

  lemma OwnedAfterUnseen(w: World, live: Tasks, pending: seq<Job>, t: Token, applied: Option<Outcome>, delay: nat)
    requires Reached(w) && TasksOwned(w, live, pending) && t in live
    ensures TasksOwned(Unseen(w, live[t].job, applied, delay), live - {t}, pending)
  {
    if applied.Some? { OwnedAfterMark(w, live, pending, t, applied.value, delay); }
  }

  /** The one counter a settled task adds to, given whether it still held the lease. */
  function Count(s: Stats, o: Outcome, reply: Reply, held: bool): Stats {
    var s := if o.HandlerTimedOut? then s.(timedOut := s.timedOut + 1) else s;
    match reply
    case Answered =>
      if !held then s.(fencedOut := s.fencedOut + 1)
      else if o.HandlerOk? then s.(completed := s.completed + 1)
      else s.(failed := s.failed + 1)
    case SqlError(_) => s
    case TimedOut(_) => s.(markTimedOut := s.markTimedOut + 1)
  }

  /** A task that vanishes sends no mark and touches no counter. */
  function LeftByTask(w: World, job: Job, ending: Ending): World {
    if ending.Settled? then Replied(w, job, ending.outcome, ending.delay, ending.reply) else w
  }

  function CountTask(s: Stats, ending: Ending, held: bool): Stats {
    if ending.Settled? then Count(s, ending.outcome, ending.reply, held) else s
  }

  /** What each counter means, read off the table: completed and failed count answered marks that moved their row, by
      where it went; fenced_out counts answered marks that changed nothing; the two timeouts count themselves. */
  lemma CountersTellEffects(w: World, job: Job, o: Outcome, delay: nat, reply: Reply, s: Stats)
    requires Handed(w, job)
    ensures var rows, held := Replied(w, job, o, delay, reply).rows, HoldsLease(w.rows, job.id, job.leaseToken);
            var s' := Count(s, o, reply, held);
            var moved := job.id in rows && job.id in w.rows && rows[job.id] != w.rows[job.id];
            && s'.completed - s.completed == (if reply.Answered? && moved && rows[job.id].status == Done then 1 else 0)
            && s'.failed - s.failed == (if reply.Answered? && moved && rows[job.id].status != Done then 1 else 0)
            && s'.fencedOut - s.fencedOut == (if reply.Answered? && rows == w.rows then 1 else 0)
            && s'.timedOut - s.timedOut == (if o.HandlerTimedOut? then 1 else 0)
            && s'.markTimedOut - s.markTimedOut == (if reply.TimedOut? then 1 else 0)
            && s'.aborted == s.aborted
  {
    if HoldsLease(w.rows, job.id, job.leaseToken) && reply.Answered? {
      assert Replied(w, job, o, delay, reply).rows[job.id].status != Running;
    }
  }

  /** A row left running; where to is read off the table. */
  ghost function Moved(l: Ledger, id: Id, before: Table, after: Table): Ledger {
    if id !in before || id !in after || after[id] == before[id] then l
    else if after[id].status == Done then l.(toDone := l.toDone + 1)
    else l.(toOther := l.toOther + 1)
  }

  ghost function LedgerAfter(l: Ledger, reply: Reply, id: Id, before: Table, after: Table): Ledger {
    Moved(if reply.SqlError? then l.(uncounted := l.uncounted + 1) else l, id, before, after)
  }

  /** Settling one more ended task keeps the counters and the moved rows in step. */
  lemma SettleKeepsStats(s: Stats, l: Ledger, live: Tasks, spawned: nat, n: nat, w: World, job: Job,
                         o: Outcome, delay: nat, reply: Reply)
    requires StatsOk(s, l, live, spawned, n + 1, n) && Handed(w, job)
    ensures StatsOk(Count(s, o, reply, HoldsLease(w.rows, job.id, job.leaseToken)),
                    LedgerAfter(l, reply, job.id, w.rows, Replied(w, job, o, delay, reply).rows), live, spawned, n, n)
  {
    var after := Replied(w, job, o, delay, reply).rows;
    if HoldsLease(w.rows, job.id, job.leaseToken) && (reply.Answered? || reply.applied) {
      assert after[job.id].status == Done <==> o.HandlerOk?;
      assert after[job.id].status != Running;
    } else {
      assert after == w.rows;
    }
  }

  function CountCancelled(s: Stats, handlerTimedOut: bool): Stats {
    if handlerTimedOut then s.(timedOut := s.timedOut + 1) else s
  }

  /** So does cancelling one, which leaves one more to be counted, its row possibly moved. */
  lemma CancelKeepsStats(s: Stats, l: Ledger, live: Tasks, spawned: nat, n: nat, handlerTimedOut: bool, id: Id,
                         before: Table, after: Table)
    requires StatsOk(s, l, live, spawned, n + 1, n)
    ensures StatsOk(CountCancelled(s, handlerTimedOut), Moved(l, id, before, after), live, spawned, n + 1, n + 1)
  {
  }

  // ------------------------------------------------------------------ fetches

  /** One claim of the poll loop: the tasks live at its headroom snapshot, the world it started in, what it asked
      for, and what it got. */
  datatype Fetch = Fetch(live: Tasks, at: World, headroom: Headroom, want: nat, locked: set<Id>, batch: Batch,
                         jobs: seq<Job>)

  /** How a tick went: every permit was held by a task, the claim errored, or it fetched. */
  datatype TickLog = Busy(live: Tasks) | ClaimFailed | Got(fetch: Fetch)

  function JobsGot(log: TickLog): seq<Job> { if log.Got? then log.fetch.jobs else [] }

  ghost function AllJobsGot(logs: seq<TickLog>): seq<Job>
    decreases |logs|
  {
    if logs == [] then [] else AllJobsGot(logs[..|logs| - 1]) + JobsGot(logs[|logs| - 1])
  }

  lemma GotNext(first: seq<Job>, logs: seq<TickLog>, log: TickLog, before: seq<Job>, after: seq<Job>)
    requires before == first + AllJobsGot(logs) && after == before + JobsGot(log)
    ensures after == first + AllJobsGot(logs + [log])
  {
    assert (logs + [log])[..|logs|] == logs;
    assert first + (AllJobsGot(logs) + JobsGot(log)) == after;
  }

  lemma HeadMoves(done: seq<Job>, todo: seq<Job>)
    requires todo != []
    ensures done + [todo[0]] + todo[1..] == done + todo
  {
    assert todo == [todo[0]] + todo[1..];
  }

  /** A `max_attempts` that `build` accepts. */
  type Budget = n: nat | 1 <= n <= U32_MAX witness 1

  class Worker {
    const queue: string
    const lease: nat
    const maxAttempts: Budget
    const codec: Codec
    const concurrency: nat
    const batchSize: nat
    const limits: map<Key, nat>
    const counter: Counter

    /** Free semaphore permits, permits held by the poll loop, rows claimed but not yet spawned. */
    var free: nat
    var permits: nat
    var pending: seq<Job>

    var live: Tasks
    var spawned: nat
    var stats: Stats
    ghost var ledger: Ledger
    /** The jobs handlers were started for, in order. */
    ghost var started: seq<Job>

    /** Valid up to `n` cancelled tasks the shutdown has not added to `aborted` yet. */
    ghost predicate ValidBut(n: nat)
      reads this, counter
    {
      && PermitsOk(concurrency, free, permits, live, pending)
      && SlotsOk(limits, counter.counts, live, pending)
      && StatsOk(stats, ledger, live, spawned, n, n)
    }

    ghost predicate Valid()
      reads this, counter
    {
      ValidBut(0)
    }

    /** The worker acts on a database some run leads to, and owns what it works on. */
    ghost predicate Owns(db: Db)
      reads this, db
    {
      db.Valid() && TasksOwned(db.world, live, pending)
    }

    constructor (queue: string, lease: nat, maxAttempts: Budget, codec: Codec, concurrency: nat, batchSize: nat,
                 limits: map<Key, nat>)
      requires forall k :: k in limits ==> limits[k] <= I32_MAX
      ensures Valid() && permits == 0 && pending == [] && live == map[] && started == []
      ensures this.queue == queue && this.lease == lease && this.maxAttempts == maxAttempts && this.codec == codec
      ensures this.concurrency == concurrency && this.batchSize == batchSize && this.limits == limits
      ensures fresh(counter)
    {
      this.queue, this.lease, this.maxAttempts, this.codec := queue, lease, maxAttempts, codec;
      this.concurrency, this.batchSize, this.limits := concurrency, batchSize, limits;
      free, permits, pending, live, spawned := concurrency, 0, [], map[], 0;
      stats, ledger, started := Stats(0, 0, 0, 0, 0, 0), Ledger(0, 0, 0), [];
      counter := new Counter(limits.Keys);
      new;
      forall k | k in limits ensures |Holders(live, k)| == 0 { assert Holders(live, k) == {}; }
    }

    // ------------------------------------------------------------- task exits

    /** A task is gone: `_permit` and `_slot` drop, whatever ended it. */
    method Release(t: Token)
      requires t in live
      requires PermitsOk(concurrency, free, permits, live, pending) && SlotsOk(limits, counter.counts, live, pending)
      modifies this`live, this`free, counter
      ensures live == old(live) - {t} && free == old(free) + 1
      ensures PermitsOk(concurrency, free, permits, live, pending) && SlotsOk(limits, counter.counts, live, pending)
      ensures forall k :: k in limits ==> counter.counts[k] <= old(counter.counts[k])
    {
      ExitKeepsSlots(limits, counter.counts, live, pending, t);
      counter.Drop(live[t].slot);
      assert |live - {t}| == |live| - 1 by { assert (live - {t}).Keys == live.Keys - {t}; }
      live, free := live - {t}, free + 1;
    }

    /** `flip_done_state`, `flip_retry_state`, `flip_dead_state`: send the mark, then bump one counter. */
    method Settle(db: Db, job: Job, o: Outcome, delay: nat, reply: Reply)
      requires db.Valid() && Handed(db.world, job)
      modifies this`stats, this`ledger, db
      ensures db.Valid() && db.world == Replied(old(db.world), job, o, delay, reply)
      ensures stats == Count(old(stats), o, reply, HoldsLease(old(db.world).rows, job.id, job.leaseToken))
      ensures ledger == LedgerAfter(old(ledger), reply, job.id, old(db.world).rows, db.world.rows)
    {
      if o.HandlerTimedOut? { stats := stats.(timedOut := stats.timedOut + 1); }
      var affected := 0;
      if reply.Answered? || reply.applied {
        affected := db.Mark(job, o, delay);
      }
      ledger := Moved(ledger, job.id, old(db.world).rows, db.world.rows);
      match reply {
        case Answered =>
          if affected == 1 {
            if o.HandlerOk? {
              stats := stats.(completed := stats.completed + 1);
            } else {
              stats := stats.(failed := stats.failed + 1);
            }
          } else {
            stats := stats.(fencedOut := stats.fencedOut + 1);
          }
        case SqlError(_) => ledger := ledger.(uncounted := ledger.uncounted + 1);
        case TimedOut(_) => stats := stats.(markTimedOut := stats.markTimedOut + 1);
      }
    }

    /** A task's handler ended and its mark came back. Within its lease it is never fenced out. */
    method SettleTask(db: Db, t: Token, o: Outcome, delay: nat, reply: Reply, ghost n: nat)
      requires t in live && ValidBut(n) && Owns(db)
      modifies this`live, this`free, this`stats, this`ledger, counter, db
      ensures ValidBut(n) && Owns(db) && live == old(live) - {t}
      ensures db.world == Replied(old(db.world), old(live[t].job), o, delay, reply)
      ensures stats == Count(old(stats), o, reply, HoldsLease(old(db.world).rows, old(live[t].job.id), t))
      ensures forall k :: k in limits ==> counter.counts[k] <= old(counter.counts[k])
    {
      var job := live[t].job;
      OwnedAfterReply(db.world, live, pending, t, o, delay, reply);
      Release(t);
      SettleKeepsStats(stats, ledger, live, spawned, n, db.world, job, o, delay, reply);
      Settle(db, job, o, delay, reply);
    }

    /** A task ends without sending a mark or touching a counter. */
    method Vanish(db: Db, t: Token, ghost n: nat)
      requires t in live && ValidBut(n) && Owns(db)
      modifies this`live, this`free, this`ledger, counter
      ensures ValidBut(n) && Owns(db) && live == old(live) - {t}
      ensures forall k :: k in limits ==> counter.counts[k] <= old(counter.counts[k])
    {
      Release(t);
      ledger := ledger.(uncounted := ledger.uncounted + 1);
    }

    /** A `handle_job` task runs to its end. One that is settled within its lease is never fenced out. */
    method EndTask(db: Db, t: Token, ending: Ending, ghost n: nat)
      requires t in live && ValidBut(n) && Owns(db)
      modifies this`live, this`free, this`stats, this`ledger, counter, db
      ensures ValidBut(n) && Owns(db) && live == old(live) - {t}
      ensures stats.aborted == old(stats.aborted)
      ensures db.world == LeftByTask(old(db.world), old(live[t].job), ending)
      ensures stats == CountTask(old(stats), ending, HoldsLease(old(db.world).rows, old(live[t].job.id), t))
      ensures ending.Settled? && InLease(old(db.world), old(live), t) ==>
                stats == Count(old(stats), ending.outcome, ending.reply, true)
      ensures forall k :: k in limits ==> counter.counts[k] <= old(counter.counts[k])
    {
      match ending {
        case Settled(outcome, delay, reply) =>
          SettleTask(db, t, outcome, delay, reply, n);
        case Vanished => Vanish(db, t, n);
      }
    }

    /** Other processes act; none of them knows the worker's tokens. */
    method LetOthers(db: Db)
      requires Owns(db)
      modifies db
      ensures Owns(db)
    {
      ghost var w := db.world;
      ghost var steps := db.Others(Mine(live, pending));
      OwnedElsewhere(w, steps, live, pending);
    }

    /** Between two actions of the poll loop: any tasks end in any way, anyone touches the table. */
    method Elsewhere(db: Db)
      requires Valid() && Owns(db)
      modifies this`live, this`free, this`stats, this`ledger, counter, db
      ensures Valid() && Owns(db) && live.Keys <= old(live.Keys)
      ensures forall k :: k in limits ==> counter.counts[k] <= old(counter.counts[k])
    {
      LetOthers(db);
      var more: bool := *;
      while more && |live| > 0
        invariant Valid() && Owns(db) && live.Keys <= old(live.Keys)
        invariant forall k :: k in limits ==> counter.counts[k] <= old(counter.counts[k])
        decreases |live|
      {
        ghost var some := Member(live.Keys);
        assert some in live;
        var t :| t in live;
        var ending: Ending :| true;
        EndTask(db, t, ending, 0);
        LetOthers(db);
        more := *;
      }
    }

    // -------------------------------------------------------------- poll ticks

    /** Blocking acquire of one permit, then greedy acquires up to the batch size. False when none is free. */
    method AcquirePermits(db: Db) returns (ok: bool)
      requires Valid() && Owns(db) && permits == 0 && pending == []
      modifies this`live, this`free, this`permits, this`stats, this`ledger, counter, db
      ensures Valid() && Owns(db)
      ensures ok <==> permits > 0
      ensures permits <= Max(1, batchSize) && (permits < Max(1, batchSize) ==> free == 0)
    {
      Elsewhere(db);
      if free == 0 { return false; }
      free, permits := free - 1, 1;
      while permits < batchSize
        invariant Valid() && Owns(db) && 1 <= permits <= Max(1, batchSize)
        decreases batchSize - permits
      {
        Elsewhere(db);
        if free == 0 { break; }
        free, permits := free - 1, permits + 1;
      }
      ok := true;
    }

    /** The per-tick headroom snapshot: limit minus live count; the `saturating_sub` never saturates. */
    method Snapshot() returns (headroom: Headroom)
      requires Valid()
      ensures headroom.Keys == limits.Keys
      ensures forall k :: k in limits ==> headroom[k] == limits[k] - counter.counts[k] && headroom[k] >= 0
      ensures forall k :: k in limits ==> headroom[k] == limits[k] - |TasksOfKey(live, k)|
    {
      forall k | k in limits ensures counter.counts[k] == |TasksOfKey(live, k)| {
        TasksWithinLimit(limits, counter.counts, live, pending, k);
      }
      headroom := map k | k in limits :: if CountOf(counter.counts, k) > limits[k] then 0
                                         else limits[k] - CountOf(counter.counts, k);
    }

    /** A claim for this worker's queue, with its lease and budget, whose rows are decoded or buried. */
    ghost predicate Fetches(f: Fetch, fate: Id -> Sent) {
      && ClaimsFor(f.at, f.batch.others, f.batch.claim, queue, f.want, lease, maxAttempts, f.headroom, f.locked)
      && f.batch.claimed == Apply(Run(f.at, f.batch.others), f.batch.claim)
      && Decodes(f.batch, f.jobs, codec, fate)
    }

    /** It asked for at most a batch, and for each key for what its limit leaves beside the live tasks of that key. */
    ghost predicate AsksRightly(f: Fetch) {
      && 1 <= f.want <= Max(1, batchSize) && f.headroom.Keys == limits.Keys
      && forall k :: k in limits ==> f.headroom[k] == limits[k] - |TasksOfKey(f.live, k)|
    }

    /** A tick fetches unless every permit is held by a task or the claim errors. */
    ghost predicate TicksRightly(log: TickLog, errors: bool, fate: Id -> Sent) {
      match log
      case Busy(live) => |live| == concurrency
      case ClaimFailed => errors
      case Got(f) => !errors && AsksRightly(f) && Fetches(f, fate)
    }

    /** `claim_and_decode` for as many rows as there are permits; the worker's other claims are left alone. */
    method FetchJobs(db: Db, headroom: Headroom, locked: set<Id>, fate: Id -> Sent, ghost snapshot: Tasks)
      returns (jobs: seq<Job>, ghost f: Fetch)
      requires Owns(db) && pending == []
      modifies db
      ensures Owns(db) && TasksOwned(db.world, live, jobs)
      ensures |jobs| <= permits && forall k :: k in headroom ==> KeyCount(jobs, k) <= Max(headroom[k], 0)
      ensures f == Fetch(snapshot, old(db.world), headroom, permits, locked, f.batch, jobs) && Fetches(f, fate)
    {
      ghost var batch, steps;
      ghost var w := db.world;
      MineIsIssued(w, live, pending);
      jobs, batch, steps :=
        ClaimAndDecode(db, queue, permits, lease, maxAttempts, headroom, locked, codec, fate, Mine(live, pending));
      OwnedElsewhere(w, steps, live, pending);
      OwnedMore(db.world, live, jobs);
      f := Fetch(snapshot, w, headroom, permits, locked, batch, jobs);
    }

    /** The claim under a headroom snapshot taken earlier; counts can only have dropped since. */
    method ClaimPending(db: Db, headroom: Headroom, locked: set<Id>, fate: Id -> Sent, ghost snapshot: Tasks)
      returns (ghost f: Fetch)
      requires Valid() && Owns(db) && pending == [] && headroom.Keys == limits.Keys
      requires forall k :: k in limits ==> 0 <= headroom[k] <= limits[k] - counter.counts[k]
      modifies this`pending, db
      ensures Valid() && Owns(db) && pending == f.jobs
      ensures f == Fetch(snapshot, old(db.world), headroom, permits, locked, f.batch, f.jobs) && Fetches(f, fate)
    {
      var jobs;
      jobs, f := FetchJobs(db, headroom, locked, fate, snapshot);
      PendingFits(limits, counter.counts, live, jobs, headroom);
      pending := jobs;
    }

    method TakeSlot(job: Job) returns (slot: Guard)
      modifies counter
      ensures slot == SlotFor(limits, job) && counter.counts == Take(old(counter.counts), slot)
    {
      slot := NoSlot;
      if job.key.Some? && job.key.value in limits {
        slot := counter.Acquire(job.key.value);
      }
    }

    /** One row of the zip: it takes a permit and, for a configured key, a slot. */
    method SpawnOne(db: Db)
      requires Valid() && Owns(db) && pending != []
      modifies this`permits, this`pending, this`live, this`spawned, this`started, counter
      ensures Valid() && Owns(db)
      ensures pending == old(pending)[1..] && permits == old(permits) - 1 && spawned == old(spawned) + 1
      ensures var job := old(pending)[0]; live == old(live)[job.leaseToken := Task(job, SlotFor(limits, job))]
      ensures started == old(started) + [old(pending)[0]]
    {
      var job := pending[0];
      OwnedSpawn(db.world, live, pending, SlotFor(limits, job));
      SpawnKeepsSlots(limits, counter.counts, live, pending, job.leaseToken);
      var slot := TakeSlot(job);
      live, started := live[job.leaseToken := Task(job, slot)], started + [job];
      pending, permits, spawned := pending[1..], permits - 1, spawned + 1;
    }

    /** Anything may happen before the next spawn. */
    method SpawnNext(db: Db)
      requires Valid() && Owns(db) && pending != []
      modifies this, counter, db
      ensures Valid() && Owns(db)
      ensures |pending| == |old(pending)| - 1 && permits == old(permits) - 1 && spawned == old(spawned) + 1
      ensures started + pending == old(started) + old(pending)
    {
      HeadMoves(started, pending);
      Elsewhere(db);
      SpawnOne(db);
    }

    /** `rows.into_iter().zip(permits)` stops at the shorter side; no claimed row is dropped by it. */
    method SpawnPending(db: Db)
      requires Valid() && Owns(db)
      modifies this, counter, db
      ensures Valid() && Owns(db) && pending == []
      ensures spawned == old(spawned) + old(|pending|) && started == old(started) + old(pending)
      ensures permits == old(permits) - old(|pending|)
    {
      while pending != [] && permits > 0
        invariant Valid() && Owns(db)
        invariant spawned + |pending| == old(spawned) + old(|pending|)
        invariant started + pending == old(started) + old(pending)
        invariant permits - |pending| == old(permits) - old(|pending|)
        decreases |pending|
      {
        SpawnNext(db);
      }
    }

    /** Claim as many rows as there are permits, then spawn them. */
    method ClaimAndSpawn(db: Db, headroom: Headroom, locked: set<Id>, fate: Id -> Sent, ghost snapshot: Tasks)
      returns (ghost f: Fetch)
      requires Valid() && Owns(db) && pending == [] && headroom.Keys == limits.Keys
      requires forall k :: k in limits ==> 0 <= headroom[k] <= limits[k] - counter.counts[k]
      modifies this, counter, db
      ensures Valid() && Owns(db) && pending == [] && spawned <= old(spawned) + old(permits)
      ensures f == Fetch(snapshot, old(db.world), headroom, old(permits), locked, f.batch, f.jobs) && Fetches(f, fate)
      ensures started == old(started) + f.jobs
    {
      f := ClaimPending(db, headroom, locked, fate, snapshot);
      SpawnPending(db);
    }

    /** The rest of a tick that holds permits: headroom snapshot, claim and spawns. */
    method TickWithPermits(db: Db, locked: set<Id>, fate: Id -> Sent, claimErrors: bool) returns (ghost log: TickLog)
      requires Valid() && Owns(db) && 1 <= permits <= Max(1, batchSize) && pending == []
      modifies this, counter, db
      ensures Valid() && Owns(db) && pending == [] && spawned <= old(spawned) + old(permits)
      ensures started == old(started) + JobsGot(log) && TicksRightly(log, claimErrors, fate)
    {
      var headroom := Snapshot();
      ghost var snapshot := live;
      Elsewhere(db);
      log := ClaimFailed;
      if !claimErrors {
        ghost var f := ClaimAndSpawn(db, headroom, locked, fate, snapshot);
        log := Got(f);
      }
    }

    /** Surplus permits drop at the end of the iteration. */
    method ReturnPermits(db: Db)
      requires Valid() && Owns(db) && pending == []
      modifies this`free, this`permits
      ensures Valid() && Owns(db) && permits == 0 && free == old(free) + old(permits)
    {
      free, permits := free + permits, 0;
    }

    /** One iteration of the poll loop: unless every permit is taken or the claim errors, it claims for its queue and
        starts a handler for every row that decodes. Surplus permits go back either way. */
    method PollTick(db: Db, locked: set<Id>, fate: Id -> Sent, claimErrors: bool) returns (ghost log: TickLog)
      requires Valid() && Owns(db) && permits == 0 && pending == []
      modifies this, counter, db
      ensures Valid() && Owns(db) && permits == 0 && pending == []
      ensures spawned <= old(spawned) + Max(1, batchSize)
      ensures started == old(started) + JobsGot(log) && TicksRightly(log, claimErrors, fate)
    {
      var ok := AcquirePermits(db);
      if !ok { log := Busy(live); return; }
      log := TickWithPermits(db, locked, fate, claimErrors);
      ReturnPermits(db);
    }

    /** A tick, and whatever happens until the next. */
    method TickAndRest(db: Db, fate: Id -> Sent, claimErrors: bool) returns (ghost log: TickLog)
      requires Valid() && Owns(db) && permits == 0 && pending == []
      modifies this, counter, db
      ensures Valid() && Owns(db) && permits == 0 && pending == []
      ensures started == old(started) + JobsGot(log) && TicksRightly(log, claimErrors, fate)
    {
      var locked: set<Id> :| true;
      log := PollTick(db, locked, fate, claimErrors);
      Elsewhere(db);
    }

    /** Every tick of the loop did. */
    ghost predicate AllTickRightly(logs: seq<TickLog>, errors: nat -> bool, fates: nat -> Id -> Sent)
      decreases |logs|
    {
      logs == [] ||
      var n := |logs| - 1;
      TicksRightly(logs[n], errors(n), fates(n)) && AllTickRightly(logs[..n], errors, fates)
    }

    lemma NextTicksRightly(logs: seq<TickLog>, log: TickLog, errors: nat -> bool, fates: nat -> Id -> Sent)
      requires AllTickRightly(logs, errors, fates) && TicksRightly(log, errors(|logs|), fates(|logs|))
      ensures AllTickRightly(logs + [log], errors, fates)
    {
      var more := logs + [log];
      assert more[|logs|] == log && more[..|logs|] == logs;
    }

    /** Live tasks stay within concurrency and each key's limit, and no two within their leases share a row. */
    lemma LawsOfTasks(db: Db)
      requires Valid() && Owns(db)
      ensures |live| <= concurrency && forall k :: k in limits ==> |TasksOfKey(live, k)| <= limits[k]
      ensures forall t, u :: InLease(db.world, live, t) && InLease(db.world, live, u) && t != u ==>
                               live[t].job.id != live[u].job.id
    {
      forall k | k in limits ensures |TasksOfKey(live, k)| <= limits[k] {
        TasksWithinLimit(limits, counter.counts, live, pending, k);
      }
      forall t, u | InLease(db.world, live, t) && InLease(db.world, live, u) && t != u
        ensures live[t].job.id != live[u].job.id
      {
        NoTwoTasksShareRow(db.world, live, pending, t, u);
      }
    }

    /** The poll loop: any number of ticks, against any table, with anything happening around it. The handlers it
        starts are exactly those of the jobs its ticks got. Live tasks stay within concurrency and each key's limit,
        and no two of them within their leases share a row. */
    method Poll(db: Db, fates: nat -> Id -> Sent, errors: nat -> bool, ticks: nat) returns (ghost logs: seq<TickLog>)
      requires Valid() && Owns(db) && permits == 0 && pending == []
      modifies this, counter, db
      ensures Valid() && Owns(db) && permits == 0 && pending == []
      ensures |live| <= concurrency && forall k :: k in limits ==> |TasksOfKey(live, k)| <= limits[k]
      ensures forall t, u :: InLease(db.world, live, t) && InLease(db.world, live, u) && t != u ==>
                               live[t].job.id != live[u].job.id
      ensures |logs| == ticks && started == old(started) + AllJobsGot(logs)
      ensures AllTickRightly(logs, errors, fates)
    {
      logs := [];
      for n := 0 to ticks
        invariant Valid() && Owns(db) && permits == 0 && pending == []
        invariant |logs| == n && started == old(started) + AllJobsGot(logs)
        invariant AllTickRightly(logs, errors, fates)
      {
        ghost var before := started;
        ghost var log := TickAndRest(db, fates(n), errors(n));
        GotNext(old(started), logs, log, before, started);
        NextTicksRightly(logs, log, errors, fates);
        logs := logs + [log];
      }
      LawsOfTasks(db);
    }

    // ---------------------------------------------------------------- shutdown

    /** A mark whose reply nobody sees, if it was applied at all. */
    method MarkUnseen(db: Db, job: Job, applied: Option<Outcome>, delay: nat)
      requires db.Valid() && Handed(db.world, job)
      modifies db
      ensures db.Valid() && db.world == Unseen(old(db.world), job, applied, delay)
    {
      if applied.Some? {
        var affected := db.Mark(job, applied.value, delay);
      }
    }

    /** A task is cancelled. Its handler may have timed out before that, and its mark may have been applied. */
    method CancelTask(db: Db, t: Token, handlerTimedOut: bool, applied: Option<Outcome>, delay: nat, ghost n: nat)
      requires t in live && ValidBut(n) && Owns(db)
      modifies this`live, this`free, this`stats, this`ledger, counter, db
      ensures ValidBut(n + 1) && Owns(db) && live == old(live) - {t}
      ensures stats == old(stats).(timedOut := old(stats.timedOut) + if handlerTimedOut then 1 else 0)
      ensures db.world == Unseen(old(db.world), old(live[t].job), applied, delay)
    {
      var job := live[t].job;
      OwnedAfterUnseen(db.world, live, pending, t, applied, delay);
      Release(t);
      ghost var before := db.world.rows;
      MarkUnseen(db, job, applied, delay);
      CancelKeepsStats(stats, ledger, live, spawned, n, handlerTimedOut, job.id, before, db.world.rows);
      stats, ledger := CountCancelled(stats, handlerTimedOut), Moved(ledger, job.id, before, db.world.rows);
    }

    /** One `join_next` after `abort_all`. */
    method JoinOne(db: Db, t: Token, joined: Joined, ghost n: nat) returns (cancelled: nat)
      requires t in live && ValidBut(n) && Owns(db)
      modifies this`live, this`free, this`stats, this`ledger, counter, db
      ensures cancelled == if joined.Cancelled? then 1 else 0
      ensures ValidBut(n + cancelled) && Owns(db) && live == old(live) - {t}
      ensures stats.aborted == old(stats.aborted)
    {
      match joined {
        case Cancelled(handlerTimedOut, applied, delay) =>
          CancelTask(db, t, handlerTimedOut, applied, delay, n);
          cancelled := 1;
        case Ended(ending) =>
          EndTask(db, t, ending, n);
          cancelled := 0;
      }
    }

    /** Some task is joined, then others act. */
    method JoinNext(db: Db, ghost n: nat) returns (cancelled: nat)
      requires |live| > 0 && ValidBut(n) && Owns(db)
      modifies this`live, this`free, this`stats, this`ledger, counter, db
      ensures cancelled <= 1 && ValidBut(n + cancelled) && Owns(db) && |live| == |old(live)| - 1
      ensures stats.aborted == old(stats.aborted)
    {
      ghost var some := Member(live.Keys);
      assert some in live;
      var t :| t in live;
      var joined: Joined :| true;
      assert |live - {t}| == |live| - 1 by { assert (live - {t}).Keys == live.Keys - {t}; }
      cancelled := JoinOne(db, t, joined, n);
      LetOthers(db);
    }

    /** `abort_remaining_handlers`: cancelled tasks are counted once, at the end; tasks that ended by
        themselves counted themselves; tasks not joined within the grace period stay live. */
    method AbortRemaining(db: Db) returns (cancelled: nat)
      requires Valid() && Owns(db)
      modifies this`live, this`free, this`stats, this`ledger, counter, db
      ensures Valid() && Owns(db)
      ensures stats.aborted == old(stats.aborted) + cancelled
      ensures cancelled + |live| <= |old(live)|
    {
      cancelled := 0;
      var more: bool := *;
      while more && |live| > 0
        invariant ValidBut(cancelled) && Owns(db)
        invariant stats.aborted == old(stats.aborted) && cancelled + |live| <= |old(live)|
        decreases |live|
      {
        var c := JoinNext(db, cancelled);
        cancelled := cancelled + c;
        more := *;
      }
      stats := stats.(aborted := stats.aborted + cancelled);
    }

    /** The poll loop stops wherever it is, by itself or aborted: its permits drop, and rows claimed but not yet
        spawned are left to the reaper. */
    method StopPolling(db: Db)
      requires Valid() && Owns(db)
      modifies this`free, this`permits, this`pending
      ensures Valid() && Owns(db) && permits == 0 && pending == [] && free == old(free) + old(permits)
    {
      free, permits, pending := free + permits, 0, [];
    }

    /** `WorkerHandle::shutdown` from the abort of the poll loop on: tasks drain on their own until the deadline, the
        rest are aborted. No task is counted twice, only unseen replies separate the rows moved from those counted,
        every permit not held by a surviving task is back, and the running rows of the queue are reported unless
        that query fails. */
    method Shutdown(db: Db, countFails: bool) returns (s: Stats, pendingRecovery: nat)
      requires Valid() && Owns(db)
      modifies this`live, this`free, this`permits, this`pending, this`stats, this`ledger, counter, db
      ensures Valid() && Owns(db) && s == stats && pending == [] && free + |live| == concurrency
      ensures s.completed + s.failed + s.fencedOut + s.markTimedOut + s.aborted + |live| <= spawned
      ensures s.markTimedOut == 0 && s.aborted == 0 && ledger.uncounted == 0 ==>
                s.completed == ledger.toDone && s.failed == ledger.toOther
      ensures var running := set i | i in db.world.rows && db.world.rows[i].queue == queue
                                     && db.world.rows[i].status == Running;
              pendingRecovery == if countFails then 0 else |running|
    {
      StopPolling(db);
      Elsewhere(db);
      var cancelled := AbortRemaining(db);
      pendingRecovery := if countFails then 0 else |RunningIds(db.world.rows, queue)|;
      s := stats;
    }
  }
}
