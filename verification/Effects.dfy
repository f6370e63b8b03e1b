/** What each statement does to the rows, in the schema's own columns: which rows a claim takes, what a mark, a reap
    and a push leave behind, and when the row may run again. */
module Effects {
  import opened Jobs
  import opened Ranking
  import opened Protocol
  import opened Histories
  import opened Invariants
  import opened Guarantees

  // -------------------------------------------------------------- claim order

  /** `ORDER BY run_at, id`. */
  ghost predicate Sooner(rows: Table, i: Id, j: Id)
    requires i in rows && j in rows
  {
    rows[i].runAt < rows[j].runAt || (rows[i].runAt == rows[j].runAt && i < j)
  }

  /** `status IN ('queued', 'awaiting_retry') AND run_at <= now()`. */
  ghost predicate Due(r: Row, now: Time) {
    r.status in {Queued, AwaitingRetry} && r.runAt <= now
  }

  /** A row the locking CTE of the claim can see. */
  ghost predicate Offered(w: World, s: Step, i: Id)
    requires s.Claim?
  {
    i in s.candidates && i in w.rows && Due(w.rows[i], w.now) && i !in s.locked
  }

  ghost function InFront(w: World, s: Step, j: Id): set<Id>
    requires s.Claim? && j in w.rows
  {
    set i | i in s.candidates && Offered(w, s, i) && Sooner(w.rows, i, j)
  }

  /** A claim takes a row iff it is offered and fewer offered rows than the limit come sooner. */
  lemma ClaimsExactly(w: World, s: Step, j: Id)
    requires s.Claim?
    ensures j in ClaimChoice(w, s) <==>
            Offered(w, s, j) && |InFront(w, s, j)| < s.want && |InFront(w, s, j)| < 0x7FFF_FFFF
  {
    if j in w.rows {
      var pool := Lockable(w, s.candidates, s.locked);
      assert InFront(w, s, j) == Earlier(w.rows, pool, j);
    }
  }

  /** An offered row left behind comes later than every row taken. */
  lemma ClaimsInOrder(w: World, s: Step, i: Id, j: Id)
    requires s.Claim? && i in ClaimChoice(w, s) && Offered(w, s, j) && j !in ClaimChoice(w, s)
    ensures w.rows[i].runAt < w.rows[j].runAt || (w.rows[i].runAt == w.rows[j].runAt && i < j)
  {
    if !Before(w.rows, i, j) { EarlierGrows(w.rows, Lockable(w, s.candidates, s.locked), j, i); }
  }

  /** A claim leaves an offered row behind only when its batch is full. */
  lemma ShortClaimTakesAll(w: World, s: Step)
    requires s.Claim? && |ClaimChoice(w, s)| < s.want && |ClaimChoice(w, s)| < 0x7FFF_FFFF
    ensures forall j :: j in s.candidates && Offered(w, s, j) ==> j in ClaimChoice(w, s)
  {
    FirstSize(w.rows, Lockable(w, s.candidates, s.locked), Min(s.want, I32_MAX));
  }

  // ------------------------------------------------------------------ CHECKs

  /** What the CHECKs amount to: a lease exactly while running, an end exactly in the terminal states, attempts never
      before the first claim, and times in the order things happened. */
  lemma ChecksMean(r: Row)
    requires Checks(r)
    ensures r.status == Running <==> r.leaseToken.Some?
    ensures r.status == Running <==> r.leaseExpiresAt.Some?
    ensures r.status in {Done, Dead} <==> r.finishedAt.Some?
    ensures r.status == Queued ==> r.attempts == 0 && r.firstAttemptedAt.None? && r.lastAttemptedAt.None?
    ensures r.status in {Running, AwaitingRetry} ==>
              r.attempts > 0 && r.firstAttemptedAt.Some? && r.lastAttemptedAt.Some?
    ensures r.firstAttemptedAt.Some? ==> r.createdAt <= r.firstAttemptedAt.value
    ensures r.lastAttemptedAt.Some? ==>
              r.createdAt <= r.lastAttemptedAt.value
              && (r.firstAttemptedAt.Some? ==> r.firstAttemptedAt.value <= r.lastAttemptedAt.value)
    ensures r.finishedAt.Some? && r.lastAttemptedAt.Some? ==> r.lastAttemptedAt.value <= r.finishedAt.value
    ensures r.finishedAt.Some? ==> r.createdAt <= r.finishedAt.value
    ensures r.createdAt <= r.updatedAt && r.createdAt <= r.runAt
    ensures 0 <= r.attempts <= 0x7FFF_FFFF && 0 <= r.maxAttempts <= 0x7FFF_FFFF
    ensures r.lastError.Some? ==> |r.lastError.value| <= 8192
  {
  }

  // -------------------------------------------------------------- SET lists

  /** A claim: one attempt more under the claimer's own budget, lease and token; the place in line stays. */
  lemma ClaimWrites(w: World, s: Step, id: Id)
    requires s.Claim? && Enabled(w, s) && id in ClaimChoice(w, s)
    ensures var r, v := w.rows[id], Apply(w, s);
            var r' := v.rows[id];
            && r'.status == Running && r'.attempts == r.attempts + 1
            && r'.maxAttempts == (if s.maxAttempts <= 0x7FFF_FFFF then s.maxAttempts else 0x7FFF_FFFF)
            && r'.leaseToken == Some(s.tokens[id]) && r'.leaseExpiresAt == Some(w.now + s.lease)
            && r'.lastAttemptedAt == Some(w.now) && r'.lastError == None && r'.updatedAt == w.now
            && r'.firstAttemptedAt == (if r.firstAttemptedAt.None? then Some(w.now) else r.firstAttemptedAt)
            && r'.runAt == r.runAt && r'.finishedAt == r.finishedAt
            && s.tokens[id] in v.issued && v.issued[s.tokens[id]] == Lease(id, r'.attempts, r'.maxAttempts)
  {
    ClaimIssues(w, s);
    assert Apply(w, s) == AfterClaim(w, s);
  }

  /** Where an outcome sends the row of its claim, given the row's own counters. */
  ghost function Verdict(o: Outcome, attempts: int, maxAttempts: int): Status {
    match o
    case HandlerOk => Done
    case HandlerAbort(_) => Dead
    case Undecodable(_) => Dead
    case HandlerPanicked(_, PanicDead) => Dead
    case _ => if attempts >= maxAttempts then Dead else AwaitingRetry
  }

  /** What it writes into `last_error`, up to 8192 characters of it. */
  ghost function Complaint(o: Outcome): string {
    match o
    case HandlerOk => ""
    case HandlerRetry(reason) => reason
    case HandlerAbort(reason) => reason
    case HandlerTimedOut => "handler_timeout"
    case HandlerPanicked(message, _) => "panic: " + message
    case Undecodable(reason) => reason
  }

  /** A mark by the holder of the claim: the verdict its outcome calls for, with its reason, and for a retry the
      time to wait. The attempt counters stay. */
  lemma MarkWrites(w: World, t: Token, o: Outcome, delay: nat)
    requires Inv(w) && t in w.issued && HoldsLease(w.rows, w.issued[t].id, t)
    ensures var id, v := w.issued[t].id, Apply(w, Finish(t, o, delay));
            var r, r' := w.rows[id], v.rows[id];
            && r'.status == Verdict(o, r.attempts, r.maxAttempts)
            && r'.runAt == (if r'.status == AwaitingRetry then w.now + delay else r.runAt)
            && r'.finishedAt == (if r'.status == AwaitingRetry then None else Some(w.now))
            && r'.lastError.None? == o.HandlerOk?
            && (r'.lastError.Some? ==>
                  && r'.lastError.value <= Complaint(o) && |r'.lastError.value| <= 8192
                  && (|Complaint(o)| <= 8192 ==> r'.lastError.value == Complaint(o))
                  && (|Complaint(o)| > 8192 ==> |r'.lastError.value| == 8192))
            && r'.attempts == r.attempts && r'.maxAttempts == r.maxAttempts
            && r'.firstAttemptedAt == r.firstAttemptedAt && r'.lastAttemptedAt == r.lastAttemptedAt
            && r'.leaseToken == None && r'.leaseExpiresAt == None && r'.updatedAt == w.now
  {
    assert LeaseMatches(w, w.issued[t].id) && RowInv(w.now, w.rows[w.issued[t].id], w.history[w.issued[t].id]);
  }

  /** A reap: dead iff the attempts are spent, else back in line where the row was before its claim. */
  lemma ReapWrites(w: World, s: Step, id: Id)
    requires Inv(w) && s.Reap? && Enabled(w, s) && id in s.chosen
    ensures var r, r' := w.rows[id], Apply(w, s).rows[id];
            var dead := r.attempts >= r.maxAttempts;
            && r'.status == (if dead then Dead else AwaitingRetry)
            && r'.finishedAt == (if dead then Some(w.now) else None)
            && r'.lastError == Some(if dead then "lease_expired_max_attempts" else "lease_expired")
            && r'.runAt == r.runAt && r'.attempts == r.attempts && r'.maxAttempts == r.maxAttempts
            && r'.firstAttemptedAt == r.firstAttemptedAt && r'.lastAttemptedAt == r.lastAttemptedAt
            && r'.leaseToken == None && r'.leaseExpiresAt == None && r'.updatedAt == w.now
  {
  }

  /** A reap takes only expired running rows of its queue that nobody else locked, and leaves one behind only when its
      batch is full of rows that expired no later. */
  lemma ReapsExactly(w: World, s: Step, i: Id, j: Id)
    requires Inv(w) && s.Reap? && Enabled(w, s) && i in s.chosen
    requires j in w.rows && j !in s.locked && j !in s.chosen
    ensures i in w.rows && i !in s.locked
    ensures var r := w.rows[i];
            && r.queue == s.queue && r.status == Running && r.leaseExpiresAt.Some? && r.leaseExpiresAt.value < w.now
            && var other := w.rows[j];
               (other.queue == s.queue && other.status == Running && other.leaseExpiresAt.Some?
                && other.leaseExpiresAt.value < w.now) ==>
                 |s.chosen| == s.limit && r.leaseExpiresAt.value <= other.leaseExpiresAt.value
  {
    var pool := StaleIds(w.rows, s.queue, w.now) - s.locked;
    if j in pool { SubsetSize(s.chosen, pool); }
  }

  /** A reap that takes nothing had nothing to take. */
  lemma EmptyReap(w: World, s: Step, j: Id)
    requires s.Reap? && Enabled(w, s) && s.chosen == {} && s.limit > 0
    requires j in w.rows && j !in s.locked && w.rows[j].queue == s.queue && w.rows[j].status == Running
    ensures w.rows[j].leaseExpiresAt.None? || w.now <= w.rows[j].leaseExpiresAt.value
  {
    var pool := StaleIds(w.rows, s.queue, w.now) - s.locked;
    if j in pool { SubsetSize({j}, pool); }
  }

  /** A purge deletes only unlocked rows of its status that finished before its age, and leaves one of those only when
      its chunk is full of rows that finished no later. */
  lemma PurgesExactly(w: World, s: Step, j: Id)
    requires s.Purge? && Enabled(w, s) && j in w.rows
    ensures Apply(w, s).rows.Keys == w.rows.Keys - s.chosen
    ensures var r := w.rows[j];
            var ripe := r.status == s.status && r.finishedAt.Some? && r.finishedAt.value < w.now - s.age;
            && (j in s.chosen ==> ripe && j !in s.locked)
            && (j !in s.chosen && ripe && j !in s.locked ==>
                  |s.chosen| == s.limit
                  && forall i :: i in s.chosen ==> i in w.rows && w.rows[i].finishedAt.Some?
                                                   && w.rows[i].finishedAt.value <= r.finishedAt.value)
  {
    var pool := PurgeableIds(w.rows, s.status, s.age, w.now) - s.locked;
    if j in pool && j !in s.chosen {
      SubsetSize(s.chosen, pool);
      forall i | i in s.chosen ensures FinishTime(w.rows[i]) <= FinishTime(w.rows[j]) { }
    }
  }

  /** A push stores a queued row with the pusher's payload, key and schedule, never claimed. */
  lemma PushWrites(w: World, s: Step)
    requires s.Push? && Enabled(w, s)
    ensures var v := Apply(w, s);
            && v.rows.Keys == w.rows.Keys + {s.id} && (forall i :: i in w.rows && i != s.id ==> v.rows[i] == w.rows[i])
            && var r := v.rows[s.id];
               && r.publicId == s.publicId && r.queue == s.queue && r.key == s.key && r.payload == s.payload
               && r.status == Queued && r.attempts == 0 && r.lastError == None
               && r.runAt == (if s.runAt.None? then w.now else s.runAt.value)
               && r.createdAt == w.now && r.updatedAt == w.now
  {
  }

  // ---------------------------------------------------------- when it runs again

  /** The row waits as it is until its time, and from then on it is offered to every claim that sees it. */
  ghost predicate WaitsUntil(w: World, steps: seq<Step>, id: Id, time: Time)
    requires id in w.rows
  {
    var v := Run(w, steps);
    && (v.now < time ==> id in v.rows && v.rows[id] == w.rows[id])
    && (v.now >= time && id in v.rows && v.rows[id] == w.rows[id] ==> Due(v.rows[id], v.now))
  }

  /** A push for a given time is not claimed earlier, and is due from that time on. */
  lemma PushedWaitsForRunAt(w: World, s: Step, after: seq<Step>)
    requires Inv(w) && s.Push? && Enabled(w, s) && s.runAt.Some?
    ensures s.id in Apply(w, s).rows && WaitsUntil(Apply(w, s), after, s.id, s.runAt.value)
  {
    PushWrites(w, s);
    StepKeeps(w, s);
    if Run(Apply(w, s), after).now < s.runAt.value { NotBeforeRunAt(Apply(w, s), after, s.id); }
  }

  /** A retried row sits out exactly its delay. */
  lemma RetriedWaitsForDelay(w: World, t: Token, o: Outcome, delay: nat, after: seq<Step>)
    requires Inv(w) && t in w.issued && HoldsLease(w.rows, w.issued[t].id, t)
    requires Verdict(o, w.rows[w.issued[t].id].attempts, w.rows[w.issued[t].id].maxAttempts) == AwaitingRetry
    ensures var id, v := w.issued[t].id, Apply(w, Finish(t, o, delay));
            id in v.rows && v.rows[id].status == AwaitingRetry && WaitsUntil(v, after, id, w.now + delay)
  {
    var s := Finish(t, o, delay);
    MarkWrites(w, t, o, delay);
    StepKeeps(w, s);
    if Run(Apply(w, s), after).now < w.now + delay { NotBeforeRunAt(Apply(w, s), after, w.issued[t].id); }
  }

  /** A reaped row with attempts left is due at once. */
  lemma ReapedIsDueAtOnce(w: World, s: Step, id: Id)
    requires Inv(w) && s.Reap? && Enabled(w, s) && id in s.chosen && w.rows[id].attempts < w.rows[id].maxAttempts
    ensures Due(Apply(w, s).rows[id], w.now)
  {
    assert RowInv(w.now, w.rows[id], w.history[id]);
    ReapWrites(w, s, id);
  }

  lemma DeadStays(w: World, id: Id, steps: seq<Step>)
    requires Inv(w) && id in w.rows && w.rows[id].status == Dead
    ensures id in Run(w, steps).rows ==> Run(w, steps).rows[id] == w.rows[id]
  {
    RunFollows(w, steps);
    if id in Run(w, steps).rows { assert SameJob(w.rows[id], Run(w, steps).rows[id]); }
  }

  /** An abort, an undecodable payload or a panic under `PanicPolicy::Dead` ends the job for good, whatever budget
      is left: in every continuation the row is dead until it is purged. */
  lemma NeverRunsAgain(w: World, t: Token, o: Outcome, delay: nat, after: seq<Step>)
    requires Inv(w) && t in w.issued && HoldsLease(w.rows, w.issued[t].id, t)
    requires o.HandlerAbort? || o.Undecodable? || (o.HandlerPanicked? && o.policy == PanicDead)
    ensures var id, v := w.issued[t].id, Run(Apply(w, Finish(t, o, delay)), after);
            id in v.rows ==> v.rows[id].status == Dead && v.rows[id].attempts == w.rows[id].attempts
  {
    var id, v := w.issued[t].id, Apply(w, Finish(t, o, delay));
    assert id in v.rows && v.rows[id].status == Dead && v.rows[id].attempts == w.rows[id].attempts by {
      MarkWrites(w, t, o, delay);
    }
    assert Inv(v) by { StepKeeps(w, Finish(t, o, delay)); }
    DeadStays(v, id, after);
  }

  // ------------------------------------------------------------- over whole runs

  /** After any run, the status of a row that was claimed and is not running is the verdict of its latest exit. */
  lemma StatusIsVerdict(start: Time, steps: seq<Step>, id: Id)
    requires id in Run(Start(start), steps).rows && id in Run(Start(start), steps).history
    requires Run(Start(start), steps).history[id] != [] && Last(Run(Start(start), steps).history[id]).Left?
    ensures var w := Run(Start(start), steps);
            var r, c := w.rows[id], Last(w.history[id]).cause;
            r.status == if c.ByOutcome? then Verdict(c.outcome, r.attempts, r.maxAttempts)
                        else if r.attempts >= r.maxAttempts then Dead else AwaitingRetry
  {
    StatusTellsCause(start, steps, id);
  }

  /** Every claim so far was stamped `stamp`. */
  ghost predicate Stamped(w: World, id: Id, stamp: int) {
    id in w.history ==> forall e :: e in w.history[id] && e.Took? ==> e.stamp == stamp
  }

  lemma ClaimStamps(w: World, s: Step, id: Id, m: nat)
    requires s.Claim? && Enabled(w, s) && id in w.history && Stamped(w, id, Min(m, 0x7FFF_FFFF)) && s.maxAttempts == m
    ensures Stamped(AfterClaim(w, s), id, Min(m, 0x7FFF_FFFF))
  {
    var h, h' := w.history[id], AfterClaim(w, s).history[id];
    assert h' == h || h' == h + [Took(s.tokens[id], Stamp(m))];
  }

  /** What a step other than a claim adds to a history is no claim. */
  lemma OthersTakeNothing(w: World, s: Step, id: Id)
    requires !s.Claim? && id in w.history && id in Apply(w, s).history && !(s.Push? && s.id == id)
    ensures forall e :: e in Apply(w, s).history[id] && e.Took? ==> e in w.history[id]
  {
  }

  lemma StepStamps(w: World, s: Step, id: Id, m: nat)
    requires Stamped(w, id, Min(m, 0x7FFF_FFFF)) && (s.Claim? ==> s.maxAttempts == m)
    ensures Stamped(Apply(w, s), id, Min(m, 0x7FFF_FFFF))
  {
    if id in w.history && Enabled(w, s) {
      if s.Claim? {
        ClaimStamps(w, s, id, m);
      } else {
        OthersTakeNothing(w, s, id);
      }
    }
  }

  lemma {:induction false} RunStamps(w: World, steps: seq<Step>, id: Id, m: nat)
    requires Stamped(w, id, Min(m, 0x7FFF_FFFF))
    requires forall k :: 0 <= k < |steps| && steps[k].Claim? ==> steps[k].maxAttempts == m
    ensures Stamped(Run(w, steps), id, Min(m, 0x7FFF_FFFF))
    decreases |steps|
  {
    if steps != [] {
      StepStamps(w, steps[0], id, m);
      RunStamps(Apply(w, steps[0]), steps[1..], id, m);
    }
  }

  /** When every worker is configured with `max_attempts` M, a job that dies of retries or expired leases was tried
      exactly M times (or `i32::MAX`, if that is less), and no dead job more often. */
  lemma FleetSpendsBudget(start: Time, steps: seq<Step>, id: Id, m: nat)
    requires forall k :: 0 <= k < |steps| && steps[k].Claim? ==> steps[k].maxAttempts == m
    requires id in Run(Start(start), steps).rows && id in Run(Start(start), steps).history
    requires Run(Start(start), steps).rows[id].status == Dead
    ensures var w := Run(Start(start), steps);
            var h := w.history[id];
            && h != [] && Last(h).Left? && w.rows[id].attempts <= Min(m, 0x7FFF_FFFF)
            && var c := Last(h).cause;
               c.ByLeaseExpiry? || c.outcome.HandlerRetry? || c.outcome.HandlerTimedOut? ==>
                 w.rows[id].attempts == Min(m, 0x7FFF_FFFF)
  {
    RunStamps(Start(start), steps, id, m);
    UniformDeadUsesAllAttempts(start, steps, id, Min(m, 0x7FFF_FFFF));
  }
}
