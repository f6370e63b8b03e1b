/** What holds after any run that starts from the empty table, and between any two points of it. */
module Guarantees {
  import opened Jobs
  import opened Protocol
  import opened Histories
  import opened Invariants

  // ------------------------------------------------------------ every state

  lemma Reachable(start: Time, steps: seq<Step>)
    ensures Inv(Run(Start(start), steps))
  {
    RunKeeps(Start(start), steps);
  }

  /** Running one part and then the next is running both. */
  lemma {:induction false} RunCompose(w: World, a: seq<Step>, b: seq<Step>)
    ensures Run(w, a + b) == Run(Run(w, a), b)
    decreases |a|
  {
    if a == [] {
      assert a + b == b;
    } else {
      assert (a + b)[1..] == a[1..] + b;
      RunCompose(Apply(w, a[0]), a[1..], b);
    }
  }

  /** Some run from the empty table leads here. */
  ghost predicate Reached(w: World) { exists start, steps :: w == Run(Start(start), steps) }

  lemma ReachedKeeps(w: World)
    requires Reached(w)
    ensures Inv(w)
  {
    var start, steps :| w == Run(Start(start), steps);
    Reachable(start, steps);
  }

  lemma ReachedOn(w: World, steps: seq<Step>)
    requires Reached(w)
    ensures Reached(Run(w, steps))
  {
    var start, before :| w == Run(Start(start), before);
    RunCompose(Start(start), before, steps);
  }

  lemma OneStep(w: World, s: Step)
    ensures Run(w, [s]) == Apply(w, s)
  {
    assert [s][1..] == [];
  }

  lemma ReachedNext(w: World, s: Step)
    requires Reached(w)
    ensures Reached(Apply(w, s))
  {
    ReachedOn(w, [s]);
    OneStep(w, s);
  }

  lemma RunThenStep(w: World, steps: seq<Step>, s: Step)
    ensures Run(w, steps + [s]) == Apply(Run(w, steps), s)
  {
    RunCompose(w, steps, [s]);
    OneStep(Run(w, steps), s);
  }

  /** No library UPDATE ever trips a CHECK, and no claim overflows INTEGER. */
  lemma ChecksAlwaysHold(start: Time, steps: seq<Step>, id: Id)
    requires id in Run(Start(start), steps).rows
    ensures Checks(Run(Start(start), steps).rows[id])
    ensures var w := Run(Start(start), steps);
            Claimable(w.rows[id], w.now) ==> w.rows[id].attempts + 1 <= I32_MAX
  {
    var w := Run(Start(start), steps);
    Reachable(start, steps);
    assert RowInv(w.now, w.rows[id], w.history[id]);
  }

  /** A mark with any token changes the table iff the token is the row's open claim,
      and then it changes that row only. */
  lemma MarkFencing(start: Time, steps: seq<Step>, id: Id, token: Token, action: Action)
    ensures var w := Run(Start(start), steps);
            var after := MarkRows(w.rows, w.now, id, token, action);
            && (after != w.rows <==> id in w.rows && id in w.history && Open(w.history[id], token))
            && after - {id} == w.rows - {id}
  {
    var w := Run(Start(start), steps);
    var after := MarkRows(w.rows, w.now, id, token, action);
    Reachable(start, steps);
    if id in w.rows {
      OpenMeansHeld(w, id, token);
      if HoldsLease(w.rows, id, token) { assert after[id].status != Running; }
    }
  }

  /** The open claim of a history is the lease the row holds. */
  lemma OpenMeansHeld(w: World, id: Id, t: Token)
    requires Inv(w) && id in w.history
    ensures Open(w.history[id], t) <==> HoldsLease(w.rows, id, t)
  {
  }

  /** Every claim ever made ends exactly once, unless its row is still running under it;
      it never shows up in another row. */
  lemma ClaimEndsOnce(start: Time, steps: seq<Step>, t: Token)
    requires t in Run(Start(start), steps).issued
    ensures var w := Run(Start(start), steps);
            var own := w.issued[t].id;
            && own in w.history
            && ClaimsOf(w.history[own], t) == 1
            && ExitsOf(w.history[own], t) == (if HoldsLease(w.rows, own, t) then 0 else 1)
            && forall other :: other in w.history && other != own ==>
                 ClaimsOf(w.history[other], t) == 0 && ExitsOf(w.history[other], t) == 0
  {
    var w := Run(Start(start), steps);
    Reachable(start, steps);
    assert TokenInv(w, t);
    OpenMeansHeld(w, w.issued[t].id, t);
    forall other | other in w.history && other != w.issued[t].id
      ensures ClaimsOf(w.history[other], t) == 0 && ExitsOf(w.history[other], t) == 0
    {
      assert HistoryInv(w, other);
      ForeignToken(w.history[other], t);
    }
  }

  /** claims so far = attempts = exits so far + (1 if running). */
  lemma AttemptsCountClaims(start: Time, steps: seq<Step>, id: Id)
    requires id in Run(Start(start), steps).rows
    ensures var w := Run(Start(start), steps);
            && id in w.history
            && w.rows[id].attempts == Claims(w.history[id])
            && w.rows[id].attempts == Exits(w.history[id]) + if w.rows[id].status == Running then 1 else 0
  {
    var w := Run(Start(start), steps);
    Reachable(start, steps);
    assert RowInv(w.now, w.rows[id], w.history[id]);
    AlternatingCounts(w.history[id]);
    if w.rows[id].status != Running { EndedIsEven(w, id); }
  }

  /** A worker whose mark lands cached exactly the row's counters, so on the retry path it and
      the reaper send the row to the same status. */
  lemma VerdictAgreement(start: Time, steps: seq<Step>, t: Token, o: Outcome, delay: nat)
    requires t in Run(Start(start), steps).issued
    requires HoldsLease(Run(Start(start), steps).rows, Run(Start(start), steps).issued[t].id, t)
    ensures var w := Run(Start(start), steps);
            var lease := w.issued[t];
            var r := w.rows[lease.id];
            && lease.attempts == r.attempts && lease.maxAttempts == r.maxAttempts
            && (Retryable(o) ==> Marked(r, w.now, Decide(lease, o, delay)).status == Reaped(r, w.now).status)
  {
    var w := Run(Start(start), steps);
    Reachable(start, steps);
    assert LeaseMatches(w, w.issued[t].id);
  }

  /** A row waiting for a retry always has budget left under its latest stamp. */
  lemma RetryHasBudget(start: Time, steps: seq<Step>, id: Id)
    requires id in Run(Start(start), steps).rows
    requires Run(Start(start), steps).rows[id].status == AwaitingRetry
    ensures var r := Run(Start(start), steps).rows[id];
            0 < r.attempts < r.maxAttempts
  {
    var w := Run(Start(start), steps);
    Reachable(start, steps);
    assert RowInv(w.now, w.rows[id], w.history[id]);
  }

  /** How the latest exit happened and what budget was left decide the status, and `last_error` tells it:
      Ok gives done, a retryable outcome or lease expiry gives awaiting_retry or dead by the budget,
      anything else gives dead. */
  lemma StatusTellsCause(start: Time, steps: seq<Step>, id: Id)
    requires id in Run(Start(start), steps).rows && id in Run(Start(start), steps).history
    requires Run(Start(start), steps).history[id] != [] && Last(Run(Start(start), steps).history[id]).Left?
    ensures var w := Run(Start(start), steps);
            var r, c := w.rows[id], Last(w.history[id]).cause;
            && (r.status == Done <==> c == ByOutcome(HandlerOk))
            && (r.status == AwaitingRetry <==> SpendsBudget(c) && r.attempts < r.maxAttempts)
            && (r.status == Dead <==> c != ByOutcome(HandlerOk) && (SpendsBudget(c) ==> r.attempts >= r.maxAttempts))
            && r.lastError == (if r.status == Done then None else Some(ErrorText(c, r.status == Dead)))
  {
    var w := Run(Start(start), steps);
    Reachable(start, steps);
    assert RowInv(w.now, w.rows[id], w.history[id]);
  }

  /** Some event of the history carries the largest stamp. */
  lemma {:induction false} LargestStampAttained(h: seq<Event>) returns (k: nat)
    requires LargestStamp(h) > 0
    ensures k < |h| && h[k].Took? && h[k].stamp == LargestStamp(h)
    decreases |h|
  {
    if Last(h).Took? && Last(h).stamp == LargestStamp(h) {
      k := |h| - 1;
    } else {
      k := LargestStampAttained(Front(h));
    }
  }

  /** No row, purged or not, is ever claimed more often than the largest (i32-clamped)
      `max_attempts` of a worker that claimed it. */
  lemma AttemptBound(start: Time, steps: seq<Step>, id: Id)
    requires id in Run(Start(start), steps).history
    requires Run(Start(start), steps).history[id] != []
    ensures var w := Run(Start(start), steps);
            && (id in w.rows ==> w.rows[id].attempts == Claims(w.history[id]))
            && exists k :: 0 <= k < |w.history[id]| && w.history[id][k].Took?
                           && Claims(w.history[id]) <= w.history[id][k].stamp <= I32_MAX
  {
    var w := Run(Start(start), steps);
    Reachable(start, steps);
    assert HistoryInv(w, id);
    AlternatingCounts(w.history[id]);
    if id in w.rows { AttemptsCountClaims(start, steps, id); }
    var k := LargestStampAttained(w.history[id]);
    assert Claims(w.history[id]) <= w.history[id][k].stamp;
  }

  /** With one `max_attempts` across the fleet, a row dead by retry or lease expiry used every attempt. */
  lemma UniformDeadUsesAllAttempts(start: Time, steps: seq<Step>, id: Id, m: nat)
    requires id in Run(Start(start), steps).rows && id in Run(Start(start), steps).history
    requires Run(Start(start), steps).rows[id].status == Dead
    requires forall e :: e in Run(Start(start), steps).history[id] && e.Took? ==> e.stamp == m
    ensures var w := Run(Start(start), steps);
            var h := w.history[id];
            && h != [] && Last(h).Left?
            && w.rows[id].attempts <= m
            && (SpendsBudget(Last(h).cause) ==> w.rows[id].attempts == m)
  {
    var w := Run(Start(start), steps);
    Reachable(start, steps);
    assert RowInv(w.now, w.rows[id], w.history[id]);
    UniformStamp(w.history[id], m);
  }

  // ------------------------------------------------- between two points of a run

  /** `b` is the same job as `a`, later: identity fixed, first attempt set once,
      attempts never decreasing, and terminal rows frozen. */
  ghost predicate SameJob(a: Row, b: Row) {
    && b.publicId == a.publicId && b.queue == a.queue && b.key == a.key && b.payload == a.payload
    && b.createdAt == a.createdAt
    && (a.firstAttemptedAt.Some? ==> b.firstAttemptedAt == a.firstAttemptedAt)
    && a.attempts <= b.attempts
    && (a.status == Done || a.status == Dead ==> b == a)
  }

  /** `v` is a later world than `w`. */
  ghost predicate Follows(w: World, v: World) {
    && w.now <= v.now
    && (forall t :: t in w.issued ==> t in v.issued && v.issued[t] == w.issued[t])
    && (forall id :: id in w.history ==> id in v.history && w.history[id] <= v.history[id])
    && (forall id :: id in w.history && id !in w.rows ==> id !in v.rows)
    && (forall id :: id in w.rows && id in v.rows ==> SameJob(w.rows[id], v.rows[id]))
  }

  /** One step leaves a row alone, or claims, marks or reaps it. */
  lemma StepOnRow(w: World, s: Step, id: Id)
    requires Inv(w) && id in w.rows && id in Apply(w, s).rows && Apply(w, s).rows[id] != w.rows[id]
    ensures Enabled(w, s)
    ensures var r, r' := w.rows[id], Apply(w, s).rows[id];
            || (s.Claim? && Claimable(r, w.now) && id in s.tokens && s.tokens[id] !in w.issued
                && r' == Claimed(r, w.now, s.lease, Stamp(s.maxAttempts), s.tokens[id]))
            || (s.Finish? && HoldsLease(w.rows, id, s.token)
                && exists a :: r' == Marked(r, w.now, a))
            || (s.Reap? && Stale(r, s.queue, w.now) && r' == Reaped(r, w.now))
  {
    assert !s.Push?;
    assert !s.Purge?;
    if s.Claim? {
      ClaimIssues(w, s);
      assert id in ClaimChoice(w, s);
    }
  }

  lemma StepKeepsJob(w: World, s: Step, id: Id)
    requires Inv(w) && id in w.rows && id in Apply(w, s).rows
    ensures SameJob(w.rows[id], Apply(w, s).rows[id])
  {
    if Apply(w, s).rows[id] != w.rows[id] { StepOnRow(w, s, id); }
  }

  lemma StepGrowsHistory(w: World, s: Step, id: Id)
    requires id in w.history
    ensures id in Apply(w, s).history && w.history[id] <= Apply(w, s).history[id]
    ensures id !in w.rows ==> id !in Apply(w, s).rows
  {
  }

  lemma StepGrowsIssued(w: World, s: Step)
    ensures w.now <= Apply(w, s).now
    ensures forall t :: t in w.issued ==> t in Apply(w, s).issued && Apply(w, s).issued[t] == w.issued[t]
  {
  }

  lemma StepFollows(w: World, s: Step)
    requires Inv(w)
    ensures Follows(w, Apply(w, s))
  {
    var v := Apply(w, s);
    assert forall t :: t in w.issued ==> t in v.issued && v.issued[t] == w.issued[t] by { StepGrowsIssued(w, s); }
    assert w.now <= v.now by { StepGrowsIssued(w, s); }
    forall id | id in w.rows && id in v.rows ensures SameJob(w.rows[id], v.rows[id]) { StepKeepsJob(w, s, id); }
    forall id | id in w.history
      ensures id in v.history && w.history[id] <= v.history[id] && (id !in w.rows ==> id !in v.rows)
    {
      StepGrowsHistory(w, s, id);
    }
  }

  /** From any reachable world, any continuation keeps identities, freezes terminal rows
      and never brings a purged id back. */
  lemma {:induction false} RunFollows(w: World, steps: seq<Step>)
    requires Inv(w)
    ensures Follows(w, Run(w, steps))
    decreases |steps|
  {
    if steps != [] {
      var u := Apply(w, steps[0]);
      var v := Run(w, steps);
      StepFollows(w, steps[0]);
      StepKeeps(w, steps[0]);
      RunFollows(u, steps[1..]);
      FollowsTransitive(w, u, v);
    }
  }

  lemma FollowsTransitive(w: World, u: World, v: World)
    requires RowsInv(w) && RowsInv(u) && Follows(w, u) && Follows(u, v)
    ensures Follows(w, v)
  {
    forall id | id in w.rows && id in v.rows ensures SameJob(w.rows[id], v.rows[id]) {
      assert id in u.history;
      assert id in u.rows;
      assert SameJob(w.rows[id], u.rows[id]) && SameJob(u.rows[id], v.rows[id]);
    }
  }

  /** No two stored rows share a `public_id`. */
  ghost predicate PublicIdsDiffer(rows: Table) {
    forall i, j :: i in rows && j in rows && rows[i].publicId == rows[j].publicId ==> i == j
  }

  lemma StepKeepsPublicIds(w: World, s: Step)
    requires Inv(w) && PublicIdsDiffer(w.rows)
    ensures PublicIdsDiffer(Apply(w, s).rows)
  {
    var v := Apply(w, s);
    forall i, j | i in v.rows && j in v.rows && v.rows[i].publicId == v.rows[j].publicId ensures i == j {
      if i in w.rows { StepKeepsJob(w, s, i); }
      if j in w.rows { StepKeepsJob(w, s, j); }
    }
  }

  /** UNIQUE `public_id` holds after any run: only inserts could break it, and they are refused. */
  lemma {:induction false} PublicIdsStayUnique(w: World, steps: seq<Step>)
    requires Inv(w) && PublicIdsDiffer(w.rows)
    ensures PublicIdsDiffer(Run(w, steps).rows)
    decreases |steps|
  {
    if steps != [] {
      StepKeeps(w, steps[0]);
      StepKeepsPublicIds(w, steps[0]);
      PublicIdsStayUnique(Apply(w, steps[0]), steps[1..]);
    }
  }

  /** A row disappears only when a purge deletes it, finished and older than that purge's age. */
  lemma {:induction false} NoLoss(w: World, steps: seq<Step>, id: Id) returns (k: nat)
    requires Inv(w) && id in w.rows && id !in Run(w, steps).rows
    ensures k < |steps| && steps[k].Purge?
    ensures var u := Run(w, steps[..k]);
            && id in u.rows && id in steps[k].chosen
            && Purgeable(u.rows[id], steps[k].status, steps[k].age, u.now)
            && (u.rows[id].status == Done || u.rows[id].status == Dead)
    decreases |steps|
  {
    var u := Apply(w, steps[0]);
    StepKeeps(w, steps[0]);
    if id in u.rows {
      var j := NoLoss(u, steps[1..], id);
      k := j + 1;
      assert steps[..k][0] == steps[0] && steps[..k][1..] == steps[1..][..j];
    } else {
      k := 0;
      assert steps[..0] == [];
    }
  }

  // ------------------------------------------------------------- provenance

  /** A step that adds a worker's exit to a history is that worker's mark. */
  lemma NewExitIsMark(w: World, s: Step, id: Id, e: Event)
    requires Inv(w) && e.Left? && e.cause.ByOutcome?
    requires id in Apply(w, s).history && e in Apply(w, s).history[id]
    requires id in w.history ==> e !in w.history[id]
    ensures s.Finish? && s.token == e.token && s.outcome == e.cause.outcome
  {
    var h := Apply(w, s).history[id];
    if id in w.history && h != w.history[id] {
      assert h == w.history[id] + [Last(h)];
      assert e == Last(h);
    }
  }

  /** Every exit in a history was produced by a step of the run: a worker's mark with that very
      token and outcome, or a reap. */
  lemma {:induction false} ExitsComeFromSteps(w: World, steps: seq<Step>, id: Id, e: Event)
    requires Inv(w) && e.Left? && e.cause.ByOutcome?
    requires id in Run(w, steps).history && e in Run(w, steps).history[id]
    requires id in w.history ==> e !in w.history[id]
    ensures exists k :: 0 <= k < |steps| && steps[k].Finish? && steps[k].token == e.token
                        && steps[k].outcome == e.cause.outcome
    decreases |steps|
  {
    if steps != [] {
      var u := Apply(w, steps[0]);
      StepKeeps(w, steps[0]);
      if id in u.history && e in u.history[id] {
        NewExitIsMark(w, steps[0], id, e);
      } else {
        ExitsComeFromSteps(u, steps[1..], id, e);
        var k :| 0 <= k < |steps[1..]| && steps[1..][k].Finish? && steps[1..][k].token == e.token
                 && steps[1..][k].outcome == e.cause.outcome;
        assert steps[k + 1] == steps[1..][k];
      }
    }
  }

  /** A worker's exit that left a row as it is now answers the row's latest claim. */
  lemma LatestExitStep(start: Time, steps: seq<Step>, id: Id) returns (k: nat)
    requires id in Run(Start(start), steps).history && Run(Start(start), steps).history[id] != []
    requires var e := Last(Run(Start(start), steps).history[id]); e.Left? && e.cause.ByOutcome?
    ensures var h := Run(Start(start), steps).history[id];
            && |h| >= 2 && h[|h| - 2].Took? && h[|h| - 2].token == Last(h).token
            && k < |steps| && steps[k].Finish? && steps[k].token == Last(h).token
            && steps[k].outcome == Last(h).cause.outcome
  {
    var w := Run(Start(start), steps);
    var h := w.history[id];
    Reachable(start, steps);
    assert Alternating(h) by { assert HistoryInv(w, id); }
    assert Alternating(Front(h));
    assert Last(h) in h;
    ExitsComeFromSteps(Start(start), steps, id, Last(h));
    k :| && 0 <= k < |steps| && steps[k].Finish? && steps[k].token == Last(h).token
         && steps[k].outcome == Last(h).cause.outcome;
  }

  /** A row is done only if a handler returned Ok under the token of its latest claim. */
  lemma DoneMeansHandlerOk(start: Time, steps: seq<Step>, id: Id)
    requires id in Run(Start(start), steps).rows
    requires Run(Start(start), steps).rows[id].status == Done
    ensures var w := Run(Start(start), steps);
            && id in w.history && |w.history[id]| >= 2
            && var latest := w.history[id][|w.history[id]| - 2];
               && latest.Took?
               && exists k :: 0 <= k < |steps| && steps[k].Finish? && steps[k].token == latest.token
                              && steps[k].outcome == HandlerOk
  {
    var w := Run(Start(start), steps);
    Reachable(start, steps);
    assert Phase(w.rows[id], w.history[id]) by { assert RowInv(w.now, w.rows[id], w.history[id]); }
    var k := LatestExitStep(start, steps, id);
  }

  /** A row dead with attempts to spare was killed by Abort, PanicPolicy::Dead or a decode failure,
      under the token of its latest claim. */
  lemma EarlyDeathCauses(start: Time, steps: seq<Step>, id: Id)
    requires id in Run(Start(start), steps).rows
    requires Run(Start(start), steps).rows[id].status == Dead
    requires Run(Start(start), steps).rows[id].attempts < Run(Start(start), steps).rows[id].maxAttempts
    ensures var w := Run(Start(start), steps);
            && id in w.history && |w.history[id]| >= 2
            && var latest := w.history[id][|w.history[id]| - 2];
               && latest.Took?
               && exists k :: 0 <= k < |steps| && steps[k].Finish? && steps[k].token == latest.token
                    && var o := steps[k].outcome;
                       o.HandlerAbort? || o.Undecodable? || (o.HandlerPanicked? && o.policy == PanicDead)
  {
    var w := Run(Start(start), steps);
    Reachable(start, steps);
    assert Phase(w.rows[id], w.history[id]) by { assert RowInv(w.now, w.rows[id], w.history[id]); }
    var k := LatestExitStep(start, steps, id);
  }

  // ------------------------------------------------------------ timed fencing

  lemma StepLeavesLease(w: World, s: Step, id: Id, t: Token)
    requires Inv(w) && HoldsLease(w.rows, id, t) && !(s.Finish? && s.token == t)
    requires w.rows[id].leaseExpiresAt.Some? && Apply(w, s).now <= w.rows[id].leaseExpiresAt.value
    ensures id in Apply(w, s).rows && Apply(w, s).rows[id] == w.rows[id]
  {
    var u := Apply(w, s);
    assert w.now <= u.now by { StepFollows(w, s); }
    if id in u.rows && u.rows[id] != w.rows[id] { StepOnRow(w, s, id); }
  }

  /** Until its deadline passes, or its own worker marks it, a claimed row cannot move:
      whatever everyone else does, the holder's mark affects exactly one row. */
  lemma {:induction false} LeaseIsExclusive(w: World, steps: seq<Step>, id: Id, t: Token)
    requires Inv(w) && HoldsLease(w.rows, id, t)
    requires w.rows[id].leaseExpiresAt.Some? && Run(w, steps).now <= w.rows[id].leaseExpiresAt.value
    requires forall k :: 0 <= k < |steps| ==> !(steps[k].Finish? && steps[k].token == t)
    ensures id in Run(w, steps).rows && Run(w, steps).rows[id] == w.rows[id]
    decreases |steps|
  {
    if steps != [] {
      var u := Apply(w, steps[0]);
      StepKeeps(w, steps[0]);
      RunFollows(u, steps[1..]);
      StepLeavesLease(w, steps[0], id, t);
      LeaseIsExclusive(u, steps[1..], id, t);
    }
  }

  lemma StepRestoresNoLease(w: World, s: Step, id: Id, t: Token)
    requires Inv(w) && t in w.issued && HoldsLease(Apply(w, s).rows, id, t)
    ensures HoldsLease(w.rows, id, t) && Apply(w, s).rows[id] == w.rows[id]
  {
    if id in w.rows && Apply(w, s).rows[id] != w.rows[id] { StepOnRow(w, s, id); }
  }

  /** A lease once lost never comes back. */
  lemma {:induction false} LostForGood(w: World, steps: seq<Step>, id: Id, t: Token)
    requires Inv(w) && t in w.issued && !HoldsLease(w.rows, id, t)
    ensures !HoldsLease(Run(w, steps).rows, id, t)
    decreases |steps|
  {
    if steps != [] {
      var u := Apply(w, steps[0]);
      StepKeeps(w, steps[0]);
      StepGrowsIssued(w, steps[0]);
      if HoldsLease(u.rows, id, t) { StepRestoresNoLease(w, steps[0], id, t); }
      LostForGood(u, steps[1..], id, t);
    }
  }

  // --------------------------------------------------------------- schedules

  lemma StepLeavesScheduled(w: World, s: Step, id: Id)
    requires Inv(w) && id in w.rows && (w.rows[id].status == Queued || w.rows[id].status == AwaitingRetry)
    requires Apply(w, s).now < w.rows[id].runAt
    ensures id in Apply(w, s).rows && Apply(w, s).rows[id] == w.rows[id]
  {
  }

  /** A row waiting for its `run_at` does not move before the clock reaches it. */
  lemma {:induction false} NotBeforeRunAt(w: World, steps: seq<Step>, id: Id)
    requires Inv(w) && id in w.rows && (w.rows[id].status == Queued || w.rows[id].status == AwaitingRetry)
    requires Run(w, steps).now < w.rows[id].runAt
    ensures id in Run(w, steps).rows && Run(w, steps).rows[id] == w.rows[id]
    decreases |steps|
  {
    if steps != [] {
      var u := Apply(w, steps[0]);
      StepKeeps(w, steps[0]);
      RunFollows(u, steps[1..]);
      StepLeavesScheduled(w, steps[0], id);
      NotBeforeRunAt(u, steps[1..], id);
    }
  }

  /** A retried row sits out its whole delay: nothing anyone does claims it earlier. */
  lemma RetryWaitsOutDelay(w: World, t: Token, o: Outcome, delay: nat, after: seq<Step>)
    requires Inv(w) && t in w.issued && HoldsLease(w.rows, w.issued[t].id, t)
    requires Retryable(o) && w.issued[t].attempts < w.issued[t].maxAttempts
    requires Run(Apply(w, Finish(t, o, delay)), after).now < w.now + delay
    ensures var id := w.issued[t].id;
            var v := Run(Apply(w, Finish(t, o, delay)), after);
            && id in v.rows && v.rows[id].status == AwaitingRetry && v.rows[id].attempts == w.rows[id].attempts
  {
    var s := Finish(t, o, delay);
    StepKeeps(w, s);
    assert Apply(w, s).rows[w.issued[t].id] == Marked(w.rows[w.issued[t].id], w.now, ToRetry(Reason(o), delay));
    NotBeforeRunAt(Apply(w, s), after, w.issued[t].id);
  }
}
