/** What every run of the protocol keeps, and the guarantees that follow in every reachable world. */
module Invariants {
  import opened Jobs
  import opened Protocol
  import opened Histories

  // ------------------------------------------------------------- invariant

  /** No timestamp written by the database lies in its future, and a running row was due. */
  ghost predicate Past(r: Row, now: Time) {
    && (r.status == Running ==> r.runAt <= now)
    && r.createdAt <= now && r.updatedAt <= now
    && Coalesce(r.firstAttemptedAt, r.createdAt) <= now
    && Coalesce(r.lastAttemptedAt, r.createdAt) <= now
    && Coalesce(r.finishedAt, r.createdAt) <= now
  }

  /** The exits that spend retry budget: a retryable outcome, or lease expiry. */
  ghost predicate SpendsBudget(c: Cause) {
    c.ByLeaseExpiry? || Retryable(c.outcome)
  }

  /** The `last_error` an exit leaves behind. */
  ghost function ErrorText(c: Cause, dead: bool): string {
    if c.ByOutcome? then Reason(c.outcome)
    else if dead then "lease_expired_max_attempts" else "lease_expired"
  }

  /** The row's status, error and clock are the ones its history leaves it with. */
  ghost predicate Phase(r: Row, h: seq<Event>) {
    match r.status
    case Queued => h == [] && r.lastError.None?
    case Running =>
      |h| % 2 == 1 && r.leaseToken == Some(Last(h).token) && r.lastError.None? && r.lastAttemptedAt == Some(r.updatedAt)
    case AwaitingRetry =>
      && h != [] && Last(h).Left? && SpendsBudget(Last(h).cause) && r.attempts < r.maxAttempts
      && r.lastError == Some(ErrorText(Last(h).cause, false))
    case Done =>
      && h != [] && Last(h).Left? && Last(h).cause == ByOutcome(HandlerOk)
      && r.lastError.None? && r.finishedAt == Some(r.updatedAt)
    case Dead =>
      && h != [] && Last(h).Left? && Last(h).cause != ByOutcome(HandlerOk)
      && (SpendsBudget(Last(h).cause) ==> r.attempts >= r.maxAttempts)
      && r.lastError == Some(ErrorText(Last(h).cause, true)) && r.finishedAt == Some(r.updatedAt)
  }

  /** The row's counters are the ones its history adds up to. */
  ghost predicate Counters(r: Row, h: seq<Event>) {
    && r.attempts == (|h| + 1) / 2
    && r.attempts <= LargestStamp(h) <= I32_MAX
    && r.maxAttempts == LatestStamp(h) <= LargestStamp(h)
    && (h != [] ==> 1 <= r.maxAttempts)
  }

  ghost predicate RowInv(now: Time, r: Row, h: seq<Event>) {
    Checks(r) && Past(r, now) && Alternating(h) && Phase(r, h) && Counters(r, h)
  }

  /** A running row's claim is exactly what the claiming worker was handed. */
  ghost predicate LeaseMatches(w: World, id: Id)
    requires id in w.rows
  {
    w.rows[id].status == Running ==>
      && w.rows[id].leaseToken.Some?
      && w.rows[id].leaseToken.value in w.issued
      && w.issued[w.rows[id].leaseToken.value] == Lease(id, w.rows[id].attempts, w.rows[id].maxAttempts)
  }

  ghost predicate RowsInv(w: World) {
    && w.rows.Keys <= w.history.Keys
    && forall id :: id in w.rows ==> RowInv(w.now, w.rows[id], w.history[id]) && LeaseMatches(w, id)
  }

  /** Histories alternate, carry only tokens issued for that row, and end closed once the row is purged. */
  ghost predicate HistoryInv(w: World, id: Id)
    requires id in w.history
  {
    && Alternating(w.history[id])
    && (forall e :: e in w.history[id] ==> e.token in w.issued && w.issued[e.token].id == id)
    && (id !in w.rows ==> |w.history[id]| % 2 == 0)
    && (|w.history[id]| + 1) / 2 <= LargestStamp(w.history[id]) <= I32_MAX
  }

  /** Each issued token is one claim of its row, ended exactly once unless it is still open. */
  ghost predicate TokenInv(w: World, t: Token)
    requires t in w.issued
  {
    && w.issued[t].id in w.history
    && ClaimsOf(w.history[w.issued[t].id], t) == 1
    && ExitsOf(w.history[w.issued[t].id], t) == if Open(w.history[w.issued[t].id], t) then 0 else 1
  }

  ghost predicate Inv(w: World) {
    && RowsInv(w)
    && (forall id :: id in w.history ==> HistoryInv(w, id))
    && (forall t :: t in w.issued ==> TokenInv(w, t))
  }

  // -------------------------------------------------------- one row, one step

  /** A claim keeps every CHECK and spends one attempt within budget. */
  lemma ClaimKeepsRow(now: Time, r: Row, h: seq<Event>, lease: nat, maxAttempts: nat, token: Token)
    requires RowInv(now, r, h) && Claimable(r, now) && 1 <= maxAttempts
    ensures r.attempts + 1 <= I32_MAX
    ensures |h| % 2 == 0
    ensures RowInv(now, Claimed(r, now, lease, Stamp(maxAttempts), token), h + [Took(token, Stamp(maxAttempts))])
  {
  }

  /** A mark by the holder of the lease keeps every CHECK; its verdict follows the row's own counters. */
  lemma MarkKeepsRow(now: Time, r: Row, h: seq<Event>, lease: Lease, token: Token, o: Outcome, delay: nat)
    requires RowInv(now, r, h) && r.status == Running && r.leaseToken == Some(token)
    requires lease.attempts == r.attempts && lease.maxAttempts == r.maxAttempts
    ensures RowInv(now, Marked(r, now, Decide(lease, o, delay)), h + [Left(token, ByOutcome(o))])
  {
  }

  /** A reap keeps every CHECK. */
  lemma ReapKeepsRow(now: Time, r: Row, h: seq<Event>, token: Token)
    requires RowInv(now, r, h) && r.status == Running && r.leaseToken == Some(token)
    ensures RowInv(now, Reaped(r, now), h + [Left(token, ByLeaseExpiry)])
  {
  }

  // ------------------------------------------------------------- whole steps

  lemma AdvanceKeeps(w: World, s: Step)
    requires Inv(w) && s.Advance?
    ensures Inv(Apply(w, s))
  {
  }

  lemma PushKeeps(w: World, s: Step)
    requires Inv(w) && s.Push? && Enabled(w, s)
    ensures Inv(Apply(w, s))
  {
  }

  lemma PurgeKeeps(w: World, s: Step)
    requires Inv(w) && s.Purge? && Enabled(w, s)
    ensures Inv(Apply(w, s))
  {
  }

  /** A row that is not running has as many exits as claims. */
  lemma EndedIsEven(w: World, id: Id)
    requires RowsInv(w) && id in w.rows && w.rows[id].status != Running
    ensures |w.history[id]| % 2 == 0
  {
  }

  /** What a claim adds to the issued tokens: each fresh token with the row it was stamped on. */
  lemma ClaimIssues(w: World, s: Step)
    requires s.Claim? && Enabled(w, s)
    ensures forall t :: t in w.issued ==> t in AfterClaim(w, s).issued && AfterClaim(w, s).issued[t] == w.issued[t]
    ensures forall i :: i in ClaimChoice(w, s) ==>
              && s.tokens[i] !in w.issued
              && s.tokens[i] in AfterClaim(w, s).issued
              && AfterClaim(w, s).issued[s.tokens[i]] == Lease(i, w.rows[i].attempts + 1, Stamp(s.maxAttempts))
    ensures forall t :: t in AfterClaim(w, s).issued && t !in w.issued ==>
              exists i :: i in ClaimChoice(w, s) && s.tokens[i] == t
  {
    var chosen := ClaimChoice(w, s);
    var byToken := map i | i in chosen :: s.tokens[i];
    forall i | i in chosen
      ensures s.tokens[i] !in w.issued && s.tokens[i] in byToken.Values
    {
      assert s.tokens[i] in s.tokens.Values;
      assert byToken[i] == s.tokens[i];
    }
  }

  lemma ClaimKeepsRows(w: World, s: Step)
    requires Inv(w) && s.Claim? && Enabled(w, s)
    ensures RowsInv(AfterClaim(w, s))
  {
    var v := AfterClaim(w, s);
    ClaimIssues(w, s);
    forall id | id in v.rows ensures RowInv(v.now, v.rows[id], v.history[id]) && LeaseMatches(v, id) {
      assert RowInv(w.now, w.rows[id], w.history[id]) && LeaseMatches(w, id);
      if id in ClaimChoice(w, s) {
        ClaimKeepsRow(w.now, w.rows[id], w.history[id], s.lease, s.maxAttempts, s.tokens[id]);
      }
    }
  }

  lemma ClaimOpensHistory(w: World, s: Step, id: Id)
    requires Inv(w) && s.Claim? && Enabled(w, s) && id in ClaimChoice(w, s)
    ensures id in w.history && |w.history[id]| % 2 == 0
    ensures AfterClaim(w, s).history[id] == w.history[id] + [Took(s.tokens[id], Stamp(s.maxAttempts))]
    ensures Open(AfterClaim(w, s).history[id], s.tokens[id]) && Alternating(AfterClaim(w, s).history[id])
    ensures (|w.history[id]| + 2) / 2 <= LargestStamp(AfterClaim(w, s).history[id]) <= I32_MAX
    ensures forall t :: ClaimsOf(AfterClaim(w, s).history[id], t) ==
              ClaimsOf(w.history[id], t) + if t == s.tokens[id] then 1 else 0
    ensures forall t :: ExitsOf(AfterClaim(w, s).history[id], t) == ExitsOf(w.history[id], t)
  {
    assert RowInv(w.now, w.rows[id], w.history[id]);
    ClaimKeepsRow(w.now, w.rows[id], w.history[id], s.lease, s.maxAttempts, s.tokens[id]);
    AppendEvent(w.history[id], Took(s.tokens[id], Stamp(s.maxAttempts)));
  }

  lemma ClaimKeepsHistory(w: World, s: Step, id: Id)
    requires Inv(w) && s.Claim? && Enabled(w, s) && id in w.history
    ensures HistoryInv(AfterClaim(w, s), id)
  {
    assert HistoryInv(w, id);
    var v := AfterClaim(w, s);
    forall e | e in v.history[id] ensures e.token in v.issued && v.issued[e.token].id == id {
      ClaimOwnsEvents(w, s, id, e);
    }
    if id in ClaimChoice(w, s) { ClaimOpensHistory(w, s, id); }
  }

  lemma ClaimOwnsEvents(w: World, s: Step, id: Id, e: Event)
    requires s.Claim? && Enabled(w, s) && id in w.history && e in AfterClaim(w, s).history[id]
    requires forall f :: f in w.history[id] ==> f.token in w.issued && w.issued[f.token].id == id
    ensures e.token in AfterClaim(w, s).issued && AfterClaim(w, s).issued[e.token].id == id
  {
    ClaimIssues(w, s);
  }

  lemma ClaimKeepsOldToken(w: World, s: Step, t: Token)
    requires Inv(w) && s.Claim? && Enabled(w, s) && t in w.issued
    requires t in AfterClaim(w, s).issued && AfterClaim(w, s).issued[t] == w.issued[t]
    requires forall i :: i in ClaimChoice(w, s) ==> s.tokens[i] !in w.issued
    ensures TokenInv(AfterClaim(w, s), t)
  {
  }

  lemma UnissuedIsForeign(w: World, id: Id, t: Token)
    requires Inv(w) && id in w.history && t !in w.issued
    ensures ClaimsOf(w.history[id], t) == 0 && ExitsOf(w.history[id], t) == 0
  {
    assert HistoryInv(w, id);
    ForeignToken(w.history[id], t);
  }

  lemma ClaimKeepsNewToken(w: World, s: Step, id: Id)
    requires Inv(w) && s.Claim? && Enabled(w, s) && id in ClaimChoice(w, s)
    requires s.tokens[id] !in w.issued
    requires s.tokens[id] in AfterClaim(w, s).issued && AfterClaim(w, s).issued[s.tokens[id]].id == id
    ensures TokenInv(AfterClaim(w, s), s.tokens[id])
  {
    ClaimOpensHistory(w, s, id);
    assert ClaimsOf(w.history[id], s.tokens[id]) == 0 && ExitsOf(w.history[id], s.tokens[id]) == 0 by {
      UnissuedIsForeign(w, id, s.tokens[id]);
    }
  }

  lemma ClaimKeeps(w: World, s: Step)
    requires Inv(w) && s.Claim? && Enabled(w, s)
    ensures Inv(Apply(w, s))
  {
    ClaimKeepsRows(w, s);
    forall id | id in w.history ensures HistoryInv(AfterClaim(w, s), id) { ClaimKeepsHistory(w, s, id); }
    ClaimIssues(w, s);
    forall t | t in AfterClaim(w, s).issued ensures TokenInv(AfterClaim(w, s), t) {
      if t in w.issued {
        ClaimKeepsOldToken(w, s, t);
      } else {
        var id :| id in ClaimChoice(w, s) && s.tokens[id] == t;
        ClaimKeepsNewToken(w, s, id);
      }
    }
  }

  /** Ending the open claim of a set of running rows, whatever ends it, keeps tokens accounted for. */
  lemma ExitKeepsTokens(w: World, v: World, ended: set<Id>)
    requires Inv(w) && v.issued == w.issued && v.history.Keys == w.history.Keys && v.rows.Keys == w.rows.Keys
    requires forall i :: i in ended ==> i in w.rows && w.rows[i].status == Running
    requires forall i :: i in w.history ==>
               if i in ended then exists c :: v.history[i] == w.history[i] + [Left(w.rows[i].leaseToken.value, c)]
               else v.history[i] == w.history[i]
    ensures forall id :: id in v.history ==> HistoryInv(v, id)
    ensures forall t :: t in v.issued ==> TokenInv(v, t)
  {
    forall id | id in v.history ensures HistoryInv(v, id) {
      assert HistoryInv(w, id);
      if id in ended { ExitClosesHistory(w, v, id); }
    }
    forall t | t in v.issued ensures TokenInv(v, t) {
      assert TokenInv(w, t);
      var id := w.issued[t].id;
      if id in ended { ExitClosesHistory(w, v, id); }
    }
  }

  lemma ExitClosesHistory(w: World, v: World, id: Id)
    requires Inv(w) && v.issued == w.issued && id in w.rows && id in v.history && w.rows[id].status == Running
    requires exists c :: v.history[id] == w.history[id] + [Left(w.rows[id].leaseToken.value, c)]
    ensures Open(w.history[id], w.rows[id].leaseToken.value)
    ensures Alternating(v.history[id]) && |v.history[id]| % 2 == 0
    ensures w.rows[id].leaseToken.value in w.issued && w.issued[w.rows[id].leaseToken.value].id == id
    ensures forall t :: ClaimsOf(v.history[id], t) == ClaimsOf(w.history[id], t)
    ensures forall t :: ExitsOf(v.history[id], t) ==
              ExitsOf(w.history[id], t) + if t == w.rows[id].leaseToken.value then 1 else 0
  {
    assert RowInv(w.now, w.rows[id], w.history[id]) && LeaseMatches(w, id);
    var c :| v.history[id] == w.history[id] + [Left(w.rows[id].leaseToken.value, c)];
    AppendEvent(w.history[id], Left(w.rows[id].leaseToken.value, c));
  }

  lemma FinishKeeps(w: World, s: Step)
    requires Inv(w) && s.Finish? && Enabled(w, s)
    ensures Inv(Apply(w, s))
  {
    if HoldsLease(w.rows, w.issued[s.token].id, s.token) {
      FinishKeepsRows(w, s);
      FinishKeepsTokens(w, s);
    }
  }

  lemma FinishKeepsTokens(w: World, s: Step)
    requires Inv(w) && s.Finish? && Enabled(w, s) && HoldsLease(w.rows, w.issued[s.token].id, s.token)
    ensures forall id :: id in AfterFinish(w, s).history ==> HistoryInv(AfterFinish(w, s), id)
    ensures forall t :: t in AfterFinish(w, s).issued ==> TokenInv(AfterFinish(w, s), t)
  {
    var v, id := AfterFinish(w, s), w.issued[s.token].id;
    assert v.history[id] == w.history[id] + [Left(w.rows[id].leaseToken.value, ByOutcome(s.outcome))];
    ExitKeepsTokens(w, v, {id});
  }

  lemma FinishKeepsRows(w: World, s: Step)
    requires Inv(w) && s.Finish? && Enabled(w, s) && HoldsLease(w.rows, w.issued[s.token].id, s.token)
    ensures RowsInv(AfterFinish(w, s))
  {
    var v := AfterFinish(w, s);
    var lease := w.issued[s.token];
    assert LeaseMatches(w, lease.id);
    forall id | id in v.rows ensures RowInv(v.now, v.rows[id], v.history[id]) && LeaseMatches(v, id) {
      assert RowInv(w.now, w.rows[id], w.history[id]) && LeaseMatches(w, id);
      if id == lease.id {
        MarkKeepsRow(w.now, w.rows[id], w.history[id], lease, s.token, s.outcome, s.delay);
      }
    }
  }

  lemma ReapKeeps(w: World, s: Step)
    requires Inv(w) && s.Reap? && Enabled(w, s)
    ensures Inv(Apply(w, s))
  {
    var v := Apply(w, s);
    forall id | id in v.rows ensures RowInv(v.now, v.rows[id], v.history[id]) && LeaseMatches(v, id) {
      assert RowInv(w.now, w.rows[id], w.history[id]) && LeaseMatches(w, id);
      if id in s.chosen {
        ReapKeepsRow(w.now, w.rows[id], w.history[id], w.rows[id].leaseToken.value);
      }
    }
    forall id | id in s.chosen ensures id in w.rows && w.rows[id].status == Running && w.rows[id].leaseToken.Some? {
      assert RowInv(w.now, w.rows[id], w.history[id]);
    }
    ExitKeepsTokens(w, v, s.chosen);
  }

  /** No statement breaks the invariant. */
  lemma StepKeeps(w: World, s: Step)
    requires Inv(w)
    ensures Inv(Apply(w, s))
  {
    if Enabled(w, s) {
      match s
      case Advance(_) => AdvanceKeeps(w, s);
      case Push(_, _, _, _, _, _) => PushKeeps(w, s);
      case Claim(_, _, _, _, _, _) => ClaimKeeps(w, s);
      case Finish(_, _, _) => FinishKeeps(w, s);
      case Reap(_, _, _, _) => ReapKeeps(w, s);
      case Purge(_, _, _, _, _) => PurgeKeeps(w, s);
    }
  }

  lemma {:induction false} RunKeeps(w: World, steps: seq<Step>)
    requires Inv(w)
    ensures Inv(Run(w, steps))
    decreases |steps|
  {
    if steps != [] {
      StepKeeps(w, steps[0]);
      RunKeeps(Apply(w, steps[0]), steps[1..]);
    }
  }
}
