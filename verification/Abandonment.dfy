/** How long an abandoned claim can sit under an accepted configuration, and when that is within one and a half
    leases. */
module Abandonment {
  import opened Jobs
  import opened Ranking
  import opened Protocol
  import opened Invariants
  import opened Guarantees
  import opened Reaper
  import opened Recovery
  import opened Config

  /** A run that claims row `id` and goes on; the latest reap before the claim was at `last`. */
  datatype Case = Case(start: Time, before: seq<Step>, claim: Step, id: Id, after: seq<Step>, last: Time)

  ghost function Before(c: Case): World { Run(Start(c.start), c.before) }

  ghost function After(c: Case): World { Run(Apply(Before(c), c.claim), c.after) }

  ghost function Deadline(c: Case): Time
    requires c.claim.Claim?
  {
    Before(c).now + c.claim.lease
  }

  /** The claim is made by a worker configured as `b`. */
  ghost predicate Claims(b: Builder, c: Case)
    requires Build(b).Accepted?
  {
    && c.claim.Claim? && c.claim.lease == Build(b).settings.leaseTimeout
    && Enabled(Before(c), c.claim) && c.id in ClaimChoice(Before(c), c.claim)
    && c.last <= Before(c).now
  }

  /** The claim is made, the reaper keeps its pace, `pause` after a full batch, and at expiry at most `ahead` rows
      are ahead. */
  ghost predicate Abandons(b: Builder, c: Case, pause: nat, ahead: nat)
    requires Build(b).Accepted?
  {
    && Claims(b, c)
    && var v, queue := Apply(Before(c), c.claim), Before(c).rows[c.id].queue;
       && Paced(v, c.after, queue, c.id, Build(b).settings.reaperInterval, pause, c.last, false)
       && BacklogAtMost(v, c.after, queue, c.id, Deadline(c), ahead)
  }

  ghost predicate StillHeld(c: Case)
    requires c.claim.Claim? && c.id in c.claim.tokens
  {
    HoldsLease(After(c).rows, c.id, c.claim.tokens[c.id])
  }

  // ------------------------------------------------------------- upper bound

  lemma ClaimIsHeld(u: World, claim: Step, v: World, id: Id, queue: string, deadline: Time)
    requires Inv(u) && claim.Claim? && Enabled(u, claim) && id in ClaimChoice(u, claim)
    requires v == Apply(u, claim) && queue == u.rows[id].queue && deadline == u.now + claim.lease
    ensures Inv(v) && Held(v, queue, id, claim.tokens[id], deadline)
  {
    assert Inv(v) by { StepKeeps(u, claim); }
    ClaimGrantsLease(u, claim, id);
  }

  lemma HeldRecovered(v: World, after: seq<Step>, id: Id, queue: string, t: Token, deadline: Time, interval: nat,
                      pause: nat, last: Time, ahead: nat)
    requires Inv(v) && Held(v, queue, id, t, deadline)
    requires last <= deadline && pause <= interval && Paced(v, after, queue, id, interval, pause, last, false)
    requires BacklogAtMost(v, after, queue, id, deadline, ahead)
    ensures HoldsLease(Run(v, after).rows, id, t) ==> Run(v, after).now <= deadline + interval + Batches(ahead) * pause
  {
    if HoldsLease(Run(v, after).rows, id, t) {
      PacedRecovers(v, after, queue, id, t, deadline, interval, pause, last, false, ahead);
    }
  }

  /** For every accepted configuration, in every run in which the reaper keeps its pace: no claim is held longer
      than its lease, one interval, and one pause per full batch ahead of it when it expired. */
  lemma AbandonedClaimRecovered(b: Builder, c: Case, pause: nat, ahead: nat)
    requires Build(b).Accepted? && Abandons(b, c, pause, ahead)
    requires pause <= Build(b).settings.reaperInterval
    ensures StillHeld(c) ==> After(c).now <= Deadline(c) + Build(b).settings.reaperInterval + Batches(ahead) * pause
  {
    var u := Before(c);
    Reachable(c.start, c.before);
    ClaimIsHeld(u, c.claim, Apply(u, c.claim), c.id, u.rows[c.id].queue, Deadline(c));
    HeldRecovered(Apply(u, c.claim), c.after, c.id, u.rows[c.id].queue, c.claim.tokens[c.id], Deadline(c),
                  Build(b).settings.reaperInterval, pause, c.last, ahead);
  }

  // -------------------------------------------------------------- worst case

  /** Rows `0 .. k-1` of the queue are running, all claimed at the current instant for the same lease. */
  ghost predicate Filled(w: World, k: nat, queue: string, deadline: Time) {
    && (forall i :: i in w.rows <==> 0 <= i < k)
    && (forall i :: i in w.history <==> 0 <= i < k)
    && (forall t :: t in w.issued ==> t < k)
    && (forall i :: i in w.rows ==>
          && w.rows[i].queue == queue && w.rows[i].status == Running && w.rows[i].publicId == i
          && w.rows[i].leaseExpiresAt.Some? && w.rows[i].leaseExpiresAt.value == deadline)
  }

  function PushNext(k: nat, queue: string): Step { Push(k, k, queue, None, [], None) }

  function ClaimNext(k: nat, lease: nat, maxAttempts: nat): Step {
    Claim({k}, 1, lease, maxAttempts, {}, map[k := k])
  }

  lemma ChoosesOnly(u: World, k: nat, lease: nat, maxAttempts: nat)
    requires k in u.rows && Claimable(u.rows[k], u.now)
    ensures ClaimChoice(u, ClaimNext(k, lease, maxAttempts)) == {k}
  {
    assert Lockable(u, {k}, {}) == {k};
    assert Earlier(u.rows, {k}, k) == {};
  }

  lemma PushesNext(w: World, k: nat, queue: string, deadline: Time)
    requires Filled(w, k, queue, deadline) && 0 < |queue| <= MAX_QUEUE_LEN
    ensures Enabled(w, PushNext(k, queue))
    ensures var u := Apply(w, PushNext(k, queue));
            && u.now == w.now && u.issued == w.issued
            && u.rows == w.rows[k := NewRow(k, queue, None, [], None, w.now)]
            && u.history == w.history[k := []]
  {
  }

  lemma ClaimsNext(u: World, k: nat, lease: nat, maxAttempts: nat)
    requires k in u.rows && Claimable(u.rows[k], u.now) && k !in u.issued && 1 <= maxAttempts <= U32_MAX
    ensures var claim := ClaimNext(k, lease, maxAttempts);
            var v := Apply(u, claim);
            && Enabled(u, claim) && ClaimChoice(u, claim) == {k} && v.now == u.now
            && v.rows == u.rows[k := Claimed(u.rows[k], u.now, lease, Stamp(maxAttempts), k)]
            && v.history.Keys == u.history.Keys && v.issued.Keys == u.issued.Keys + {k}
  {
    var claim := ClaimNext(k, lease, maxAttempts);
    ChoosesOnly(u, k, lease, maxAttempts);
    assert forall t :: t in claim.tokens.Values ==> t == k;
    assert Enabled(u, claim);
    ClaimIssues(u, claim);
  }

  /** One more row is pushed and claimed. */
  lemma FillNext(w: World, k: nat, queue: string, deadline: Time, lease: nat, maxAttempts: nat)
    requires Filled(w, k, queue, deadline) && deadline == w.now + lease
    requires 0 < |queue| <= MAX_QUEUE_LEN && 1 <= maxAttempts <= U32_MAX
    ensures var u := Apply(w, PushNext(k, queue));
            var claim := ClaimNext(k, lease, maxAttempts);
            && u.now == w.now && k in u.rows && u.rows[k].queue == queue
            && Enabled(u, claim) && ClaimChoice(u, claim) == {k}
            && Apply(u, claim).now == w.now && Filled(Apply(u, claim), k + 1, queue, deadline)
  {
    PushesNext(w, k, queue, deadline);
    ClaimsNext(Apply(w, PushNext(k, queue)), k, lease, maxAttempts);
  }

  /** A run that fills the queue up to `n` rows. */
  lemma {:induction false} Fill(w: World, k: nat, n: nat, queue: string, deadline: Time, lease: nat, maxAttempts: nat)
    returns (steps: seq<Step>)
    requires k <= n && Filled(w, k, queue, deadline) && deadline == w.now + lease
    requires 0 < |queue| <= MAX_QUEUE_LEN && 1 <= maxAttempts <= U32_MAX
    ensures Filled(Run(w, steps), n, queue, deadline) && Run(w, steps).now == w.now
    decreases n - k
  {
    if k == n {
      steps := [];
    } else {
      var push, claim := PushNext(k, queue), ClaimNext(k, lease, maxAttempts);
      FillNext(w, k, queue, deadline, lease, maxAttempts);
      var rest := Fill(Apply(Apply(w, push), claim), k + 1, n, queue, deadline, lease, maxAttempts);
      steps := [push] + ([claim] + rest);
      assert steps[1..] == [claim] + rest && ([claim] + rest)[1..] == rest;
    }
  }

  lemma {:induction false} RangeSize(k: nat, s: set<Id>)
    requires forall i :: i in s <==> 0 <= i < k
    ensures |s| == k
    decreases k
  {
    if k > 0 {
      RangeSize(k - 1, s - {k - 1});
    } else if s != {} {
      var i := Member(s);
    }
  }

  /** A tick before anything expires finds nothing and changes nothing. */
  lemma IdleReap(u: World, queue: string, id: Id, deadline: Time)
    requires u.now <= deadline
    requires forall i :: i in u.rows ==> u.rows[i].leaseExpiresAt.Some? && u.rows[i].leaseExpiresAt.value == deadline
    ensures var s := Reap(queue, REAPER_BATCH_SIZE, {}, {});
            ReapOf(u, s, queue, id) && Apply(u, s) == u
  {
    var s := Reap(queue, REAPER_BATCH_SIZE, {}, {});
    var pool := StaleIds(u.rows, queue, u.now) - {};
    if pool != {} { var i := Member(pool); }
    assert Enabled(u, s);
    assert Apply(u, s).rows == u.rows && Apply(u, s).history == u.history;
  }

  lemma IdleTick(w: World, elapsed: nat, s: Step, rest: seq<Step>, queue: string, id: Id, interval: nat, pause: nat,
                 deadline: Time, ahead: nat)
    requires elapsed <= interval && w.now + elapsed <= deadline
    requires var u := Apply(w, Advance(elapsed));
             && ReapOf(u, s, queue, id) && |s.chosen| < REAPER_BATCH_SIZE && Apply(u, s) == u
             && Paced(u, rest, queue, id, interval, pause, u.now, false)
             && BacklogAtMost(u, rest, queue, id, deadline, ahead)
    ensures var steps := [Advance(elapsed)] + ([s] + rest);
            && Paced(w, steps, queue, id, interval, pause, w.now, false)
            && BacklogAtMost(w, steps, queue, id, deadline, ahead)
            && Run(w, steps) == Run(Apply(w, Advance(elapsed)), rest)
  {
    var steps := [Advance(elapsed)] + ([s] + rest);
    assert steps[1..] == [s] + rest && ([s] + rest)[1..] == rest;
  }

  /** Ticks an interval apart up to the deadline, then `tail`. */
  lemma {:induction false} IdleTicks(w: World, remaining: nat, tail: seq<Step>, queue: string, id: Id, interval: nat,
                                     pause: nat, deadline: Time, ahead: nat) returns (steps: seq<Step>)
    requires interval > 0 && w.now + remaining == deadline
    requires forall i :: i in w.rows ==> w.rows[i].leaseExpiresAt.Some? && w.rows[i].leaseExpiresAt.value == deadline
    requires Paced(w.(now := deadline), tail, queue, id, interval, pause, deadline, false)
    requires BacklogAtMost(w.(now := deadline), tail, queue, id, deadline, ahead)
    ensures Paced(w, steps, queue, id, interval, pause, w.now, false)
    ensures BacklogAtMost(w, steps, queue, id, deadline, ahead)
    ensures Run(w, steps) == Run(w.(now := deadline), tail)
    decreases remaining
  {
    if remaining == 0 {
      assert w == w.(now := deadline);
      steps := tail;
    } else {
      var d := Min(interval, remaining);
      var u, s := Apply(w, Advance(d)), Reap(queue, REAPER_BATCH_SIZE, {}, {});
      assert u.(now := deadline) == w.(now := deadline);
      IdleReap(u, queue, id, deadline);
      var rest := IdleTicks(u, remaining - d, tail, queue, id, interval, pause, deadline, ahead);
      IdleTick(w, d, s, rest, queue, id, interval, pause, deadline, ahead);
      steps := [Advance(d)] + ([s] + rest);
    }
  }

  /** With `k` other rows claimed at the same instant for the same lease, `k` are ahead. */
  lemma AllAhead(w: World, k: nat, queue: string, deadline: Time)
    requires Filled(w, k + 1, queue, deadline)
    ensures |Ahead(w.rows, queue, k, deadline)| == k
  {
    RangeSize(k, Ahead(w.rows, queue, k, deadline));
  }

  /** From the moment of the claim on: idle ticks up to the deadline, the worst run after it. */
  lemma WorstAfterClaim(v: World, k: nat, queue: string, t: Token, deadline: Time, lease: nat, interval: nat,
                        pause: nat)
    returns (steps: seq<Step>)
    requires Inv(v) && Filled(v, k + 1, queue, deadline) && HoldsLease(v.rows, k, t)
    requires deadline == v.now + lease && interval > 0
    ensures Paced(v, steps, queue, k, interval, pause, v.now, false)
    ensures BacklogAtMost(v, steps, queue, k, deadline, k)
    ensures HoldsLease(Run(v, steps).rows, k, t)
    ensures Run(v, steps).now == deadline + interval + Batches(k) * pause
  {
    var z := Apply(v, Advance(lease));
    assert z == v.(now := deadline);
    StepKeeps(v, Advance(lease));
    AllAhead(z, k, queue, deadline);
    var tail := WorstRun(z, queue, k, t, deadline, interval, pause, false);
    steps := IdleTicks(v, lease, tail, queue, k, interval, pause, deadline, k);
  }

  /** A run from the empty table after which the claim of row `k` finds `k` others claimed at that instant. */
  lemma FillThenPush(k: nat, queue: string, lease: nat, maxAttempts: nat) returns (before: seq<Step>)
    requires 0 < |queue| <= MAX_QUEUE_LEN && 1 <= maxAttempts <= U32_MAX
    ensures var u, claim := Run(Start(0), before), ClaimNext(k, lease, maxAttempts);
            && Inv(u) && u.now == 0 && k in u.rows && u.rows[k].queue == queue
            && Enabled(u, claim) && ClaimChoice(u, claim) == {k}
            && Filled(Apply(u, claim), k + 1, queue, lease)
  {
    var filled := Fill(Start(0), 0, k, queue, lease, lease, maxAttempts);
    FillNext(Run(Start(0), filled), k, queue, lease, lease, maxAttempts);
    RunThenStep(Start(0), filled, PushNext(k, queue));
    before := filled + [PushNext(k, queue)];
    Reachable(0, before);
  }

  lemma WorstFrom(u: World, claim: Step, k: nat, queue: string, lease: nat, interval: nat, pause: nat)
    returns (after: seq<Step>)
    requires Inv(u) && u.now == 0 && interval > 0 && k in u.rows
    requires claim.Claim? && claim.lease == lease && claim.tokens == map[k := k]
    requires Enabled(u, claim) && ClaimChoice(u, claim) == {k} && Filled(Apply(u, claim), k + 1, queue, lease)
    ensures var v := Apply(u, claim);
            && Paced(v, after, queue, k, interval, pause, 0, false) && BacklogAtMost(v, after, queue, k, lease, k)
            && HoldsLease(Run(v, after).rows, k, k) && Run(v, after).now == lease + interval + Batches(k) * pause
  {
    StepKeeps(u, claim);
    ClaimGrantsLease(u, claim, k);
    after := WorstAfterClaim(Apply(u, claim), k, queue, k, lease, lease, interval, pause);
  }

  /** The bound of `AbandonedClaimRecovered` is met: for every accepted configuration, pace and backlog some run
      from the empty table still holds the claim that long. */
  lemma WorstCase(b: Builder, pause: nat, ahead: nat) returns (c: Case)
    requires Typed(b) && Build(b).Accepted?
    ensures Abandons(b, c, pause, ahead) && StillHeld(c)
    ensures After(c).now == Deadline(c) + Build(b).settings.reaperInterval + Batches(ahead) * pause
  {
    var lease, max := Build(b).settings.leaseTimeout, Build(b).settings.maxAttempts;
    var claim := ClaimNext(ahead, lease, max);
    var before := FillThenPush(ahead, b.queue, lease, max);
    var after := WorstFrom(Run(Start(0), before), claim, ahead, b.queue, lease, Build(b).settings.reaperInterval,
                           pause);
    c := Case(0, before, claim, ahead, after, 0);
    assert Deadline(c) == lease;
  }

  // ------------------------------------------------- one and a half leases

  /** The row does not sit longer than one and a half leases after its claim. */
  ghost predicate WithinThreeHalves(c: Case)
    requires c.claim.Claim? && c.id in c.claim.tokens
  {
    StillHeld(c) ==> 2 * (After(c).now - Before(c).now) <= 3 * c.claim.lease
  }

  /** An interval and a pause per full batch ahead fit into half a lease. */
  ghost predicate FitsHalfLease(b: Builder, pause: nat, ahead: nat)
    requires Build(b).Accepted?
  {
    2 * (Build(b).settings.reaperInterval + Batches(ahead) * pause) <= Build(b).settings.leaseTimeout
  }

  lemma FittingPaceIsInTime(b: Builder, c: Case, pause: nat, ahead: nat)
    requires Build(b).Accepted? && Abandons(b, c, pause, ahead)
    requires pause <= Build(b).settings.reaperInterval && FitsHalfLease(b, pause, ahead)
    ensures WithinThreeHalves(c)
  {
    AbandonedClaimRecovered(b, c, pause, ahead);
  }

  lemma UnfitPaceIsLate(b: Builder, pause: nat, ahead: nat) returns (c: Case)
    requires Typed(b) && Build(b).Accepted? && !FitsHalfLease(b, pause, ahead)
    ensures Abandons(b, c, pause, ahead) && !WithinThreeHalves(c)
  {
    c := WorstCase(b, pause, ahead);
  }

  /** "A stale row never sits beyond one and a half leases" holds of an accepted configuration, a pace and a backlog
      iff one reaper interval and one pause per full batch ahead fit into half a lease. */
  lemma ThreeHalvesLeasesExactly(b: Builder, pause: nat, ahead: nat)
    requires Typed(b) && Build(b).Accepted? && pause <= Build(b).settings.reaperInterval
    ensures (forall c :: Abandons(b, c, pause, ahead) ==> WithinThreeHalves(c))
            <==> 2 * (Build(b).settings.reaperInterval + Batches(ahead) * pause) <= Build(b).settings.leaseTimeout
  {
    if FitsHalfLease(b, pause, ahead) {
      forall c | Abandons(b, c, pause, ahead) ensures WithinThreeHalves(c) { FittingPaceIsInTime(b, c, pause, ahead); }
    } else {
      var c := UnfitPaceIsLate(b, pause, ahead);
    }
  }

  /** So the promise fails: with the longest interval `build` accepts, one full batch ahead and any time at all
      between its reap and the next are enough. */
  lemma OneBatchIsLate(pause: nat) returns (b: Builder, c: Case)
    requires 0 < pause <= 30 * SEC
    ensures Typed(b) && Build(b).Accepted? && Build(b).settings.leaseTimeout == 60 * SEC
    ensures Abandons(b, c, pause, REAPER_BATCH_SIZE) && !WithinThreeHalves(c)
  {
    b := Builder("q", 3, 60 * SEC, 32, SEC, Some(10), Some(4), 4, None, None, Some(30 * SEC),
                 Backoff.Linear(1.0, 0.0, 1.0), map[]);
    assert Batches(REAPER_BATCH_SIZE) == 1;
    c := UnfitPaceIsLate(b, pause, REAPER_BATCH_SIZE);
  }

  /** With the default interval, a quarter of the lease, the batches ahead may take the other quarter. */
  lemma DefaultIntervalLeavesAQuarter(b: Builder, c: Case, pause: nat, ahead: nat)
    requires Build(b).Accepted? && b.reaperInterval.None? && b.leaseTimeout >= 4 * SEC
    requires Abandons(b, c, pause, ahead) && pause <= Build(b).settings.reaperInterval
    requires 4 * (Batches(ahead) * pause) <= b.leaseTimeout
    ensures WithinThreeHalves(c)
  {
    FittingPaceIsInTime(b, c, pause, ahead);
  }
}
