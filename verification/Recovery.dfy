/** How long a claim can outlive its deadline, whatever else arrives meanwhile. */
module Recovery {
  import opened Jobs
  import opened Ranking
  import opened Protocol
  import opened Invariants
  import opened Guarantees
  import opened Database
  import opened Reaper

  /** The other running rows of the queue that `ORDER BY lease_expires_at` may put before the row. */
  ghost function Ahead(rows: Table, queue: string, id: Id, deadline: Time): set<Id> {
    set j | j in rows && j != id && rows[j].queue == queue && rows[j].status == Running
            && LeaseDeadline(rows[j]) <= deadline
  }

  /** Row `id` of the queue is held by claim `t` until `deadline`. */
  ghost predicate Held(w: World, queue: string, id: Id, t: Token, deadline: Time) {
    && HoldsLease(w.rows, id, t) && w.rows[id].queue == queue
    && w.rows[id].leaseExpiresAt.Some? && w.rows[id].leaseExpiresAt.value == deadline
  }

  /** A reap of the queue, as the loop issues it, that may take row `id`. */
  ghost predicate ReapOf(w: World, s: Step, queue: string, id: Id) {
    s.Reap? && Enabled(w, s) && s.queue == queue && s.limit == REAPER_BATCH_SIZE && id !in s.locked
  }

  // -------------------------------------------------------------- single steps

  /** Past the deadline no step puts another row ahead: a new claim expires later. */
  lemma AheadNeverGrows(w: World, s: Step, queue: string, id: Id, deadline: Time)
    requires Inv(w) && deadline < w.now
    ensures Ahead(Apply(w, s).rows, queue, id, deadline) <= Ahead(w.rows, queue, id, deadline)
  {
    var v := Apply(w, s);
    forall j | j in Ahead(v.rows, queue, id, deadline) ensures j in Ahead(w.rows, queue, id, deadline) {
      if j in w.rows && v.rows[j] != w.rows[j] { StepOnRow(w, s, j); }
    }
  }

  /** A claim that survives a step kept its row, and a claim that does not is lost. */
  lemma StepKeepsHeld(w: World, s: Step, queue: string, id: Id, t: Token, deadline: Time)
    requires Inv(w) && Held(w, queue, id, t, deadline)
    ensures t in w.issued
    ensures HoldsLease(Apply(w, s).rows, id, t) ==> Held(Apply(w, s), queue, id, t, deadline)
  {
    assert LeaseMatches(w, id);
    if HoldsLease(Apply(w, s).rows, id, t) { StepRestoresNoLease(w, s, id, t); }
  }

  /** A late reap that leaves the row behind was full, and every row it took was ahead. */
  lemma BypassTakesAhead(w: World, s: Step, queue: string, id: Id, t: Token, deadline: Time)
    requires Inv(w) && Held(w, queue, id, t, deadline) && deadline < w.now
    requires ReapOf(w, s, queue, id) && id !in s.chosen
    ensures |s.chosen| == REAPER_BATCH_SIZE && s.chosen <= Ahead(w.rows, queue, id, deadline)
  {
    var pool := StaleIds(w.rows, queue, w.now) - s.locked;
    assert id in pool;
    SubsetSize(s.chosen, pool);
    forall j | j in s.chosen ensures j in Ahead(w.rows, queue, id, deadline) {
      assert LeaseDeadline(w.rows[j]) <= LeaseDeadline(w.rows[id]);
    }
  }

  lemma ReapedNotAhead(w: World, s: Step, queue: string, id: Id, deadline: Time)
    requires s.Reap? && Enabled(w, s)
    ensures Ahead(Apply(w, s).rows, queue, id, deadline) !! s.chosen
  {
    forall j | j in s.chosen ensures j !in Ahead(Apply(w, s).rows, queue, id, deadline) {
      assert Apply(w, s).rows[j] == Reaped(w.rows[j], w.now);
    }
  }

  /** A late reap takes the row, or takes a whole batch of the rows ahead of it. */
  lemma ReapTakesOrThins(w: World, s: Step, queue: string, id: Id, t: Token, deadline: Time)
    requires Inv(w) && Held(w, queue, id, t, deadline) && deadline < w.now && ReapOf(w, s, queue, id)
    requires HoldsLease(Apply(w, s).rows, id, t)
    ensures |s.chosen| == REAPER_BATCH_SIZE
    ensures |Ahead(Apply(w, s).rows, queue, id, deadline)| + REAPER_BATCH_SIZE
            <= |Ahead(w.rows, queue, id, deadline)|
  {
    var before, after := Ahead(w.rows, queue, id, deadline), Ahead(Apply(w, s).rows, queue, id, deadline);
    assert id !in s.chosen;
    assert |s.chosen| == REAPER_BATCH_SIZE && s.chosen <= before by { BypassTakesAhead(w, s, queue, id, t, deadline); }
    assert after <= before by { AheadNeverGrows(w, s, queue, id, deadline); }
    assert after !! s.chosen by { ReapedNotAhead(w, s, queue, id, deadline); }
    SubsetSize(after + s.chosen, before);
  }

  /** A reap that comes back short has recovered every unlocked expired claim of its queue,
      to the status the row's own counters call for. */
  lemma ShortReapRecovers(w: World, s: Step, queue: string, id: Id, t: Token, deadline: Time)
    requires Inv(w) && Held(w, queue, id, t, deadline) && deadline < w.now
    requires ReapOf(w, s, queue, id) && |s.chosen| < REAPER_BATCH_SIZE
    ensures var v := Apply(w, s);
            && id in v.rows && !HoldsLease(v.rows, id, t)
            && v.rows[id].status == if w.rows[id].attempts >= w.rows[id].maxAttempts then Dead else AwaitingRetry
  {
    if id !in s.chosen { BypassTakesAhead(w, s, queue, id, t, deadline); }
  }

  // ------------------------------------------------------------ bounded bypass

  /** How many reaps along the run could have taken the row. */
  ghost function Reaps(w: World, steps: seq<Step>, queue: string, id: Id): nat
    decreases |steps|
  {
    if steps == [] then 0
    else (if ReapOf(w, steps[0], queue, id) then 1 else 0) + Reaps(Apply(w, steps[0]), steps[1..], queue, id)
  }

  /** Past its deadline a claim is bypassed only by rows that were ahead of it: while it is held, the reaps
      so far took a full batch each out of those, whatever was claimed or pushed meanwhile. */
  lemma {:induction false} BypassBounded(w: World, steps: seq<Step>, queue: string, id: Id, t: Token, deadline: Time)
    requires Inv(w) && Held(w, queue, id, t, deadline) && deadline < w.now
    requires HoldsLease(Run(w, steps).rows, id, t)
    ensures REAPER_BATCH_SIZE * Reaps(w, steps, queue, id)
            + |Ahead(Run(w, steps).rows, queue, id, deadline)| <= |Ahead(w.rows, queue, id, deadline)|
    decreases |steps|
  {
    if steps != [] {
      var s, u := steps[0], Apply(w, steps[0]);
      StepKeeps(w, s);
      StepGrowsIssued(w, s);
      StepKeepsHeld(w, s, queue, id, t, deadline);
      if !HoldsLease(u.rows, id, t) { LostForGood(u, steps[1..], id, t); }
      BypassBounded(u, steps[1..], queue, id, t, deadline);
      if ReapOf(w, s, queue, id) {
        ReapTakesOrThins(w, s, queue, id, t, deadline);
      } else {
        AheadNeverGrows(w, s, queue, id, deadline);
        SubsetSize(Ahead(u.rows, queue, id, deadline), Ahead(w.rows, queue, id, deadline));
      }
    }
  }

  // ------------------------------------------------------------------- pace

  /** The pace of the loop: the next reap that may take the row comes within `interval` of the latest, at `last`,
      and within `pause` of it if that one came back full. */
  ghost predicate Paced(w: World, steps: seq<Step>, queue: string, id: Id, interval: nat, pause: nat, last: Time,
                        full: bool)
    decreases |steps|
  {
    && w.now <= last + (if full then pause else interval)
    && (steps == [] ||
        var reap := ReapOf(w, steps[0], queue, id);
        Paced(Apply(w, steps[0]), steps[1..], queue, id, interval, pause, if reap then w.now else last,
              if reap then |steps[0].chosen| == REAPER_BATCH_SIZE else full))
  }

  /** At the first point of the run past the deadline, if it gets there, at most `ahead` rows are ahead. */
  ghost predicate BacklogAtMost(w: World, steps: seq<Step>, queue: string, id: Id, deadline: Time, ahead: nat)
    decreases |steps|
  {
    if deadline < w.now then |Ahead(w.rows, queue, id, deadline)| <= ahead
    else steps == [] || BacklogAtMost(Apply(w, steps[0]), steps[1..], queue, id, deadline, ahead)
  }

  /** The full batches a backlog is good for. */
  function Batches(backlog: nat): nat { backlog / REAPER_BATCH_SIZE }

  lemma MulMono(a: nat, b: nat, c: nat)
    requires a <= b
    ensures a * c <= b * c
  {
  }

  lemma BatchesMono(a: nat, b: nat, pause: nat)
    requires a <= b
    ensures Batches(a) * pause <= Batches(b) * pause
    ensures a + REAPER_BATCH_SIZE <= b ==> Batches(a) * pause + pause <= Batches(b) * pause
  {
    var x, y := Batches(a), Batches(b);
    assert x <= y;
    MulMono(x, y, pause);
    if a + REAPER_BATCH_SIZE <= b {
      assert x + 1 <= y;
      MulMono(x + 1, y, pause);
      assert (x + 1) * pause == x * pause + pause;
    }
  }

  /** From a point past the deadline on. */
  lemma {:induction false} LateRecovers(w: World, steps: seq<Step>, queue: string, id: Id, t: Token, deadline: Time,
                                        interval: nat, pause: nat, last: Time, full: bool)
    requires Inv(w) && Held(w, queue, id, t, deadline) && deadline < w.now
    requires Paced(w, steps, queue, id, interval, pause, last, full)
    requires HoldsLease(Run(w, steps).rows, id, t)
    ensures Run(w, steps).now
            <= last + (if full then pause else interval) + Batches(|Ahead(w.rows, queue, id, deadline)|) * pause
    decreases |steps|
  {
    var ahead := |Ahead(w.rows, queue, id, deadline)|;
    BatchesMono(0, ahead, pause);
    if steps != [] {
      var s, u := steps[0], Apply(w, steps[0]);
      var reap, ahead' := ReapOf(w, s, queue, id), |Ahead(u.rows, queue, id, deadline)|;
      StepKeeps(w, s);
      StepGrowsIssued(w, s);
      StepKeepsHeld(w, s, queue, id, t, deadline);
      if !HoldsLease(u.rows, id, t) { LostForGood(u, steps[1..], id, t); }
      AheadNeverGrows(w, s, queue, id, deadline);
      SubsetSize(Ahead(u.rows, queue, id, deadline), Ahead(w.rows, queue, id, deadline));
      if reap { ReapTakesOrThins(w, s, queue, id, t, deadline); }
      BatchesMono(ahead', ahead, pause);
      LateRecovers(u, steps[1..], queue, id, t, deadline, interval, pause, if reap then w.now else last,
                   if reap then |s.chosen| == REAPER_BATCH_SIZE else full);
    }
  }

  /** At any pace with `pause <= interval`, and `ahead` rows ahead of it when it expired, a claim is not held past
      its deadline by more than one interval and one pause per full batch of those, whatever else happens. */
  lemma {:induction false} PacedRecovers(w: World, steps: seq<Step>, queue: string, id: Id, t: Token, deadline: Time,
                                         interval: nat, pause: nat, last: Time, full: bool, ahead: nat)
    requires Inv(w) && Held(w, queue, id, t, deadline)
    requires Paced(w, steps, queue, id, interval, pause, last, full) && last <= deadline && pause <= interval
    requires BacklogAtMost(w, steps, queue, id, deadline, ahead)
    requires HoldsLease(Run(w, steps).rows, id, t)
    ensures Run(w, steps).now <= deadline + interval + Batches(ahead) * pause
    decreases |steps|
  {
    BatchesMono(0, ahead, pause);
    if deadline < w.now {
      LateRecovers(w, steps, queue, id, t, deadline, interval, pause, last, full);
      BatchesMono(|Ahead(w.rows, queue, id, deadline)|, ahead, pause);
    } else if steps != [] {
      var s, u := steps[0], Apply(w, steps[0]);
      var reap := ReapOf(w, s, queue, id);
      StepKeeps(w, s);
      StepGrowsIssued(w, s);
      StepKeepsHeld(w, s, queue, id, t, deadline);
      if !HoldsLease(u.rows, id, t) { LostForGood(u, steps[1..], id, t); }
      PacedRecovers(u, steps[1..], queue, id, t, deadline, interval, pause, if reap then w.now else last,
                    if reap then |s.chosen| == REAPER_BATCH_SIZE else full, ahead);
    }
  }

  // -------------------------------------------------------------- worst case

  /** Some answer to `ORDER BY column LIMIT limit` always exists. */
  lemma {:induction false} LimitedExists(rows: Table, pool: set<Id>, column: Row -> Time, limit: nat)
    returns (chosen: set<Id>)
    requires pool <= rows.Keys
    ensures IsLimitedBy(rows, pool, column, limit, chosen)
    decreases limit
  {
    if limit == 0 || pool == {} {
      chosen := {};
    } else {
      var m := Minimal(rows, pool, column);
      var rest := LimitedExists(rows, pool - {m}, column, limit - 1);
      chosen := rest + {m};
    }
  }

  lemma LimitedWithin(rows: Table, low: set<Id>, pool: set<Id>, column: Row -> Time, limit: nat, chosen: set<Id>)
    requires low <= pool <= rows.Keys && limit <= |low| && IsLimitedBy(rows, low, column, limit, chosen)
    requires forall i, j :: i in low && j in pool && j !in low ==> column(rows[i]) <= column(rows[j])
    ensures IsLimitedBy(rows, pool, column, limit, chosen) && |chosen| == limit
  {
    SubsetSize(low, pool);
  }

  lemma AheadIsStale(w: World, queue: string, id: Id, deadline: Time)
    requires Inv(w) && deadline < w.now
    ensures Ahead(w.rows, queue, id, deadline) <= StaleIds(w.rows, queue, w.now)
  {
    forall j | j in Ahead(w.rows, queue, id, deadline) ensures j in StaleIds(w.rows, queue, w.now) {
      assert RowInv(w.now, w.rows[j], w.history[j]);
    }
  }

  /** With a full batch ahead, some reap with nothing locked passes the row over. */
  lemma FullBatchAhead(w: World, queue: string, id: Id, t: Token, deadline: Time) returns (s: Step)
    requires Inv(w) && Held(w, queue, id, t, deadline) && deadline < w.now
    requires |Ahead(w.rows, queue, id, deadline)| >= REAPER_BATCH_SIZE
    ensures ReapOf(w, s, queue, id) && s.locked == {}
    ensures |s.chosen| == REAPER_BATCH_SIZE && s.chosen <= Ahead(w.rows, queue, id, deadline)
  {
    var ahead, pool := Ahead(w.rows, queue, id, deadline), StaleIds(w.rows, queue, w.now);
    AheadIsStale(w, queue, id, deadline);
    var chosen := LimitedExists(w.rows, ahead, LeaseDeadline, REAPER_BATCH_SIZE);
    LimitedWithin(w.rows, ahead, pool, LeaseDeadline, REAPER_BATCH_SIZE, chosen);
    assert pool - {} == pool;
    s := Reap(queue, REAPER_BATCH_SIZE, {}, chosen);
  }

  /** Such a reap leaves the row held, with one batch less ahead. */
  lemma PassedOver(w: World, s: Step, queue: string, id: Id, t: Token, deadline: Time)
    requires Inv(w) && Held(w, queue, id, t, deadline)
    requires ReapOf(w, s, queue, id) && s.chosen <= Ahead(w.rows, queue, id, deadline)
    ensures Held(Apply(w, s), queue, id, t, deadline) && Apply(w, s).now == w.now
    ensures |Ahead(Apply(w, s).rows, queue, id, deadline)|
            == |Ahead(w.rows, queue, id, deadline)| - |s.chosen|
  {
    var v := Apply(w, s);
    forall j | j in s.chosen ensures v.rows[j].status != Running { assert v.rows[j] == Reaped(w.rows[j], w.now); }
    assert Ahead(v.rows, queue, id, deadline) == Ahead(w.rows, queue, id, deadline) - s.chosen;
  }

  lemma TickCrosses(w: World, elapsed: nat, rest: seq<Step>, queue: string, id: Id, deadline: Time)
    requires deadline <= w.now && deadline < w.now + elapsed
    ensures BacklogAtMost(w, [Advance(elapsed)] + rest, queue, id, deadline, |Ahead(w.rows, queue, id, deadline)|)
  {
    assert ([Advance(elapsed)] + rest)[1..] == rest;
  }

  lemma TickThenReap(w: World, elapsed: nat, s: Step, rest: seq<Step>, queue: string, id: Id, interval: nat, pause: nat,
                     full: bool)
    requires elapsed == if full then pause else interval
    requires var u := Apply(w, Advance(elapsed));
             && ReapOf(u, s, queue, id) && |s.chosen| == REAPER_BATCH_SIZE
             && Paced(Apply(u, s), rest, queue, id, interval, pause, u.now, true)
    ensures Paced(w, [Advance(elapsed)] + ([s] + rest), queue, id, interval, pause, w.now, full)
    ensures Run(w, [Advance(elapsed)] + ([s] + rest)) == Run(Apply(Apply(w, Advance(elapsed)), s), rest)
  {
    assert ([Advance(elapsed)] + ([s] + rest))[1..] == [s] + rest && ([s] + rest)[1..] == rest;
  }

  lemma OneBatchMore(ahead: nat, pause: nat)
    requires ahead >= REAPER_BATCH_SIZE
    ensures Batches(ahead) * pause == Batches(ahead - REAPER_BATCH_SIZE) * pause + pause
  {
    assert Batches(ahead) == Batches(ahead - REAPER_BATCH_SIZE) + 1;
  }

  /** The bound is met: from the deadline on, some run at this pace still holds the claim one interval (or pause)
      and one pause per full batch ahead later. */
  lemma {:induction false} WorstRun(w: World, queue: string, id: Id, t: Token, deadline: Time, interval: nat,
                                    pause: nat, full: bool) returns (steps: seq<Step>)
    requires Inv(w) && Held(w, queue, id, t, deadline)
    requires deadline <= w.now && deadline < w.now + (if full then pause else interval)
    ensures Paced(w, steps, queue, id, interval, pause, w.now, full)
    ensures BacklogAtMost(w, steps, queue, id, deadline, |Ahead(w.rows, queue, id, deadline)|)
    ensures HoldsLease(Run(w, steps).rows, id, t)
    ensures Run(w, steps).now
            == w.now + (if full then pause else interval) + Batches(|Ahead(w.rows, queue, id, deadline)|) * pause
    decreases |Ahead(w.rows, queue, id, deadline)|
  {
    var ahead := |Ahead(w.rows, queue, id, deadline)|;
    var wait := if full then pause else interval;
    var u := Apply(w, Advance(wait));
    StepKeeps(w, Advance(wait));
    if ahead < REAPER_BATCH_SIZE {
      steps := [Advance(wait)];
      assert Batches(ahead) == 0;
    } else {
      var s := FullBatchAhead(u, queue, id, t, deadline);
      PassedOver(u, s, queue, id, t, deadline);
      StepKeeps(u, s);
      OneBatchMore(ahead, pause);
      var rest := WorstRun(Apply(u, s), queue, id, t, deadline, interval, pause, true);
      TickThenReap(w, wait, s, rest, queue, id, interval, pause, full);
      TickCrosses(w, wait, [s] + rest, queue, id, deadline);
      steps := [Advance(wait)] + ([s] + rest);
    }
  }

  /** Exactly when the loop's pace frees an expired claim within `bound` of its latest reap: iff one interval and
      one pause per full batch ahead fit into it. */
  lemma PacedExactly(w: World, queue: string, id: Id, t: Token, deadline: Time, interval: nat, pause: nat, bound: nat)
    requires Inv(w) && Held(w, queue, id, t, deadline) && deadline < w.now
    ensures (forall steps ::
               Paced(w, steps, queue, id, interval, pause, w.now, false) && HoldsLease(Run(w, steps).rows, id, t) ==>
                 Run(w, steps).now <= w.now + bound)
            <==> interval + Batches(|Ahead(w.rows, queue, id, deadline)|) * pause <= bound
  {
    var least := interval + Batches(|Ahead(w.rows, queue, id, deadline)|) * pause;
    forall steps | Paced(w, steps, queue, id, interval, pause, w.now, false) && HoldsLease(Run(w, steps).rows, id, t)
      ensures Run(w, steps).now <= w.now + least
    {
      LateRecovers(w, steps, queue, id, t, deadline, interval, pause, w.now, false);
    }
    var worst := WorstRun(w, queue, id, t, deadline, interval, pause, false);
    assert Run(w, worst).now == w.now + least;
  }

  lemma NoBatch(ahead: nat, interval: nat)
    requires interval > 0
    ensures interval + Batches(ahead) * interval <= interval <==> ahead < REAPER_BATCH_SIZE
  {
    if Batches(ahead) > 0 { MulMono(1, Batches(ahead), interval); }
  }

  /** With ticks that never hurry, one interval is enough iff less than a batch is ahead. */
  lemma OneTickExactly(w: World, queue: string, id: Id, t: Token, deadline: Time, interval: nat)
    requires Inv(w) && Held(w, queue, id, t, deadline) && deadline < w.now && interval > 0
    ensures (forall steps ::
               Paced(w, steps, queue, id, interval, interval, w.now, false) && HoldsLease(Run(w, steps).rows, id, t) ==>
                 Run(w, steps).now <= w.now + interval)
            <==> |Ahead(w.rows, queue, id, deadline)| < REAPER_BATCH_SIZE
  {
    PacedExactly(w, queue, id, t, deadline, interval, interval, interval);
    NoBatch(|Ahead(w.rows, queue, id, deadline)|, interval);
  }
}
