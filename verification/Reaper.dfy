/** The reaper: adaptive draining of expired leases, and panic escalation. */
module Reaper {
  import opened Jobs
  import opened Ranking
  import opened Protocol
  import opened Database

  const REAPER_BATCH_SIZE: nat := 1024
  const PANIC_THRESHOLD: nat := 3

  // ------------------------------------------------------------------ drain

  /** A reap takes exactly its chosen rows out of the stale set. */
  lemma ReapShrinksStale(rows: Table, chosen: set<Id>, queue: string, now: Time)
    requires chosen <= rows.Keys
    ensures StaleIds(ReapRows(rows, chosen, now), queue, now) == StaleIds(rows, queue, now) - chosen
  {
    var after := ReapRows(rows, chosen, now);
    forall i ensures i in StaleIds(after, queue, now) <==> i in StaleIds(rows, queue, now) - chosen {
      assert i in rows && i in chosen ==> after[i].status != Running;
    }
  }

  /** Reaping two disjoint sets one after the other is reaping their union. */
  lemma ReapComposes(rows: Table, a: set<Id>, b: set<Id>, now: Time)
    requires a !! b
    ensures ReapRows(ReapRows(rows, a, now), b, now) == ReapRows(rows, a + b, now)
  {
  }

  /** One tick. The loop skips its next wait exactly when the batch came back full; when it does
      wait, no unlocked expired row of the queue is left. */
  method Tick(db: Db, queue: string, locked: set<Id>) returns (reaped: nat, ghost chosen: set<Id>)
    requires db.Valid()
    modifies db
    ensures Enabled(old(db.world), Reap(queue, REAPER_BATCH_SIZE, locked, chosen))
    ensures db.Valid() && db.world == Apply(old(db.world), Reap(queue, REAPER_BATCH_SIZE, locked, chosen))
    ensures reaped == |chosen| <= REAPER_BATCH_SIZE
    ensures reaped < REAPER_BATCH_SIZE ==> StaleIds(db.world.rows, queue, db.world.now) <= locked
  {
    ghost var w := db.world;
    ghost var pool := StaleIds(w.rows, queue, w.now) - locked;
    var out;
    out, chosen := db.Reap(queue, REAPER_BATCH_SIZE, locked);
    reaped := |out|;
    ReapShrinksStale(w.rows, chosen, queue, w.now);
    SubsetSize(chosen, pool);
  }

  /** `done` rows of the backlog are reaped, in full batches as long as the loop goes on. */
  ghost predicate Draining(before: Table, rows: Table, stale: set<Id>, done: set<Id>, reaps: nat, skip: bool,
                           now: Time)
  {
    && done <= stale
    && rows == ReapRows(before, done, now)
    && (skip ==> |done| == reaps * REAPER_BATCH_SIZE)
    && (!skip ==> done == stale && reaps == |stale| / REAPER_BATCH_SIZE + 1)
  }

  lemma DrainStep(before: Table, rows: Table, queue: string, now: Time, done: set<Id>, reaps: nat,
                  after: Table, chosen: set<Id>, skip: bool)
    requires Draining(before, rows, StaleIds(before, queue, now), done, reaps, true, now)
    requires chosen <= StaleIds(rows, queue, now)
    requires |chosen| == Min(REAPER_BATCH_SIZE, |StaleIds(rows, queue, now)|)
    requires after == ReapRows(rows, chosen, now)
    requires skip <==> |chosen| == REAPER_BATCH_SIZE
    ensures Draining(before, after, StaleIds(before, queue, now), done + chosen, reaps + 1, skip, now)
    ensures skip ==> |StaleIds(after, queue, now)| < |StaleIds(rows, queue, now)|
    ensures StaleIds(after, queue, now) == StaleIds(before, queue, now) - (done + chosen)
  {
    var stale := StaleIds(before, queue, now);
    ReapShrinksStale(before, done, queue, now);
    ReapShrinksStale(rows, chosen, queue, now);
    ReapComposes(before, done, chosen, now);
    SplitSizes(stale, done, chosen);
  }

  lemma SplitSizes(all: set<Id>, done: set<Id>, chosen: set<Id>)
    requires done <= all && chosen <= all - done
    ensures |done + chosen| == |done| + |chosen|
    ensures |all| == |done| + |all - done|
    ensures |all - done - chosen| == |all - done| - |chosen|
    ensures all - (done + chosen) == all - done - chosen
    ensures |chosen| == |all - done| ==> done + chosen == all
  {
  }

  /** Back-to-back reaps with nothing locked and nothing new expiring: `S` expired rows are all
      reaped in `S / 1024 + 1` statements. */
  method Drain(db: Db, queue: string) returns (reaps: nat)
    requires db.Valid()
    modifies db
    ensures var stale := StaleIds(old(db.world).rows, queue, old(db.world).now);
            && reaps == |stale| / 1024 + 1
            && db.world.rows == ReapRows(old(db.world).rows, stale, db.world.now)
    ensures db.Valid() && db.world.now == old(db.world).now && StaleIds(db.world.rows, queue, db.world.now) == {}
  {
    ghost var before, now := db.world.rows, db.world.now;
    ghost var stale := StaleIds(before, queue, now);
    ghost var done: set<Id> := {};
    reaps := 0;
    var skip := true;
    assert ReapRows(before, {}, now) == before;
    while skip
      invariant db.Valid() && db.world.now == now
      invariant Draining(before, db.world.rows, stale, done, reaps, skip, now)
      invariant !skip ==> StaleIds(db.world.rows, queue, now) == {}
      decreases skip, |StaleIds(db.world.rows, queue, now)|
    {
      ghost var chosen;
      ghost var rows := db.world.rows;
      assert StaleIds(rows, queue, now) - {} == StaleIds(rows, queue, now);
      var reaped;
      reaped, chosen := Tick(db, queue, {});
      skip := reaped >= REAPER_BATCH_SIZE;
      DrainStep(before, rows, queue, now, done, reaps, db.world.rows, chosen, skip);
      done, reaps := done + chosen, reaps + 1;
    }
  }

  // ------------------------------------------------------------ reaper_loop

  /** What one tick task comes back with. */
  datatype TickEvent = Sweep(locked: set<Id>) | DbError(fatal: bool) | Panic | Cancelled

  datatype Exit = StillRunning | FatalError | PanicEscalation(consecutive: nat) | Quit

  /** The ticks up to `i` end in three panics in a row. */
  ghost predicate PanicRun(events: seq<TickEvent>, i: nat)
    requires i < |events|
  {
    i >= 2 && events[i - 2].Panic? && events[i - 1].Panic? && events[i].Panic?
  }

  ghost predicate Stops(events: seq<TickEvent>, i: nat)
    requires i < |events|
  {
    events[i] == DbError(true) || events[i] == Cancelled || PanicRun(events, i)
  }

  ghost function ExitAt(events: seq<TickEvent>, i: nat): Exit
    requires i < |events| && Stops(events, i)
  {
    if events[i] == DbError(true) then FatalError
    else if events[i] == Cancelled then Quit
    else PanicEscalation(3)
  }

  /** Tick `j` was a sweep that came back full. */
  ghost predicate WasFull(events: seq<TickEvent>, taken: seq<nat>, j: int)
    requires |taken| <= |events|
  {
    0 <= j < |taken| && events[j].Sweep? && taken[j] == 1024
  }

  /** Of tick `j`: the loop waited before it iff the one before was not a full sweep. */
  ghost predicate WaitsRightly(events: seq<TickEvent>, waited: seq<bool>, taken: seq<nat>) {
    |taken| <= |events| && forall j :: 0 <= j < |waited| ==> (waited[j] <==> !WasFull(events, taken, j - 1))
  }

  /** One tick task: what others did before it, the world it found, the rows it reaped, the world it left. */
  datatype Ticked = Ticked(others: seq<Step>, before: World, chosen: set<Id>, after: World)

  /** A sweep is a reap of the queue, batch-sized, of the unlocked expired rows; short, it leaves none of them. Any
      other event leaves the table alone. */
  ghost predicate TicksRightly(queue: string, event: TickEvent, reaped: nat, t: Ticked) {
    if event.Sweep? then
      var s := Reap(queue, 1024, event.locked, t.chosen);
      && Enabled(t.before, s) && t.after == Apply(t.before, s) && reaped == |t.chosen|
      && (reaped < 1024 ==> StaleIds(t.after.rows, queue, t.after.now) <= event.locked)
    else t.after == t.before
  }

  ghost function LeftBy(start: World, ticks: seq<Ticked>): World {
    if ticks == [] then start else ticks[|ticks| - 1].after
  }

  /** The loop ran these ticks one after the other, each in the world the one before it left after what others did. */
  ghost predicate Ran(start: World, queue: string, events: seq<TickEvent>, taken: seq<nat>, ticks: seq<Ticked>)
    decreases |ticks|
  {
    && |taken| == |ticks| <= |events|
    && (ticks == [] ||
        var n := |ticks| - 1;
        && TicksRightly(queue, events[n], taken[n], ticks[n])
        && ticks[n].before == Run(LeftBy(start, ticks[..n]), ticks[n].others)
        && Ran(start, queue, events, taken[..n], ticks[..n]))
  }

  lemma RanNext(start: World, queue: string, events: seq<TickEvent>, taken: seq<nat>, ticks: seq<Ticked>, reaped: nat,
                t: Ticked)
    requires Ran(start, queue, events, taken, ticks) && |ticks| < |events|
    requires TicksRightly(queue, events[|ticks|], reaped, t) && t.before == Run(LeftBy(start, ticks), t.others)
    ensures Ran(start, queue, events, taken + [reaped], ticks + [t])
  {
    assert (taken + [reaped])[..|ticks|] == taken && (ticks + [t])[..|ticks|] == ticks;
  }

  lemma WaitNext(events: seq<TickEvent>, waited: seq<bool>, taken: seq<nat>, skip: bool, reaped: nat)
    requires |waited| == |taken| < |events| && WaitsRightly(events, waited, taken)
    requires skip <==> WasFull(events, taken, |taken| - 1)
    ensures WaitsRightly(events, waited + [!skip], taken + [reaped])
    ensures WasFull(events, taken + [reaped], |taken|) <==> events[|taken|].Sweep? && reaped == REAPER_BATCH_SIZE
  {
    var more := taken + [reaped];
    forall i | -1 <= i < |taken| ensures WasFull(events, more, i) <==> WasFull(events, taken, i) {
      if 0 <= i { assert more[i] == taken[i]; }
    }
  }

  /** The latest `panics` ticks were panics, fewer than the threshold, and none before was the last straw. */
  ghost predicate Panicking(events: seq<TickEvent>, at: nat, panics: nat) {
    && panics < PANIC_THRESHOLD && panics <= at <= |events|
    && (forall j :: at - panics <= j < at ==> events[j].Panic?)
    && (panics < at ==> !events[at - panics - 1].Panic?)
    && (forall j :: 0 <= j < at ==> !Stops(events, j))
  }

  /** What the loop does about a tick: go on, perhaps without waiting, or leave. */
  datatype Next = GoOn(skip: bool, panics: nat) | Leave(exit: Exit)

  method React(event: TickEvent, reaped: nat, panics: nat, ghost events: seq<TickEvent>, ghost at: nat)
    returns (next: Next)
    requires Panicking(events, at, panics) && at < |events| && events[at] == event
    ensures next.GoOn? ==> Panicking(events, at + 1, next.panics)
    ensures next.GoOn? ==> (next.skip <==> event.Sweep? && reaped >= REAPER_BATCH_SIZE)
    ensures next.Leave? ==> Stops(events, at) && next.exit == ExitAt(events, at)
  {
    match event {
      case Sweep(_) =>
        next := GoOn(reaped >= REAPER_BATCH_SIZE, 0);
      case DbError(fatal) =>
        next := if fatal then Leave(FatalError) else GoOn(false, 0);
      case Panic =>
        next := if panics + 1 >= PANIC_THRESHOLD then Leave(PanicEscalation(panics + 1)) else GoOn(false, panics + 1);
      case Cancelled =>
        next := Leave(Quit);
    }
    assert next.GoOn? ==> !Stops(events, at);
  }

  /** Others act, then the tick task runs: only a sweep touches the table. */
  method TickTask(db: Db, queue: string, event: TickEvent) returns (reaped: nat, ghost t: Ticked)
    requires db.Valid()
    modifies db
    ensures db.Valid() && t.before == Run(old(db.world), t.others) && t.after == db.world
    ensures TicksRightly(queue, event, reaped, t)
    ensures event.Sweep? ==> reaped <= REAPER_BATCH_SIZE
  {
    ghost var others := db.Others({});
    ghost var before := db.world;
    ghost var chosen := {};
    reaped := 0;
    if event.Sweep? {
      reaped, chosen := Tick(db, queue, event.locked);
    }
    t := Ticked(others, before, chosen, db.world);
  }

  /** `reaper_loop`. Every sweep is a batch-sized reap of its queue, in the world the ticks before it and everyone else
      left. It leaves at the first tick that is a fatal error, a cancellation or the third panic in a row, and at no other.
      It waits before every tick, except after a sweep that came back full; `taken` are the batch sizes. */
  method Loop(db: Db, queue: string, events: seq<TickEvent>)
    returns (exit: Exit, at: nat, waited: seq<bool>, taken: seq<nat>, ghost ticks: seq<Ticked>)
    requires db.Valid()
    modifies db
    ensures db.Valid() && Ran(old(db.world), queue, events, taken, ticks) && db.world == LeftBy(old(db.world), ticks)
    ensures at <= |events| && forall j :: 0 <= j < at ==> !Stops(events, j)
    ensures at == |events| ==> exit == StillRunning
    ensures at < |events| ==> Stops(events, at) && exit == ExitAt(events, at)
    ensures |taken| == |waited| == Min(at + 1, |events|) && WaitsRightly(events, waited, taken)
  {
    var skipNext, panics := false, 0;
    at, waited, taken, ticks := 0, [], [], [];
    while at < |events|
      invariant db.Valid() && Panicking(events, at, panics)
      invariant |ticks| == |taken| == |waited| == at
      invariant skipNext <==> WasFull(events, taken, at - 1)
      invariant WaitsRightly(events, waited, taken) && Ran(old(db.world), queue, events, taken, ticks)
      invariant db.world == LeftBy(old(db.world), ticks)
      decreases |events| - at
    {
      var reaped;
      ghost var t;
      reaped, t := TickTask(db, queue, events[at]);
      RanNext(old(db.world), queue, events, taken, ticks, reaped, t);
      WaitNext(events, waited, taken, skipNext, reaped);
      waited, taken, ticks := waited + [!skipNext], taken + [reaped], ticks + [t];
      var next := React(events[at], reaped, panics, events, at);
      if next.Leave? {
        exit := next.exit;
        return;
      }
      skipNext, panics, at := next.skip, next.panics, at + 1;
    }
    exit := StillRunning;
  }
}
