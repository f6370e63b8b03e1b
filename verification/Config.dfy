/** `WorkerBuilder::build`, and the timing guarantees every accepted configuration carries.
    Durations are whole nanoseconds. */
module Config {
  import opened Jobs
  import opened Protocol
  import opened Invariants
  import opened Guarantees
  import Backoff

  const MS: nat := 1_000_000
  const SEC: nat := 1_000_000_000
  const DAY: nat := 86_400 * SEC

  /** The largest `Duration`: u64 seconds and 999_999_999 ns. */
  const DURATION_MAX: nat := 0xFFFF_FFFF_FFFF_FFFF * SEC + (SEC - 1)

  const MIN_LEASE_TIMEOUT: nat := SEC
  const MIN_REAPER_INTERVAL: nat := SEC
  const MIN_HANDLER_TIMEOUT: nat := SEC
  const MIN_MARK_TIMEOUT: nat := 100 * MS
  const MIN_POLL_INTERVAL: nat := 10 * MS
  const MIN_RETRY_IN: nat := 100 * MS
  const MAX_RETRY_IN: nat := DAY
  const BATCH_SIZE_MAX: nat := 1000

  datatype Builder = Builder(
    queue: string,
    maxAttempts: nat,
    leaseTimeout: nat,
    batchSize: nat,
    pollInterval: nat,
    poolConnections: Option<nat>,
    concurrency: Option<nat>,
    cpus: nat,
    handlerTimeout: Option<nat>,
    markTimeout: Option<nat>,
    reaperInterval: Option<nat>,
    backoff: Backoff.Policy,
    limits: map<Key, nat>)

  datatype Settings = Settings(
    maxAttempts: nat, leaseTimeout: nat, pollInterval: nat, concurrency: nat, poolConnections: nat,
    handlerTimeout: nat, markTimeout: nat, reaperInterval: nat)

  datatype BuildError =
    | QueueNameInvalid | MaxAttemptsZero | LeaseTimeoutBelowFloor | LeaseTimeoutTooShortForReaper
    | BatchSizeOutOfRange | PollIntervalTooShort | LeaseTimeoutTooShort | PoolMissing | ConcurrencyZero
    | PoolTooSmall | HandlerTimeoutBelowFloor | HandlerTimeoutTooLong | MarkTimeoutTooShort
    | MarkTimeoutTooLong | ReaperIntervalTooShort | ReaperIntervalTooLong | BackoffInvalid
    | ConcurrencyLimitsInvalid

  datatype Result = Accepted(settings: Settings) | Rejected(error: BuildError)

  /** The u32 and `Duration` ranges of the builder's fields. */
  predicate Typed(b: Builder) {
    && b.maxAttempts <= U32_MAX && b.batchSize <= U32_MAX
    && b.leaseTimeout <= DURATION_MAX && b.pollInterval <= DURATION_MAX
    && (b.poolConnections.Some? ==> b.poolConnections.value <= U32_MAX)
  }

  function GetOr(o: Option<nat>, d: nat): nat { if o.Some? then o.value else d }

  /** `lease.mul_f64(0.8)`, rounded to the nearest nanosecond. */
  function FourFifths(lease: nat): nat { (8 * lease + 5) / 10 }

  /** `u32::try_from(c).unwrap_or(MAX).saturating_mul(2).saturating_add(2)`. */
  function RequiredConnections(concurrency: nat): nat {
    Min(Min(2 * Min(concurrency, U32_MAX), U32_MAX) + 2, U32_MAX)
  }

  function HandlerTimeout(b: Builder): nat {
    GetOr(b.handlerTimeout, Max(FourFifths(b.leaseTimeout), MIN_HANDLER_TIMEOUT))
  }

  /** What is left of the lease once the handler had its time. */
  function Budget(b: Builder): nat {
    if HandlerTimeout(b) <= b.leaseTimeout then b.leaseTimeout - HandlerTimeout(b) else 0
  }

  function MarkTimeout(b: Builder): nat {
    GetOr(b.markTimeout, if SEC <= Budget(b) then Budget(b) - SEC else MIN_MARK_TIMEOUT)
  }

  function ReaperInterval(b: Builder): nat {
    GetOr(b.reaperInterval, Max(b.leaseTimeout / 4, MIN_REAPER_INTERVAL))
  }

  /** `build`, checks in source order. Whatever it accepts, handler and mark fit into the lease, and with
      the default mark timeout exactly one second is spare. */
  function Build(b: Builder): (r: Result)
    ensures r.Accepted? ==>
              var c := r.settings;
              && c.handlerTimeout + c.markTimeout <= c.leaseTimeout
              && c.handlerTimeout >= SEC && c.markTimeout >= 100 * MS
              && 2 * c.reaperInterval <= c.leaseTimeout && c.reaperInterval >= SEC
              && c.maxAttempts >= 1
              && (b.markTimeout.None? ==> c.leaseTimeout - c.handlerTimeout - c.markTimeout == SEC)
  {
    var concurrency := GetOr(b.concurrency, b.cpus);
    if |b.queue| == 0 || |b.queue| > MAX_QUEUE_LEN then Rejected(QueueNameInvalid)
    else if b.maxAttempts == 0 then Rejected(MaxAttemptsZero)
    else if b.leaseTimeout < MIN_LEASE_TIMEOUT then Rejected(LeaseTimeoutBelowFloor)
    else if b.leaseTimeout < 2 * MIN_REAPER_INTERVAL then Rejected(LeaseTimeoutTooShortForReaper)
    else if b.batchSize < 1 || b.batchSize > BATCH_SIZE_MAX then Rejected(BatchSizeOutOfRange)
    else if b.pollInterval < MIN_POLL_INTERVAL then Rejected(PollIntervalTooShort)
    else if 5 * b.pollInterval <= DURATION_MAX && b.leaseTimeout < 5 * b.pollInterval
    then Rejected(LeaseTimeoutTooShort)
    else if b.poolConnections.None? then Rejected(PoolMissing)
    else if concurrency == 0 then Rejected(ConcurrencyZero)
    else if b.poolConnections.value < RequiredConnections(concurrency) then Rejected(PoolTooSmall)
    else if HandlerTimeout(b) < MIN_HANDLER_TIMEOUT then Rejected(HandlerTimeoutBelowFloor)
    else if HandlerTimeout(b) + SEC > b.leaseTimeout then Rejected(HandlerTimeoutTooLong)
    else if MarkTimeout(b) < MIN_MARK_TIMEOUT then Rejected(MarkTimeoutTooShort)
    else if MarkTimeout(b) > Budget(b) then Rejected(MarkTimeoutTooLong)
    else if ReaperInterval(b) < MIN_REAPER_INTERVAL then Rejected(ReaperIntervalTooShort)
    else if ReaperInterval(b) > b.leaseTimeout / 2 then Rejected(ReaperIntervalTooLong)
    else if Backoff.Validate(b.backoff).Some? then Rejected(BackoffInvalid)
    else if exists k :: k in b.limits && (!(1 <= |k| <= MAX_KEY_LEN) || !(1 <= b.limits[k] <= I32_MAX))
    then Rejected(ConcurrencyLimitsInvalid)
    else Accepted(Settings(b.maxAttempts, b.leaseTimeout, b.pollInterval, concurrency, b.poolConnections.value,
                           HandlerTimeout(b), MarkTimeout(b), ReaperInterval(b)))
  }

  // --------------------------------------------------------------- the rules

  /** The rule each error reports as broken, in the documented numbers. */
  ghost predicate Violates(b: Builder, e: BuildError) {
    var h := HandlerTimeout(b);
    var left := if h <= b.leaseTimeout then b.leaseTimeout - h else 0;
    match e
    case QueueNameInvalid => !(1 <= |b.queue| <= 64)
    case MaxAttemptsZero => b.maxAttempts == 0
    case LeaseTimeoutBelowFloor => b.leaseTimeout < 1_000_000_000
    case LeaseTimeoutTooShortForReaper => b.leaseTimeout < 2_000_000_000
    case BatchSizeOutOfRange => !(1 <= b.batchSize <= 1000)
    case PollIntervalTooShort => b.pollInterval < 10_000_000
    case LeaseTimeoutTooShort => b.leaseTimeout < 5 * b.pollInterval <= DURATION_MAX
    case PoolMissing => b.poolConnections.None?
    case ConcurrencyZero => (if b.concurrency.Some? then b.concurrency.value else b.cpus) == 0
    case PoolTooSmall =>
      && b.poolConnections.Some? && b.poolConnections.value < 0xFFFF_FFFF
      && b.poolConnections.value < 2 * (if b.concurrency.Some? then b.concurrency.value else b.cpus) + 2
    case HandlerTimeoutBelowFloor => h < 1_000_000_000
    case HandlerTimeoutTooLong => h + 1_000_000_000 > b.leaseTimeout
    case MarkTimeoutTooShort =>
      if b.markTimeout.Some? then b.markTimeout.value < 100_000_000
      else 1_000_000_000 <= left < 1_100_000_000
    case MarkTimeoutTooLong =>
      if b.markTimeout.Some? then b.markTimeout.value > left else left < 100_000_000
    case ReaperIntervalTooShort => b.reaperInterval.Some? && b.reaperInterval.value < 1_000_000_000
    case ReaperIntervalTooLong => b.reaperInterval.Some? && 2 * b.reaperInterval.value > b.leaseTimeout
    case BackoffInvalid =>
      || b.backoff.cap == 0.0 || b.backoff.cap > 86_400.0 || b.backoff.base < 0.1
      || (b.backoff.Exponential?
          && (b.backoff.factor.NonFinite? || b.backoff.factor.value <= 1.0 || b.backoff.jitter.NonFinite?
              || b.backoff.jitter.value < 0.0 || b.backoff.jitter.value > 1.0))
    case ConcurrencyLimitsInvalid =>
      exists k :: k in b.limits && (|k| == 0 || |k| > 128 || b.limits[k] == 0 || b.limits[k] > 0x7FFF_FFFF)
  }

  /** The order in which the rules are checked. */
  ghost function Rank(e: BuildError): nat {
    match e
    case QueueNameInvalid => 0
    case MaxAttemptsZero => 1
    case LeaseTimeoutBelowFloor => 2
    case LeaseTimeoutTooShortForReaper => 3
    case BatchSizeOutOfRange => 4
    case PollIntervalTooShort => 5
    case LeaseTimeoutTooShort => 6
    case PoolMissing => 7
    case ConcurrencyZero => 8
    case PoolTooSmall => 9
    case HandlerTimeoutBelowFloor => 10
    case HandlerTimeoutTooLong => 11
    case MarkTimeoutTooShort => 12
    case MarkTimeoutTooLong => 13
    case ReaperIntervalTooShort => 14
    case ReaperIntervalTooLong => 15
    case BackoffInvalid => 16
    case ConcurrencyLimitsInvalid => 17
  }

  lemma RejectsBroken(b: Builder)
    requires Typed(b) && Build(b).Rejected?
    ensures Violates(b, Build(b).error)
  {
  }

  lemma ReportsFirst(b: Builder, e: BuildError)
    requires Typed(b) && (Build(b).Accepted? || Rank(e) < Rank(Build(b).error))
    ensures !Violates(b, e)
  {
  }

  /** `build` accepts a builder iff it breaks no rule, and otherwise reports the first rule it breaks. */
  lemma BuildExactly(b: Builder)
    requires Typed(b)
    ensures Build(b).Accepted? <==> forall e :: !Violates(b, e)
    ensures Build(b).Rejected? ==>
              Violates(b, Build(b).error) && forall e :: Rank(e) < Rank(Build(b).error) ==> !Violates(b, e)
  {
    if Build(b).Rejected? { RejectsBroken(b); }
    forall e | Build(b).Accepted? || Rank(e) < Rank(Build(b).error) ensures !Violates(b, e) { ReportsFirst(b, e); }
  }

  /** What the worker gets are the builder's values; by default handlers get four fifths of the lease to the nearest
      nanosecond, marks what is left but one second, the reaper a quarter, and none of the first and last under 1 s. */
  lemma SettingsAreTheBuilders(b: Builder)
    requires Typed(b) && Build(b).Accepted?
    ensures var c := Build(b).settings;
            && c.maxAttempts == b.maxAttempts && c.leaseTimeout == b.leaseTimeout && c.pollInterval == b.pollInterval
            && c.concurrency == (if b.concurrency.Some? then b.concurrency.value else b.cpus)
            && Some(c.poolConnections) == b.poolConnections
            && (if b.handlerTimeout.Some? then c.handlerTimeout == b.handlerTimeout.value
                else && c.handlerTimeout >= 1_000_000_000 && 10 * c.handlerTimeout > 8 * b.leaseTimeout - 5
                     && (c.handlerTimeout > 1_000_000_000 ==> 10 * c.handlerTimeout <= 8 * b.leaseTimeout + 5))
            && c.markTimeout == (if b.markTimeout.Some? then b.markTimeout.value
                                 else b.leaseTimeout - c.handlerTimeout - 1_000_000_000)
            && (if b.reaperInterval.Some? then c.reaperInterval == b.reaperInterval.value
                else && c.reaperInterval >= 1_000_000_000 && 4 * c.reaperInterval + 4 > b.leaseTimeout
                     && (c.reaperInterval > 1_000_000_000 ==> 4 * c.reaperInterval <= b.leaseTimeout))
  {
  }

  // --------------------------------------------------------------- the knobs

  /** The default timeouts are accepted exactly from a 5.5 s lease on (2 ns less, for rounding);
      a shorter budget is rejected, not clamped. */
  lemma DefaultTimeoutsNeedLease(b: Builder)
    requires b.handlerTimeout.None? && b.markTimeout.None? && b.reaperInterval.None?
    requires Build(b.(leaseTimeout := 60 * SEC)).Accepted?
    requires 5 * b.pollInterval <= b.leaseTimeout <= DURATION_MAX
    ensures Build(b).Accepted? <==> b.leaseTimeout >= 5_499_999_998
    ensures 2_500_000_000 <= b.leaseTimeout < 5_499_999_998 ==>
              Build(b) == Rejected(HandlerTimeoutTooLong) || Build(b) == Rejected(MarkTimeoutTooShort)
  {
  }

  /** A 5 s lease with default timeouts is such a rejection. */
  lemma ShortDefaultMarkRejected() returns (b: Builder)
    ensures Typed(b) && b.handlerTimeout.None? && b.markTimeout.None? && b.leaseTimeout == 5 * SEC
    ensures Build(b) == Rejected(MarkTimeoutTooShort) && Build(b.(leaseTimeout := 60 * SEC)).Accepted?
  {
    b := Builder("q", 3, 5 * SEC, 32, SEC, Some(10), Some(4), 4, None, None, None,
                 Backoff.Linear(1.0, 0.0, 1.0), map[]);
  }

  /** An accepted lease covers five polls iff the product does not overflow `Duration`: on overflow the
      check is skipped, and no lease can cover it. */
  lemma FivePollsFitUnlessOverflow(b: Builder)
    requires Typed(b) && Build(b).Accepted?
    ensures 5 * b.pollInterval <= b.leaseTimeout <==> 5 * b.pollInterval <= DURATION_MAX
  {
  }

  /** `build` accepts a builder whose lease is shorter than one poll, let alone five. */
  lemma OverflowingPollAccepted() returns (b: Builder)
    ensures Typed(b) && Build(b).Accepted?
    ensures Build(b).settings.leaseTimeout < Build(b).settings.pollInterval
  {
    b := Builder("q", 3, 60 * SEC, 32, DURATION_MAX, Some(10), Some(4), 4, None, None, None,
                 Backoff.Linear(1.0, 0.0, 1.0), map[]);
  }

  /** An accepted pool has two connections per handler and two more iff that number fits u32. */
  lemma PoolFitsUnlessSaturated(b: Builder)
    requires Typed(b) && Build(b).Accepted?
    ensures var c := Build(b).settings;
            2 * c.concurrency + 2 <= c.poolConnections <==> 2 * c.concurrency + 2 <= U32_MAX
  {
  }

  /** `build` accepts one connection per handler once the product saturates. */
  lemma SaturatedPoolAccepted() returns (b: Builder)
    ensures Typed(b) && Build(b).Accepted?
    ensures Build(b).settings.poolConnections == Build(b).settings.concurrency
  {
    b := Builder("q", 3, 60 * SEC, 32, SEC, Some(U32_MAX), Some(U32_MAX), 4, None, None, None,
                 Backoff.Linear(1.0, 0.0, 1.0), map[]);
  }

  // ------------------------------------------------------ compute_retry_delay

  datatype Delay = Delay(value: nat) | ClampPanics

  /** `compute_retry_delay`; `Ord::clamp` panics when its floor exceeds its ceiling. */
  function RetryDelay(retryIn: Option<nat>, backoff: nat, pollInterval: nat): Delay {
    if retryIn.None? then Delay(backoff)
    else
      var floor := Max(pollInterval, MIN_RETRY_IN);
      if floor > MAX_RETRY_IN then ClampPanics
      else Delay(Max(floor, Min(retryIn.value, MAX_RETRY_IN)))
  }

  /** A handler's `retry_in` is clamped into `[max(poll, 100 ms), 24 h]`, unless the poll interval is over 24 h:
      then the clamp panics. */
  lemma RetryInBand(retryIn: nat, backoff: nat, pollInterval: nat)
    ensures RetryDelay(Some(retryIn), backoff, pollInterval).ClampPanics? <==> pollInterval > DAY
    ensures pollInterval <= DAY ==>
              var d := RetryDelay(Some(retryIn), backoff, pollInterval);
              && d.Delay? && Max(pollInterval, MIN_RETRY_IN) <= d.value <= DAY
              && (Max(pollInterval, MIN_RETRY_IN) <= retryIn <= DAY ==> d.value == retryIn)
              && (retryIn <= Max(pollInterval, 100_000_000) ==> d.value == Max(pollInterval, 100_000_000))
              && (retryIn >= 86_400_000_000_000 ==> d.value == 86_400_000_000_000)
  {
  }

  /** `Duration::from_secs_f64`: the nearest whole nanosecond. */
  function Nanos(seconds: real): nat
    requires seconds >= 0.0
  {
    (seconds * 1_000_000_000.0 + 0.5).Floor
  }

  lemma NanosRound(seconds: real, most: nat)
    requires 0.0 <= seconds <= most as real
    ensures var n := Nanos(seconds) as real;
            n - 0.5 <= seconds * 1_000_000_000.0 <= n + 0.5
    ensures Nanos(seconds) <= most * SEC
  {
  }

  lemma AcceptedBackoff(b: Builder)
    requires Build(b).Accepted?
    ensures Backoff.Validate(b.backoff).None? && b.backoff.cap <= 86_400.0
  {
  }

  /** The delay before the next attempt of a job that asked to be retried. */
  ghost function DelayOf(b: Builder, retryIn: Option<nat>, attempts: nat, delta: real): Delay
    requires Build(b).Accepted? && attempts <= U32_MAX
    requires Backoff.Validate(b.backoff).None? && Backoff.Drawn(b.backoff, delta)
    requires Backoff.Next(b.backoff, attempts, delta) >= 0.0
  {
    RetryDelay(retryIn, Nanos(Backoff.Next(b.backoff, attempts, delta)), b.pollInterval)
  }

  /** Under every accepted configuration a job that does not say when waits its backoff, to the nearest nanosecond;
      and no job waits more than 24 h, unless it says when and the poll interval is over 24 h. */
  lemma DelaysWithinADay(b: Builder, retryIn: Option<nat>, attempts: nat, delta: real)
    requires Build(b).Accepted? && attempts <= U32_MAX
    requires Backoff.Validate(b.backoff).None? ==> Backoff.Drawn(b.backoff, delta)
    ensures Backoff.Validate(b.backoff).None? && Backoff.Next(b.backoff, attempts, delta) >= 0.0
    ensures var d := DelayOf(b, retryIn, attempts, delta);
            && (retryIn.None? || b.pollInterval <= DAY ==> d.Delay? && d.value <= DAY)
            && (retryIn.None? ==>
                  var wait := Backoff.Next(b.backoff, attempts, delta) * 1_000_000_000.0;
                  d.value as real - 0.5 <= wait <= d.value as real + 0.5)
  {
    AcceptedBackoff(b);
    var x := Backoff.Next(b.backoff, attempts, delta);
    assert 0.0 <= x <= b.backoff.cap by { Backoff.NextInBand(b.backoff, attempts, delta); }
    NanosRound(x, 86_400);
    if retryIn.Some? { RetryInBand(retryIn.value, Nanos(x), b.pollInterval); }
  }

  /** `build` does not rule that out: it accepts a 25 h poll interval. */
  lemma PanickingPollAccepted() returns (b: Builder)
    ensures Typed(b) && Build(b).Accepted?
    ensures RetryDelay(Some(SEC), 0, Build(b).settings.pollInterval).ClampPanics?
  {
    b := Builder("q", 3, 6 * DAY, 32, DAY + 3_600 * SEC, Some(10), Some(4), 4, None, None, None,
                 Backoff.Linear(1.0, 0.0, 1.0), map[]);
  }

  // ----------------------------------------------------------- timed fencing

  /** For every configuration `build` accepts, in every run: a handler that starts within the slack of its
      claim, ends within `handler_timeout` and has its mark evaluated within `mark_timeout` still holds the
      lease, so the mark moves its row and no other. */
  lemma TimedMarkLands(b: Builder, start: Time, before: seq<Step>, claim: Step, after: seq<Step>, id: Id,
                       started: Time, ended: Time, o: Outcome, delay: nat)
    requires Build(b).Accepted?
    requires claim.Claim? && claim.lease == Build(b).settings.leaseTimeout
    requires Enabled(Run(Start(start), before), claim) && id in ClaimChoice(Run(Start(start), before), claim)
    requires forall k :: 0 <= k < |after| ==> !(after[k].Finish? && after[k].token == claim.tokens[id])
    requires var c := Build(b).settings;
             var claimed := Run(Start(start), before);
             var marked := Run(Apply(claimed, claim), after);
             && started - claimed.now <= c.leaseTimeout - c.handlerTimeout - c.markTimeout
             && ended <= started + c.handlerTimeout
             && marked.now <= ended + c.markTimeout
    ensures var w := Run(Apply(Run(Start(start), before), claim), after);
            var v := Apply(w, Finish(claim.tokens[id], o, delay));
            && HoldsLease(w.rows, id, claim.tokens[id])
            && v.rows.Keys == w.rows.Keys
            && forall i :: i in w.rows ==> (v.rows[i] != w.rows[i] <==> i == id)
  {
    var u := Run(Start(start), before);
    Reachable(start, before);
    StepKeeps(u, claim);
    ClaimGrantsLease(u, claim, id);
    LeaseIsExclusive(Apply(u, claim), after, id, claim.tokens[id]);
    RunKeeps(Apply(u, claim), after);
    OwnMarkLands(Run(Apply(u, claim), after), id, claim.tokens[id], o, delay);
  }

  lemma ClaimGrantsLease(u: World, claim: Step, id: Id)
    requires claim.Claim? && Enabled(u, claim) && id in ClaimChoice(u, claim)
    ensures HoldsLease(Apply(u, claim).rows, id, claim.tokens[id])
    ensures var e := Apply(u, claim).rows[id].leaseExpiresAt; e.Some? && e.value == u.now + claim.lease
    ensures Apply(u, claim).rows[id].queue == u.rows[id].queue
  {
    assert Apply(u, claim).rows[id]
           == Claimed(u.rows[id], u.now, claim.lease, Stamp(claim.maxAttempts), claim.tokens[id]);
  }

  /** The holder's mark moves its row and no other. */
  lemma OwnMarkLands(w: World, id: Id, t: Token, o: Outcome, delay: nat)
    requires Inv(w) && HoldsLease(w.rows, id, t)
    ensures var v := Apply(w, Finish(t, o, delay));
            && v.rows.Keys == w.rows.Keys
            && forall i :: i in w.rows ==> (v.rows[i] != w.rows[i] <==> i == id)
  {
  }
}
