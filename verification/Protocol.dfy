/** Any number of workers, reapers, pushers and purgers interleaving on one table.
    Each SQL statement is one atomic step. */
module Protocol {
  import opened Jobs
  import opened Ranking

  const U32_MAX: int := 0xFFFF_FFFF

  /** What `PanicPolicy` a worker is configured with. */
  datatype PanicPolicy = PanicRetry | PanicDead

  /** How a claimed row's processing ends on the worker. */
  datatype Outcome =
    | HandlerOk
    | HandlerRetry(reason: string)
    | HandlerAbort(reason: string)
    | HandlerTimedOut
    | HandlerPanicked(message: string, policy: PanicPolicy)
    | Undecodable(reason: string)

  /** What the claim returned to the worker; it never looks at the row again. */
  datatype Lease = Lease(id: Id, attempts: int, maxAttempts: int)

  /** Why a row left `running`. */
  datatype Cause = ByOutcome(outcome: Outcome) | ByLeaseExpiry

  /** One entry of a row's history. */
  datatype Event = Took(token: Token, stamp: int) | Left(token: Token, cause: Cause)

  /** The database, plus what no process can read: every token ever issued together with the
      claim it answered, and for every id ever inserted the claims and exits of that row. */
  datatype World = World(now: Time, rows: Table, issued: map<Token, Lease>, history: map<Id, seq<Event>>)

  datatype Step =
    | Advance(elapsed: nat)
    | Push(id: Id, publicId: nat, queue: string, key: Option<Key>, payload: seq<Byte>, runAt: Option<Time>)
      /** `candidates` is what the CTEs before the locking one selected, possibly from an older state. */
    | Claim(candidates: set<Id>, want: nat, lease: nat, maxAttempts: nat, locked: set<Id>, tokens: map<Id, Token>)
    | Finish(token: Token, outcome: Outcome, delay: nat)
    | Reap(queue: string, limit: nat, locked: set<Id>, chosen: set<Id>)
    | Purge(status: Status, age: nat, limit: nat, locked: set<Id>, chosen: set<Id>)

  /** `fmt_err_trimmed`. */
  function Trim(s: string): (r: string)
    ensures |r| <= MAX_LAST_ERROR_LEN && r <= s
    ensures |s| <= MAX_LAST_ERROR_LEN ==> r == s
  {
    if |s| <= MAX_LAST_ERROR_LEN then s else s[..MAX_LAST_ERROR_LEN]
  }

  /** The outcomes routed through the retry path of `apply_handler_result_state`. */
  predicate Retryable(o: Outcome) {
    o.HandlerRetry? || o.HandlerTimedOut? || (o.HandlerPanicked? && o.policy == PanicRetry)
  }

  function Reason(o: Outcome): string {
    match o
    case HandlerOk => ""
    case HandlerRetry(reason) => Trim(reason)
    case HandlerAbort(reason) => Trim(reason)
    case HandlerTimedOut => "handler_timeout"
    case HandlerPanicked(message, _) => Trim("panic: " + message)
    case Undecodable(reason) => Trim(reason)
  }

  /** The worker's verdict, computed from its own copy of the claim. */
  function Decide(lease: Lease, o: Outcome, delay: nat): Action {
    if o.HandlerOk? then ToDone
    else if Retryable(o) && lease.attempts < lease.maxAttempts then ToRetry(Reason(o), delay)
    else ToDead(Reason(o))
  }

  /** The i32 clamp in front of binding `max_attempts`. */
  function Stamp(maxAttempts: nat): int { Min(maxAttempts, I32_MAX) }

  /** Rows the locking CTE admits: still claimable, not locked by anyone else. */
  function Lockable(w: World, candidates: set<Id>, locked: set<Id>): set<Id> {
    set i | i in candidates && i in w.rows && Claimable(w.rows[i], w.now) && i !in locked
  }

  function ClaimChoice(w: World, s: Step): set<Id>
    requires s.Claim?
  {
    First(w.rows, Lockable(w, s.candidates, s.locked), Min(s.want, I32_MAX))
  }

  predicate Injective(m: map<Id, Token>) {
    forall i, j :: i in m && j in m && m[i] == m[j] ==> i == j
  }

  /** What the environment owes a step: unused ids and tokens, a `public_id` no stored row has, a built
      worker's `max_attempts`, and choices that answer the statement's ORDER BY … LIMIT. */
  predicate Enabled(w: World, s: Step) {
    match s
    case Advance(_) => true
    case Push(id, publicId, queue, key, payload, runAt) =>
      && id !in w.history
      && (forall i :: i in w.rows ==> w.rows[i].publicId != publicId)
      && Checks(NewRow(publicId, queue, key, payload, runAt, w.now))
    case Claim(_, _, _, maxAttempts, _, tokens) =>
      && 1 <= maxAttempts <= U32_MAX
      && ClaimChoice(w, s) <= tokens.Keys
      && Injective(tokens)
      && tokens.Values !! w.issued.Keys
    case Finish(token, _, _) => token in w.issued
    case Reap(queue, limit, locked, chosen) =>
      IsLimitedBy(w.rows, StaleIds(w.rows, queue, w.now) - locked, LeaseDeadline, limit, chosen)
    case Purge(status, age, limit, locked, chosen) =>
      && (status == Done || status == Dead)
      && IsLimitedBy(w.rows, PurgeableIds(w.rows, status, age, w.now) - locked, FinishTime, limit, chosen)
  }

  function AfterClaim(w: World, s: Step): World
    requires s.Claim? && Enabled(w, s)
  {
    var chosen := ClaimChoice(w, s);
    var stamp := Stamp(s.maxAttempts);
    var byToken := map i | i in chosen :: s.tokens[i];
    World(w.now,
          ClaimRows(w.rows, chosen, w.now, s.lease, stamp, s.tokens),
          map t | t in w.issued.Keys + byToken.Values ::
            if t in w.issued then w.issued[t]
            else var i :| i in chosen && s.tokens[i] == t; Lease(i, w.rows[i].attempts + 1, stamp),
          map i | i in w.history :: if i in chosen then w.history[i] + [Took(s.tokens[i], stamp)] else w.history[i])
  }

  function AfterFinish(w: World, s: Step): World
    requires s.Finish? && Enabled(w, s)
  {
    var lease := w.issued[s.token];
    var action := Decide(lease, s.outcome, s.delay);
    if HoldsLease(w.rows, lease.id, s.token) then
      w.(rows := MarkRows(w.rows, w.now, lease.id, s.token, action),
         history := map i | i in w.history ::
           if i == lease.id then w.history[i] + [Left(s.token, ByOutcome(s.outcome))] else w.history[i])
    else w
  }

  function AfterReap(w: World, s: Step): World
    requires s.Reap? && Enabled(w, s)
  {
    w.(rows := ReapRows(w.rows, s.chosen, w.now),
       history := map i | i in w.history ::
         if i in s.chosen && w.rows[i].leaseToken.Some?
         then w.history[i] + [Left(w.rows[i].leaseToken.value, ByLeaseExpiry)] else w.history[i])
  }

  /** One step. A step the environment may not take leaves the world as it is. */
  function Apply(w: World, s: Step): World {
    if !Enabled(w, s) then w
    else
      match s
      case Advance(elapsed) => w.(now := w.now + elapsed)
      case Push(id, publicId, queue, key, payload, runAt) =>
        w.(rows := w.rows[id := NewRow(publicId, queue, key, payload, runAt, w.now)],
           history := w.history[id := []])
      case Claim(_, _, _, _, _, _) => AfterClaim(w, s)
      case Finish(_, _, _) => AfterFinish(w, s)
      case Reap(_, _, _, _) => AfterReap(w, s)
      case Purge(_, _, _, _, chosen) => w.(rows := w.rows - chosen)
  }

  /** A run: any steps in any order, by any number of processes. */
  function Run(w: World, steps: seq<Step>): World
    decreases |steps|
  {
    if steps == [] then w else Run(Apply(w, steps[0]), steps[1..])
  }

  /** The empty table at some clock reading. */
  function Start(now: Time): World { World(now, map[], map[], map[]) }
}
