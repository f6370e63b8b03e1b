/** The `pgwq.jobs` table: its rows, the schema's CHECK constraints, and the
    row-level effect of each UPDATE the library issues. */
module Jobs {

  datatype Option<+T> = None | Some(value: T)

  /** BIGINT identity column; `IDENTITY` never hands out the same id twice. */
  type Id = int

  /** A lease token drawn by `gen_random_uuid()`. */
  type Token = nat

  /** Nanoseconds on the database clock. */
  type Time = int

  type Key = string

  newtype Byte = b: int | 0 <= b < 256

  const I32_MAX: int := 0x7FFF_FFFF
  const MAX_QUEUE_LEN := 64
  const MAX_KEY_LEN := 128
  const MAX_PAYLOAD_BYTES := 1_048_576
  const MAX_LAST_ERROR_LEN := 8192

  datatype Status = Queued | Running | AwaitingRetry | Done | Dead

  datatype Row = Row(
    publicId: nat,
    queue: string,
    key: Option<Key>,
    payload: seq<Byte>,
    status: Status,
    attempts: int,
    maxAttempts: int,
    leaseToken: Option<Token>,
    leaseExpiresAt: Option<Time>,
    lastError: Option<string>,
    lastAttemptedAt: Option<Time>,
    firstAttemptedAt: Option<Time>,
    finishedAt: Option<Time>,
    runAt: Time,
    createdAt: Time,
    updatedAt: Time)

  type Table = map<Id, Row>

  function Min(a: int, b: int): int { if a <= b then a else b }

  function Max(a: int, b: int): int { if a <= b then b else a }

  /** SQL `COALESCE` on a nullable timestamp. */
  function Coalesce(a: Option<Time>, b: Time): Time {
    if a.Some? then a.value else b
  }

  // ---------------------------------------------------------------- CHECKs

  /** CHECK `jobs_status_invariants`. */
  predicate StatusInvariants(r: Row) {
    match r.status
    case Queued =>
      && r.attempts == 0
      && r.lastAttemptedAt.None? && r.firstAttemptedAt.None? && r.finishedAt.None?
      && r.leaseToken.None? && r.leaseExpiresAt.None?
    case Running =>
      && r.attempts > 0
      && r.lastAttemptedAt.Some? && r.firstAttemptedAt.Some? && r.finishedAt.None?
      && r.leaseToken.Some? && r.leaseExpiresAt.Some?
    case AwaitingRetry =>
      && r.attempts > 0
      && r.lastAttemptedAt.Some? && r.firstAttemptedAt.Some? && r.finishedAt.None?
      && r.leaseToken.None? && r.leaseExpiresAt.None?
    case _ =>
      r.finishedAt.Some? && r.leaseToken.None? && r.leaseExpiresAt.None?
  }

  /** CHECK `jobs_temporal`. */
  predicate Temporal(r: Row) {
    && (r.firstAttemptedAt.Some? ==> r.firstAttemptedAt.value >= r.createdAt)
    && (r.lastAttemptedAt.Some? ==>
          r.lastAttemptedAt.value >= Coalesce(r.firstAttemptedAt, r.createdAt))
    && (r.finishedAt.Some? ==> r.finishedAt.value >= Coalesce(r.lastAttemptedAt, r.createdAt))
    && r.updatedAt >= r.createdAt
    && r.runAt >= r.createdAt
  }

  /** The length and sign CHECKs, and the INTEGER width of the two counters. */
  predicate Bounds(r: Row) {
    && 0 < |r.queue| <= MAX_QUEUE_LEN
    && |r.payload| <= MAX_PAYLOAD_BYTES
    && (r.lastError.Some? ==> |r.lastError.value| <= MAX_LAST_ERROR_LEN)
    && (r.key.Some? ==> 1 <= |r.key.value| <= MAX_KEY_LEN)
    && 0 <= r.attempts <= I32_MAX
    && 0 <= r.maxAttempts <= I32_MAX
  }

  /** Everything the schema enforces on a stored row by itself; UNIQUE `public_id` is enforced across rows. */
  predicate Checks(r: Row) {
    StatusInvariants(r) && Temporal(r) && Bounds(r)
  }

  // ------------------------------------------------------------ statements

  /** The row `INSERT` produces; `runAt` is `None` when the column defaults to `now()`. */
  function NewRow(publicId: nat, queue: string, key: Option<Key>, payload: seq<Byte>,
                  runAt: Option<Time>, now: Time): Row
  {
    Row(publicId, queue, key, payload, Queued, 0, 0, None, None, None, None, None, None,
        Coalesce(runAt, now), now, now)
  }

  /** WHERE clause shared by every claim query (the queue filter comes on top). */
  predicate Claimable(r: Row, now: Time) {
    (r.status == Queued || r.status == AwaitingRetry) && r.runAt <= now
  }

  /** SET list of both claim queries, with the `touch_jobs` trigger applied. */
  function Claimed(r: Row, now: Time, lease: nat, stamp: int, token: Token): Row {
    r.(status := Running,
       attempts := r.attempts + 1,
       maxAttempts := stamp,
       lastAttemptedAt := Some(now),
       firstAttemptedAt := Some(Coalesce(r.firstAttemptedAt, now)),
       leaseToken := Some(token),
       leaseExpiresAt := Some(now + lease),
       lastError := None,
       updatedAt := now)
  }

  /** Which `mark_*` statement a worker sends. */
  datatype Action = ToDone | ToRetry(reason: string, delay: nat) | ToDead(reason: string)

  /** SET list of `mark_done`, `mark_retry` and `mark_dead`. */
  function Marked(r: Row, now: Time, action: Action): Row {
    match action
    case ToDone =>
      r.(status := Done, finishedAt := Some(now), lastError := None,
         leaseToken := None, leaseExpiresAt := None, updatedAt := now)
    case ToRetry(reason, delay) =>
      r.(status := AwaitingRetry, lastError := Some(reason), runAt := now + delay,
         leaseToken := None, leaseExpiresAt := None, updatedAt := now)
    case ToDead(reason) =>
      r.(status := Dead, finishedAt := Some(now), lastError := Some(reason),
         leaseToken := None, leaseExpiresAt := None, updatedAt := now)
  }

  /** The fencing guard in the WHERE clause of every `mark_*`. */
  predicate HoldsLease(rows: Table, id: Id, token: Token) {
    id in rows && rows[id].status == Running && rows[id].leaseToken == Some(token)
  }

  /** A `mark_*` statement on the whole table. */
  function MarkRows(rows: Table, now: Time, id: Id, token: Token, action: Action): Table {
    if HoldsLease(rows, id, token) then rows[id := Marked(rows[id], now, action)] else rows
  }

  /** The `stale` CTE's WHERE clause. */
  predicate Stale(r: Row, queue: string, now: Time) {
    r.queue == queue && r.status == Running && r.leaseExpiresAt.Some? && r.leaseExpiresAt.value < now
  }

  /** SET list of the reaper: one CASE per column, all on `attempts >= max_attempts`. */
  function Reaped(r: Row, now: Time): Row {
    var exhausted := r.attempts >= r.maxAttempts;
    r.(status := if exhausted then Dead else AwaitingRetry,
       finishedAt := if exhausted then Some(now) else None,
       lastError := Some(if exhausted then "lease_expired_max_attempts" else "lease_expired"),
       leaseToken := None, leaseExpiresAt := None, updatedAt := now)
  }

  /** The UPDATE of a claim over the ids its CTE selected. */
  function ClaimRows(rows: Table, chosen: set<Id>, now: Time, lease: nat, stamp: int,
                     tokens: map<Id, Token>): (out: Table)
    requires chosen <= tokens.Keys
  {
    map i | i in rows :: if i in chosen then Claimed(rows[i], now, lease, stamp, tokens[i]) else rows[i]
  }

  /** The UPDATE of the reaper over the ids its CTE selected. */
  function ReapRows(rows: Table, chosen: set<Id>, now: Time): Table {
    map i | i in rows :: if i in chosen then Reaped(rows[i], now) else rows[i]
  }

  /** The `victims` CTE's WHERE clause. */
  predicate Purgeable(r: Row, status: Status, age: nat, now: Time) {
    r.status == status && r.finishedAt.Some? && r.finishedAt.value < now - age
  }

  // ---------------------------------------------- ORDER BY … LIMIT … SKIP LOCKED

  function StaleIds(rows: Table, queue: string, now: Time): set<Id> {
    set i | i in rows && Stale(rows[i], queue, now)
  }

  function PurgeableIds(rows: Table, status: Status, age: nat, now: Time): set<Id> {
    set i | i in rows && Purgeable(rows[i], status, age, now)
  }

  /** `chosen` is a legal answer to `ORDER BY column LIMIT limit` over `pool`: as many rows as the
      limit allows, none of them ordered after a row left behind. Ties may break either way. */
  predicate IsLimitedBy(rows: Table, pool: set<Id>, column: Row -> Time, limit: nat, chosen: set<Id>)
    requires pool <= rows.Keys
  {
    && chosen <= pool
    && |chosen| == Min(limit, |pool|)
    && forall i, j :: i in chosen && j in pool && j !in chosen ==> column(rows[i]) <= column(rows[j])
  }

  function LeaseDeadline(r: Row): Time { Coalesce(r.leaseExpiresAt, 0) }

  function FinishTime(r: Row): Time { Coalesce(r.finishedAt, 0) }
}
