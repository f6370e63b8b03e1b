/** The job table as shared mutable state, and the library's statements on it. */
module Database {
  import opened Jobs
  import opened Ranking
  import opened Protocol
  import opened Invariants
  import opened Guarantees
  import opened Effects
  import opened KeyedClaim

  /** What a claim returns for one row. */
  datatype Job = Job(
    id: Id, publicId: nat, queue: string, key: Option<Key>, payload: seq<Byte>,
    attempts: int, maxAttempts: int, firstAttemptedAt: Time, leaseToken: Token, leaseExpiresAt: Time)

  /** The columns the claim decodes into non-optional fields. */
  predicate Leased(r: Row) {
    r.firstAttemptedAt.Some? && r.leaseToken.Some? && r.leaseExpiresAt.Some?
  }

  /** The RETURNING list of both claim queries. */
  function JobOf(id: Id, r: Row): Job
    requires Leased(r)
  {
    Job(id, r.publicId, r.queue, r.key, r.payload, r.attempts, r.maxAttempts,
        r.firstAttemptedAt.value, r.leaseToken.value, r.leaseExpiresAt.value)
  }

  /** Jobs of one key in a batch. */
  ghost function KeyCount(jobs: seq<Job>, k: Key): nat
    decreases |jobs|
  {
    if jobs == [] then 0 else (if jobs[0].key == Some(k) then 1 else 0) + KeyCount(jobs[1..], k)
  }

  lemma {:induction false} KeyCountAppend(jobs: seq<Job>, j: Job, k: Key)
    ensures KeyCount(jobs + [j], k) == KeyCount(jobs, k) + if j.key == Some(k) then 1 else 0
    decreases |jobs|
  {
    if jobs == [] {
      assert jobs + [j] == [j];
    } else {
      assert (jobs + [j])[1..] == jobs[1..] + [j];
      KeyCountAppend(jobs[1..], j, k);
    }
  }

  /** No job changes its queue or key between two tables. */
  ghost predicate KeepsKeys(a: Table, b: Table) {
    forall i :: i in a && i in b ==> a[i].key == b[i].key && a[i].queue == b[i].queue
  }

  /** Whatever the other processes do in between, keys and queues stay put. */
  lemma RunKeepsKeys(w: World, steps: seq<Step>)
    requires Inv(w)
    ensures KeepsKeys(w.rows, Run(w, steps).rows)
  {
    RunFollows(w, steps);
    forall i | i in w.rows && i in Run(w, steps).rows
      ensures w.rows[i].key == Run(w, steps).rows[i].key && w.rows[i].queue == Run(w, steps).rows[i].queue
    {
      assert SameJob(w.rows[i], Run(w, steps).rows[i]);
    }
  }

  // ---------------------------------------------------- ORDER BY column LIMIT n

  lemma {:induction false} Minimal(rows: Table, s: set<Id>, column: Row -> Time) returns (m: Id)
    requires s <= rows.Keys && s != {}
    ensures m in s && forall j :: j in s ==> column(rows[m]) <= column(rows[j])
    decreases |s|
  {
    m := Member(s);
    var rest := s - {m};
    if rest == {} {
      assert s == {m};
    } else {
      var first := m;
      var n := Minimal(rows, rest, column);
      if column(rows[n]) < column(rows[m]) { m := n; }
      assert forall j :: j in s ==> j == first || j in rest;
    }
  }

  /** Rows of `pool` in `column` order, up to `limit`; ties break arbitrarily. */
  method SelectLimited(rows: Table, pool: set<Id>, column: Row -> Time, limit: nat) returns (chosen: set<Id>)
    requires pool <= rows.Keys
    ensures IsLimitedBy(rows, pool, column, limit, chosen)
  {
    chosen := {};
    var rest := pool;
    while |chosen| < limit && rest != {}
      invariant rest == pool - chosen && chosen <= pool
      invariant |chosen| <= limit
      invariant forall i, j :: i in chosen && j in rest ==> column(rows[i]) <= column(rows[j])
      decreases |rest|
    {
      ghost var least := Minimal(rows, rest, column);
      assert least in rest;
      var m :| m in rest && forall j :: j in rest ==> column(rows[m]) <= column(rows[j]);
      chosen, rest := chosen + {m}, rest - {m};
    }
    SubsetSize(chosen, pool);
    assert rest == {} ==> chosen == pool;
  }

  // ------------------------------------------------------------ UPDATE … RETURNING

  /** `out` is what RETURNING yields for the updated ids: each once, in no particular order. */
  ghost predicate Returns(out: seq<Job>, chosen: set<Id>, rows: Table) {
    && chosen <= rows.Keys
    && (forall i :: i in chosen ==> Leased(rows[i]))
    && |out| == |chosen|
    && (forall a :: 0 <= a < |out| ==> out[a].id in chosen && out[a] == JobOf(out[a].id, rows[out[a].id]))
    && (forall a, b :: 0 <= a < b < |out| ==> out[a].id != out[b].id)
  }

  /** Pairwise different tokens drawn from `[lo, hi)`. */
  ghost predicate FreshTokens(tokens: map<Id, Token>, lo: Token, hi: Token) {
    && lo <= hi
    && Injective(tokens)
    && forall i :: i in tokens ==> lo <= tokens[i] < hi
  }

  lemma OfKeyInsert(rows: Table, s: set<Id>, i: Id, k: Key)
    requires s <= rows.Keys && i in rows && i !in s
    ensures |OfKey(rows, s + {i}, k)| == |OfKey(rows, s, k)| + if rows[i].key == Some(k) then 1 else 0
  {
    if rows[i].key == Some(k) {
      assert OfKey(rows, s + {i}, k) == OfKey(rows, s, k) + {i};
    } else {
      assert OfKey(rows, s + {i}, k) == OfKey(rows, s, k);
    }
  }

  lemma {:induction false} KeyCountOfReturned(out: seq<Job>, chosen: set<Id>, rows: Table, k: Key)
    requires Returns(out, chosen, rows)
    ensures KeyCount(out, k) == |OfKey(rows, chosen, k)|
    decreases |out|
  {
    if out == [] {
      assert OfKey(rows, chosen, k) == {};
    } else {
      var i := out[0].id;
      var tail, others := out[1..], chosen - {i};
      forall a | 0 <= a < |tail| ensures tail[a].id in others {
        assert tail[a] == out[a + 1] && out[0].id != out[a + 1].id;
      }
      KeyCountOfReturned(tail, others, rows, k);
      OfKeyInsert(rows, others, i, k);
      assert others + {i} == chosen;
    }
  }

  lemma ClaimOneMore(before: Table, done: set<Id>, i: Id, now: Time, lease: nat, stamp: int,
                     tokens: map<Id, Token>, next: Token)
    requires done == tokens.Keys && i in before && i !in done
    ensures ClaimRows(before, done, now, lease, stamp, tokens)[i := Claimed(before[i], now, lease, stamp, next)]
            == ClaimRows(before, done + {i}, now, lease, stamp, tokens[i := next])
  {
  }

  lemma ReapOneMore(before: Table, done: set<Id>, i: Id, now: Time)
    requires i in before && i !in done
    ensures ReapRows(before, done, now)[i := Reaped(before[i], now)] == ReapRows(before, done + {i}, now)
  {
  }

  lemma DrawOneMore(tokens: map<Id, Token>, lo: Token, hi: Token, i: Id)
    requires FreshTokens(tokens, lo, hi) && i !in tokens
    ensures FreshTokens(tokens[i := hi], lo, hi + 1)
    ensures tokens[i := hi].Keys == tokens.Keys + {i}
    ensures |tokens[i := hi]| == |tokens| + 1
  {
  }

  lemma Remaining(done: set<Id>, chosen: set<Id>) returns (i: Id)
    requires done <= chosen && done != chosen
    ensures i in chosen && i !in done
    ensures |done| < |chosen|
  {
    SubsetSize(done, chosen);
    assert chosen == done + (chosen - done);
    i := Member(chosen - done);
  }

  lemma ReturnOneMore(out: seq<Job>, done: set<Id>, rows: Table, i: Id, row: Row)
    requires Returns(out, done, rows) && i in rows && i !in done && Leased(row)
    ensures Returns(out + [JobOf(i, row)], done + {i}, rows[i := row])
  {
  }

  /** The SET list of a claim applied row by row, each row drawing the next token. */
  method UpdateClaimed(before: Table, chosen: set<Id>, now: Time, lease: nat, stamp: int, first: Token)
    returns (rows: Table, out: seq<Job>, tokens: map<Id, Token>, next: Token)
    requires chosen <= before.Keys
    ensures tokens.Keys == chosen && FreshTokens(tokens, first, next)
    ensures rows == ClaimRows(before, chosen, now, lease, stamp, tokens)
    ensures Returns(out, chosen, rows)
  {
    rows, out, tokens, next := before, [], map[], first;
    while tokens.Keys != chosen
      invariant tokens.Keys <= chosen
      invariant FreshTokens(tokens, first, next)
      invariant rows == ClaimRows(before, tokens.Keys, now, lease, stamp, tokens)
      invariant Returns(out, tokens.Keys, rows)
      decreases |chosen| - |tokens|
    {
      ghost var some := Remaining(tokens.Keys, chosen);
      assert some in chosen && some !in tokens;
      var i :| i in chosen && i !in tokens;
      assert rows[i] == before[i];
      var row := Claimed(rows[i], now, lease, stamp, next);
      ClaimOneMore(before, tokens.Keys, i, now, lease, stamp, tokens, next);
      ReturnOneMore(out, tokens.Keys, rows, i, row);
      DrawOneMore(tokens, first, next, i);
      rows, tokens, out, next := rows[i := row], tokens[i := next], out + [JobOf(i, row)], next + 1;
    }
  }

  /** The reaper's SET list applied row by row. */
  method UpdateReaped(before: Table, chosen: set<Id>, now: Time) returns (rows: Table, out: seq<(Id, Status)>)
    requires chosen <= before.Keys
    ensures rows == ReapRows(before, chosen, now)
    ensures |out| == |chosen|
    ensures forall a :: 0 <= a < |out| ==> out[a].0 in chosen && out[a].1 == rows[out[a].0].status
    ensures forall a, b :: 0 <= a < b < |out| ==> out[a].0 != out[b].0
  {
    rows, out := before, [];
    var done: set<Id> := {};
    while done != chosen
      invariant done <= chosen && |out| == |done|
      invariant rows == ReapRows(before, done, now)
      invariant forall a :: 0 <= a < |out| ==> out[a].0 in done && out[a].1 == Reaped(before[out[a].0], now).status
      invariant forall a, b :: 0 <= a < b < |out| ==> out[a].0 != out[b].0
      decreases |chosen| - |done|
    {
      ghost var some := Remaining(done, chosen);
      assert some in chosen && some !in done;
      var i :| i in chosen && i !in done;
      assert rows[i] == before[i];
      var row := Reaped(rows[i], now);
      ReapOneMore(before, done, i, now);
      rows, out := rows[i := row], out + [(i, row.status)];
      done := done + {i};
    }
  }

  // -------------------------------------------------------- what a worker holds

  /** The job is what the claim behind its token returned. */
  ghost predicate Handed(w: World, job: Job) {
    job.leaseToken in w.issued && w.issued[job.leaseToken] == Lease(job.id, job.attempts, job.maxAttempts)
  }

  /** No step is a mark with one of these tokens. */
  predicate Spares(steps: seq<Step>, tokens: set<Token>) {
    forall k :: 0 <= k < |steps| ==> !(steps[k].Finish? && steps[k].token in tokens)
  }

  lemma SparesBoth(a: seq<Step>, b: seq<Step>, tokens: set<Token>)
    requires Spares(a, tokens) && Spares(b, tokens)
    ensures Spares(a + b, tokens)
  {
  }

  /** The candidates that can still be claimed. */
  function StillClaimable(rows: Table, now: Time, candidates: set<Id>): set<Id> {
    set i | i in candidates && i in rows && Claimable(rows[i], now)
  }

  /** `first` has not been issued, nor anything above it. */
  predicate Above(first: int, issued: map<Token, Lease>) {
    forall t :: t in issued ==> t < first
  }

  lemma {:induction false} SomeAbove(issued: map<Token, Lease>) returns (first: Token)
    ensures Above(first, issued)
    decreases |issued|
  {
    if issued.Keys == {} {
      first := 0;
    } else {
      var t := Member(issued.Keys);
      assert |issued - {t}| == |issued| - 1 by { assert (issued - {t}).Keys == issued.Keys - {t}; }
      var rest := SomeAbove(issued - {t});
      first := Max(rest, t + 1);
      assert forall u :: u in issued ==> u == t || u in issued - {t};
    }
  }

  lemma FreshEnables(w: World, s: Step, first: Token, next: Token)
    requires s.Claim? && 1 <= s.maxAttempts <= U32_MAX && s.tokens.Keys == ClaimChoice(w, s)
    requires FreshTokens(s.tokens, first, next) && Above(first, w.issued)
    ensures Enabled(w, s)
  {
  }

  /** Rows claimed out of candidates selected before others acted stay within every key's headroom. */
  lemma ClaimWithinHeadroom(w: World, others: seq<Step>, claim: Step, queue: string, headroom: Headroom, out: seq<Job>,
                            k: Key)
    requires Reached(w) && k in headroom && claim.Claim? && Enabled(Run(w, others), claim)
    requires claim.tokens.Keys == ClaimChoice(Run(w, others), claim)
    requires claim.candidates == Candidates(w.rows, queue, w.now, Min(claim.want, I32_MAX), headroom)
    requires Returns(out, claim.tokens.Keys, Apply(Run(w, others), claim).rows)
    ensures KeyCount(out, k) <= Max(headroom[k], 0)
  {
    var v, chosen := Apply(Run(w, others), claim), claim.tokens.Keys;
    KeyCountOfReturned(out, chosen, v.rows, k);
    ReachedKeeps(w);
    RunThenStep(w, others, claim);
    RunKeepsKeys(w, others + [claim]);
    CandidatesWithinHeadroom(w.rows, queue, w.now, Min(claim.want, I32_MAX), headroom, k);
    SubsetSize(OfKey(v.rows, chosen, k), OfKey(w.rows, claim.candidates, k));
  }

  /** Rows are taken in `(run_at, id)` order: one that could have been taken and was not comes later than all taken. */
  ghost predicate InOrder(w: World, claim: Step)
    requires claim.Claim? && claim.tokens.Keys <= w.rows.Keys
  {
    forall i, j :: i in claim.tokens && j in claim.candidates && j !in claim.tokens && Offered(w, claim, j) ==>
      w.rows[i].runAt < w.rows[j].runAt || (w.rows[i].runAt == w.rows[j].runAt && i < j)
  }

  lemma TakesInOrder(w: World, claim: Step)
    requires claim.Claim? && claim.tokens.Keys == ClaimChoice(w, claim)
    ensures InOrder(w, claim)
  {
    forall i, j | i in claim.tokens && j in claim.candidates && j !in claim.tokens && Offered(w, claim, j)
      ensures w.rows[i].runAt < w.rows[j].runAt || (w.rows[i].runAt == w.rows[j].runAt && i < j)
    {
      ClaimsInOrder(w, claim, i, j);
    }
  }

  /** `claim` is the claim a worker of `queue` makes in `w`, after what others do between selection and locking. */
  ghost predicate ClaimsFor(w: World, others: seq<Step>, claim: Step, queue: string, batch: nat, lease: nat,
                            maxAttempts: nat, headroom: Headroom, locked: set<Id>)
  {
    var mid := Run(w, others);
    var candidates := if headroom == map[] then Eligible(mid.rows, queue, mid.now)
                      else Candidates(w.rows, queue, w.now, Min(batch, I32_MAX), headroom);
    && (headroom == map[] ==> others == [])
    && claim.Claim? && claim == Claim(candidates, batch, lease, maxAttempts, locked, claim.tokens)
    && Enabled(mid, claim) && claim.tokens.Keys == ClaimChoice(mid, claim)
  }

  /** Without per-key limits it takes a row iff it is a due unlocked row of the queue and fewer than the batch of such
      rows come sooner. */
  lemma PlainClaimsExactly(w: World, claim: Step, queue: string, batch: nat, lease: nat, maxAttempts: nat,
                           locked: set<Id>, j: Id)
    requires ClaimsFor(w, [], claim, queue, batch, lease, maxAttempts, map[], locked)
    ensures j in claim.tokens <==>
            && j in w.rows && w.rows[j].queue == queue && Due(w.rows[j], w.now) && j !in locked
            && var sooner := set i | i in w.rows && w.rows[i].queue == queue && Due(w.rows[i], w.now) && i !in locked
                                     && Sooner(w.rows, i, j);
               |sooner| < batch && |sooner| < 0x7FFF_FFFF
  {
    ClaimsExactly(w, claim, j);
    if j in w.rows {
      assert InFront(w, claim, j) == set i | i in w.rows && w.rows[i].queue == queue && Due(w.rows[i], w.now)
                                             && i !in locked && Sooner(w.rows, i, j);
    }
  }

  /** A job carries the columns of its row as the claim left it. */
  ghost predicate Carries(job: Job, rows: Table) {
    && job.id in rows
    && var r := rows[job.id];
       && job.publicId == r.publicId && job.queue == r.queue && job.key == r.key && job.payload == r.payload
       && job.attempts == r.attempts && job.maxAttempts == r.maxAttempts
       && r.firstAttemptedAt == Some(job.firstAttemptedAt) && r.leaseToken == Some(job.leaseToken)
       && r.leaseExpiresAt == Some(job.leaseExpiresAt)
  }

  /** It takes rows of that queue only, due when they are locked. */
  lemma ClaimIsOfQueue(w: World, others: seq<Step>, claim: Step, queue: string, batch: nat, lease: nat,
                       maxAttempts: nat, headroom: Headroom, locked: set<Id>, id: Id)
    requires Reached(w) && ClaimsFor(w, others, claim, queue, batch, lease, maxAttempts, headroom, locked)
    requires id in claim.tokens
    ensures var mid := Run(w, others);
            && mid.rows[id].queue == queue && Due(mid.rows[id], mid.now)
            && Apply(mid, claim).rows[id].queue == queue
  {
    ReachedKeeps(w);
    RunKeepsKeys(w, others);
  }

  class Db {
    /** The table and the clock, and the protocol's books on tokens and histories, which no statement reads. */
    var world: World

    /** The database is where some run of the protocol leads. */
    ghost predicate Valid()
      reads this
    {
      Reached(world)
    }

    constructor (now: Time)
      ensures Valid() && world == Start(now)
    {
      world := Start(now);
      new;
      assert world == Run(Start(now), []);
    }

    /** Everyone else: any steps by other processes, none of which knows a token in `spared`. */
    method Others(spared: set<Token>) returns (ghost steps: seq<Step>)
      requires Valid()
      modifies this
      ensures Valid() && world == Run(old(world), steps) && Spares(steps, spared)
    {
      assert Spares([], spared);
      var taken: seq<Step> :| Spares(taken, spared);
      ReachedOn(world, taken);
      world, steps := Run(world, taken), taken;
    }

    /** `mark_done`, `mark_retry`, `mark_dead` as the worker decides from its copy of the claim: fenced UPDATE of one
        row, returning rows_affected. */
    method Mark(job: Job, o: Outcome, delay: nat) returns (affected: nat)
      requires Valid() && Handed(world, job)
      modifies this
      ensures Valid() && world == Apply(old(world), Finish(job.leaseToken, o, delay))
      ensures affected == if HoldsLease(old(world).rows, job.id, job.leaseToken) then 1 else 0
      ensures affected == 0 <==> world.rows == old(world).rows
    {
      var action := Decide(Lease(job.id, job.attempts, job.maxAttempts), o, delay);
      var rows := world.rows;
      affected := 0;
      if job.id in rows && rows[job.id].status == Running && rows[job.id].leaseToken == Some(job.leaseToken) {
        var updated := Marked(rows[job.id], world.now, action);
        assert updated.status != Running;
        rows := rows[job.id := updated];
        affected := 1;
      }
      ReachedNext(world, Finish(job.leaseToken, o, delay));
      world := Apply(world, Finish(job.leaseToken, o, delay)).(rows := rows);
    }

    /** The locking CTE and the UPDATE of both claim queries: the first `batch` candidates that are still
        claimable and not locked. */
    method ClaimFrom(candidates: set<Id>, batch: nat, lease: nat, maxAttempts: nat, locked: set<Id>)
      returns (out: seq<Job>, ghost claim: Step)
      requires Valid() && 1 <= maxAttempts <= U32_MAX
      modifies this
      ensures claim.Claim? && claim == Claim(candidates, batch, lease, maxAttempts, locked, claim.tokens)
      ensures Enabled(old(world), claim) && claim.tokens.Keys == ClaimChoice(old(world), claim)
      ensures Valid() && world == Apply(old(world), claim)
      ensures Returns(out, claim.tokens.Keys, world.rows) && InOrder(old(world), claim)
    {
      ghost var w := world;
      var chosen := First(world.rows, StillClaimable(world.rows, world.now, candidates) - locked, Min(batch, I32_MAX));
      ghost var above := SomeAbove(world.issued);
      var first: int :| 0 <= first && Above(first, world.issued);
      var rows, tokens, next;
      rows, out, tokens, next :=
        UpdateClaimed(world.rows, chosen, world.now, lease, Min(maxAttempts, I32_MAX), first);
      var s := Claim(candidates, batch, lease, maxAttempts, locked, tokens);
      assert Lockable(w, candidates, locked) == StillClaimable(w.rows, w.now, candidates) - locked;
      FreshEnables(w, s, first, next);
      ReachedNext(w, s);
      TakesInOrder(w, s);
      world, claim := Apply(world, s).(rows := rows), s;
    }

    /** `claim_batch_raw`: SQL_PLAIN when the headroom map is empty, SQL_KEYED otherwise. The keyed
        query picks its candidates first; other statements may land before it locks them. */
    method ClaimBatch(queue: string, batch: nat, lease: nat, maxAttempts: nat, headroom: Headroom, locked: set<Id>,
                      spared: set<Token>)
      returns (out: seq<Job>, ghost others: seq<Step>, ghost claim: Step)
      requires Valid() && 1 <= maxAttempts <= U32_MAX
      modifies this
      ensures Spares(others, spared)
      ensures ClaimsFor(old(world), others, claim, queue, batch, lease, maxAttempts, headroom, locked)
      ensures Valid() && world == Apply(Run(old(world), others), claim) && InOrder(Run(old(world), others), claim)
      ensures Returns(out, claim.tokens.Keys, world.rows) && |out| <= batch
      ensures forall a :: 0 <= a < |out| ==> out[a].queue == queue && Carries(out[a], world.rows)
      ensures forall k :: k in headroom ==> KeyCount(out, k) <= Max(headroom[k], 0)
    {
      ghost var before := world;
      var candidates;
      others := [];
      if headroom == map[] {
        candidates := Eligible(world.rows, queue, world.now);
      } else {
        candidates := Candidates(world.rows, queue, world.now, Min(batch, I32_MAX), headroom);
        others := Others(spared);
      }
      out, claim := ClaimFrom(candidates, batch, lease, maxAttempts, locked);
      FirstSize(Run(before, others).rows, Lockable(Run(before, others), candidates, locked), Min(batch, I32_MAX));
      forall k | k in headroom ensures KeyCount(out, k) <= Max(headroom[k], 0) {
        ClaimWithinHeadroom(before, others, claim, queue, headroom, out, k);
      }
      forall a | 0 <= a < |out| ensures out[a].queue == queue && Carries(out[a], world.rows) {
        ClaimIsOfQueue(before, others, claim, queue, batch, lease, maxAttempts, headroom, locked, out[a].id);
      }
    }

    /** `reap`: flips the stalest unlocked expired rows, returning ids and their new status. */
    method Reap(queue: string, limit: nat, locked: set<Id>) returns (out: seq<(Id, Status)>, ghost chosen: set<Id>)
      requires Valid()
      modifies this
      ensures Enabled(old(world), Step.Reap(queue, limit, locked, chosen))
      ensures Valid() && world == Apply(old(world), Step.Reap(queue, limit, locked, chosen))
      ensures |out| == |chosen|
      ensures forall a :: 0 <= a < |out| ==> out[a].0 in chosen && out[a].1 == world.rows[out[a].0].status
      ensures forall a, b :: 0 <= a < b < |out| ==> out[a].0 != out[b].0
    {
      var picked := SelectLimited(world.rows, StaleIds(world.rows, queue, world.now) - locked, LeaseDeadline, limit);
      var rows;
      rows, out := UpdateReaped(world.rows, picked, world.now);
      ReachedNext(world, Step.Reap(queue, limit, locked, picked));
      world, chosen := Apply(world, Step.Reap(queue, limit, locked, picked)).(rows := rows), picked;
    }

    /** One DELETE of the purge loop, returning rows_affected. */
    method PurgeChunk(status: Status, age: nat, limit: nat, locked: set<Id>)
      returns (affected: nat, ghost chosen: set<Id>)
      requires Valid() && (status == Done || status == Dead)
      modifies this
      ensures Enabled(old(world), Purge(status, age, limit, locked, chosen))
      ensures Valid() && world == Apply(old(world), Purge(status, age, limit, locked, chosen))
      ensures affected == |chosen|
    {
      var pool := PurgeableIds(world.rows, status, age, world.now) - locked;
      var victims := SelectLimited(world.rows, pool, FinishTime, limit);
      var rows := world.rows - victims;
      ReachedNext(world, Purge(status, age, limit, locked, victims));
      world, chosen := Apply(world, Purge(status, age, limit, locked, victims)).(rows := rows), victims;
      affected := |victims|;
    }
  }
}
