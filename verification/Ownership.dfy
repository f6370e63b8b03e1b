/** What a worker can rely on about a job between its claim and its mark, whatever other processes do. */
module Ownership {
  import opened Jobs
  import opened Protocol
  import opened Invariants
  import opened Guarantees
  import opened Database

  /** The job is the claim its token was issued for, and until its deadline the row is running under it. */
  ghost predicate Owned(w: World, job: Job) {
    && Handed(w, job)
    && (w.now <= job.leaseExpiresAt ==>
          && HoldsLease(w.rows, job.id, job.leaseToken)
          && w.rows[job.id].leaseExpiresAt.Some? && w.rows[job.id].leaseExpiresAt.value == job.leaseExpiresAt)
  }

  ghost predicate AllOwned(w: World, jobs: seq<Job>) {
    forall a :: 0 <= a < |jobs| ==> Owned(w, jobs[a])
  }

  function TokensOf(jobs: seq<Job>): set<Token> { set j | j in jobs :: j.leaseToken }

  ghost predicate TokensDiffer(jobs: seq<Job>) {
    forall a, b :: 0 <= a < b < |jobs| ==> jobs[a].leaseToken != jobs[b].leaseToken
  }

  /** Nobody without the token can take an owned job away before its deadline. */
  lemma OwnedThroughRun(w: World, steps: seq<Step>, job: Job)
    requires Inv(w) && Owned(w, job) && Spares(steps, {job.leaseToken})
    ensures Owned(Run(w, steps), job)
  {
    RunFollows(w, steps);
    if Run(w, steps).now <= job.leaseExpiresAt { LeaseIsExclusive(w, steps, job.id, job.leaseToken); }
  }

  /** Two jobs within their leases are of different rows. */
  lemma OwnersDiffer(w: World, a: Job, b: Job)
    requires Owned(w, a) && Owned(w, b) && a.leaseToken != b.leaseToken
    requires w.now <= a.leaseExpiresAt && w.now <= b.leaseExpiresAt
    ensures a.id != b.id
  {
  }

  /** A claim hands out owned jobs under fresh tokens, all different. */
  lemma ClaimHandsOut(w: World, s: Step, out: seq<Job>)
    requires Inv(w) && s.Claim? && Enabled(w, s) && s.tokens.Keys == ClaimChoice(w, s)
    requires Returns(out, s.tokens.Keys, Apply(w, s).rows)
    ensures AllOwned(Apply(w, s), out) && TokensDiffer(out) && TokensOf(out) !! w.issued.Keys
  {
    var v := Apply(w, s);
    StepKeeps(w, s);
    forall a | 0 <= a < |out| ensures Owned(v, out[a]) && out[a].leaseToken == s.tokens[out[a].id] {
      assert v.rows[out[a].id]
             == Claimed(w.rows[out[a].id], w.now, s.lease, Stamp(s.maxAttempts), s.tokens[out[a].id]);
      assert LeaseMatches(v, out[a].id);
    }
    forall t | t in TokensOf(out) ensures t in s.tokens.Values { }
  }

  /** What was issued stays issued. */
  lemma IssuedStays(w: World, steps: seq<Step>)
    requires Reached(w)
    ensures Inv(Run(w, steps)) && w.issued.Keys <= Run(w, steps).issued.Keys
  {
    ReachedKeeps(w);
    RunKeeps(w, steps);
    RunFollows(w, steps);
  }
}
