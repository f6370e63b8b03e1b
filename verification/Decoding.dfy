/** `claim_and_decode`: a claimed row whose payload does not decode is marked dead and dropped. */
module Decoding {
  import opened Jobs
  import opened Protocol
  import opened Invariants
  import opened Guarantees
  import opened KeyedClaim
  import opened Database
  import opened Ownership

  /** The codec's answer for one payload; the codec itself is a parameter. */
  datatype Decoded = Value | DecodeError(message: string) | DecodePanic(message: string)

  type Codec = seq<Byte> -> Decoded

  function Failure(d: Decoded): Outcome
    requires !d.Value?
  {
    Undecodable(if d.DecodeError? then "codec decode: " + d.message else "codec panic: " + d.message)
  }

  /** `mark_dead` of an undecodable row. */
  function Bury(job: Job, codec: Codec): Action
    requires !codec(job.payload).Value?
  {
    ToDead(Reason(Failure(codec(job.payload))))
  }

  /** The rows that decode, in the order they were returned. */
  function Decodable(raws: seq<Job>, codec: Codec): seq<Job>
    decreases |raws|
  {
    if raws == [] then []
    else
      var front := Decodable(raws[..|raws| - 1], codec);
      var job := raws[|raws| - 1];
      if codec(job.payload).Value? then front + [job] else front
  }

  /** The rows that do not decode, in the order they were returned. */
  function Undecodables(raws: seq<Job>, codec: Codec): seq<Job>
    decreases |raws|
  {
    if raws == [] then []
    else
      var front := Undecodables(raws[..|raws| - 1], codec);
      var job := raws[|raws| - 1];
      if codec(job.payload).Value? then front else front + [job]
  }

  /** Dropping rows never adds jobs of any key. */
  lemma {:induction false} DecodableIsSmaller(raws: seq<Job>, codec: Codec, k: Key)
    ensures |Decodable(raws, codec)| <= |raws|
    ensures KeyCount(Decodable(raws, codec), k) <= KeyCount(raws, k)
    ensures forall j :: j in Decodable(raws, codec) <==> j in raws && codec(j.payload).Value?
    decreases |raws|
  {
    if raws != [] {
      var front, job := raws[..|raws| - 1], raws[|raws| - 1];
      assert raws == front + [job];
      DecodableIsSmaller(front, codec, k);
      KeyCountAppend(front, job, k);
      KeyCountAppend(Decodable(front, codec), job, k);
    }
  }

  lemma {:induction false} UndecodablesExactly(raws: seq<Job>, codec: Codec)
    ensures forall j :: j in Undecodables(raws, codec) <==> j in raws && !codec(j.payload).Value?
    decreases |raws|
  {
    if raws != [] {
      var front, job := raws[..|raws| - 1], raws[|raws| - 1];
      assert raws == front + [job];
      UndecodablesExactly(front, codec);
    }
  }

  lemma {:induction false} DecodableTokensDiffer(raws: seq<Job>, codec: Codec)
    requires TokensDiffer(raws)
    ensures TokensDiffer(Decodable(raws, codec))
    decreases |raws|
  {
    if raws != [] {
      var front, job := raws[..|raws| - 1], raws[|raws| - 1];
      assert raws == front + [job];
      DecodableTokensDiffer(front, codec);
      DecodableIsSmaller(front, codec, "");
      var kept := Decodable(front, codec);
      forall a | 0 <= a < |kept| ensures kept[a].leaseToken != job.leaseToken {
        assert kept[a] in kept;
        var b :| 0 <= b < |front| && front[b] == kept[a];
        assert raws[b] == front[b];
      }
    }
  }

  /** As many distinct ids as members means every member is returned. */
  lemma {:induction false} ReturnedOnce(out: seq<Job>, chosen: set<Id>, rows: Table, i: Id)
    requires Returns(out, chosen, rows) && i in chosen
    ensures JobOf(i, rows[i]) in out
    decreases |out|
  {
    if out == [] {
      assert false;
    } else if out[0].id != i {
      var tail, others := out[1..], chosen - {out[0].id};
      forall a | 0 <= a < |tail| ensures tail[a].id in others {
        assert tail[a] == out[a + 1] && out[0].id != out[a + 1].id;
      }
      ReturnedOnce(tail, others, rows, i);
    }
  }

  // ------------------------------------------------------------------ burials

  /** How a `mark_dead` came back; one that errored on the client may have been applied. */
  datatype Sent = Delivered | Errored(applied: bool)

  predicate Lands(sent: Sent) { sent.Delivered? || sent.applied }

  /** One `mark_dead` of the decode loop, with what other processes did before it. */
  datatype Burial = Burial(job: Job, sent: Sent, others: seq<Step>, before: World, after: World)

  /** The row is owned when its mark is sent; the mark is the protocol's, or nothing if it was lost. */
  ghost predicate Buries(m: Burial, codec: Codec) {
    && !codec(m.job.payload).Value?
    && Owned(m.before, m.job)
    && m.after == if Lands(m.sent)
                  then Apply(m.before, Finish(m.job.leaseToken, Failure(codec(m.job.payload)), 0)) else m.before
  }

  /** `last_error` says what the codec did, up to 8192 characters of it. */
  ghost predicate Tells(error: Option<string>, d: Decoded)
    requires !d.Value?
  {
    var text := if d.DecodeError? then "codec decode: " + d.message else "codec panic: " + d.message;
    error.Some? && error.value <= text && |error.value| <= 8192 && (|text| <= 8192 ==> error.value == text)
  }

  /** A burial that lands moves its row to dead iff the claim is still held, and moves no other row; until the
      deadline it is held. */
  lemma BuriedExactly(m: Burial, codec: Codec)
    requires Buries(m, codec)
    ensures m.after.rows.Keys == m.before.rows.Keys && m.after.now == m.before.now
    ensures forall i :: i in m.before.rows ==>
              m.after.rows[i] == if i == m.job.id && (m.sent.Delivered? || m.sent.applied)
                                    && HoldsLease(m.before.rows, i, m.job.leaseToken)
                                 then Marked(m.before.rows[i], m.before.now, Bury(m.job, codec)) else m.before.rows[i]
    ensures m.before.now <= m.job.leaseExpiresAt ==> HoldsLease(m.before.rows, m.job.id, m.job.leaseToken)
    ensures (m.sent.Delivered? || m.sent.applied) && HoldsLease(m.before.rows, m.job.id, m.job.leaseToken) ==>
              && m.after.rows[m.job.id].status == Dead
              && Tells(m.after.rows[m.job.id].lastError, codec(m.job.payload))
  {
  }

  ghost function LeftBy(claimed: World, burials: seq<Burial>): World {
    if burials == [] then claimed else burials[|burials| - 1].after
  }

  ghost predicate InTurn(claimed: World, burials: seq<Burial>, n: nat, codec: Codec)
    requires n < |burials|
  {
    && Buries(burials[n], codec)
    && burials[n].before == Run(if n == 0 then claimed else burials[n - 1].after, burials[n].others)
  }

  /** The burials follow one another from the claim on, with anything landing before each. */
  ghost predicate BuryInTurn(claimed: World, burials: seq<Burial>, codec: Codec) {
    forall n :: 0 <= n < |burials| ==> InTurn(claimed, burials, n, codec)
  }

  ghost function JobsOf(burials: seq<Burial>): seq<Job> {
    seq(|burials|, n requires 0 <= n < |burials| => burials[n].job)
  }

  /** One more burial in turn. */
  lemma BuryNext(claimed: World, burials: seq<Burial>, m: Burial, codec: Codec)
    requires BuryInTurn(claimed, burials, codec)
    requires Buries(m, codec) && m.before == Run(LeftBy(claimed, burials), m.others)
    ensures BuryInTurn(claimed, burials + [m], codec)
    ensures LeftBy(claimed, burials + [m]) == m.after
    ensures JobsOf(burials + [m]) == JobsOf(burials) + [m.job]
  {
    var more := burials + [m];
    forall n | 0 <= n < |more| ensures InTurn(claimed, more, n, codec) {
      if n < |burials| { assert InTurn(claimed, burials, n, codec); }
    }
  }

  // --------------------------------------------------------------------- loop

  /** The rows not looked at yet, and those that decoded, are still owned. */
  ghost predicate Kept(w: World, raws: seq<Job>, n: nat, codec: Codec) {
    forall a :: 0 <= a < |raws| && (n <= a || codec(raws[a].payload).Value?) ==> Owned(w, raws[a])
  }

  lemma KeptThroughOthers(w: World, steps: seq<Step>, raws: seq<Job>, n: nat, codec: Codec, spared: set<Token>)
    requires Inv(w) && Kept(w, raws, n, codec) && Spares(steps, spared + TokensOf(raws))
    ensures Kept(Run(w, steps), raws, n, codec)
  {
    forall a | 0 <= a < |raws| && (n <= a || codec(raws[a].payload).Value?) ensures Owned(Run(w, steps), raws[a]) {
      assert raws[a].leaseToken in TokensOf(raws);
      OwnedThroughRun(w, steps, raws[a]);
    }
  }

  lemma KeptThroughMark(w: World, raws: seq<Job>, n: nat, codec: Codec, o: Outcome, delay: nat)
    requires Inv(w) && n < |raws| && Kept(w, raws, n, codec) && TokensDiffer(raws)
    requires !codec(raws[n].payload).Value?
    ensures Kept(Apply(w, Finish(raws[n].leaseToken, o, delay)), raws, n + 1, codec)
  {
    var s := Finish(raws[n].leaseToken, o, delay);
    OneStep(w, s);
    forall a | 0 <= a < |raws| && (n + 1 <= a || codec(raws[a].payload).Value?) ensures Owned(Apply(w, s), raws[a]) {
      assert a != n;
      OwnedThroughRun(w, [s], raws[a]);
    }
  }

  /** What a claim after other steps leaves the decode loop with. */
  lemma ClaimedAfter(w: World, others: seq<Step>, claim: Step, raws: seq<Job>, spared: set<Token>)
    requires Reached(w) && claim.Claim? && Enabled(Run(w, others), claim) && Spares(others, spared)
    requires claim.tokens.Keys == ClaimChoice(Run(w, others), claim) && spared <= w.issued.Keys
    requires Returns(raws, claim.tokens.Keys, Apply(Run(w, others), claim).rows)
    ensures Apply(Run(w, others), claim) == Run(w, others + [claim]) && Spares(others + [claim], spared)
    ensures AllOwned(Run(w, others + [claim]), raws) && TokensDiffer(raws) && spared !! TokensOf(raws)
  {
    var mid := Run(w, others);
    RunThenStep(w, others, claim);
    SparesBoth(others, [claim], spared);
    IssuedStays(w, others);
    ClaimHandsOut(mid, claim, raws);
  }

  lemma RunOn(w: World, a: seq<Step>, b: seq<Step>, spared: set<Token>)
    requires Spares(a, spared) && Spares(b, spared)
    ensures Run(w, a + b) == Run(Run(w, a), b) && Spares(a + b, spared)
  {
    RunCompose(w, a, b);
    SparesBoth(a, b, spared);
  }

  /** The decoded jobs are the returned rows that decode, owned and all different. */
  lemma DecodedBatch(w: World, raws: seq<Job>, chosen: set<Id>, rows: Table, codec: Codec)
    requires Returns(raws, chosen, rows) && TokensDiffer(raws) && Kept(w, raws, |raws|, codec)
    ensures forall j :: j in raws <==> j.id in chosen && j == JobOf(j.id, rows[j.id])
    ensures forall j :: j in Decodable(raws, codec) <==> j in raws && codec(j.payload).Value?
    ensures forall j :: j in Undecodables(raws, codec) <==> j in raws && !codec(j.payload).Value?
    ensures AllOwned(w, Decodable(raws, codec)) && TokensDiffer(Decodable(raws, codec))
    ensures TokensOf(Decodable(raws, codec)) <= TokensOf(raws)
    ensures |Decodable(raws, codec)| <= |raws|
  {
    DecodableIsSmaller(raws, codec, "");
    UndecodablesExactly(raws, codec);
    DecodableTokensDiffer(raws, codec);
    forall i | i in chosen ensures JobOf(i, rows[i]) in raws { ReturnedOnce(raws, chosen, rows, i); }
    forall a | 0 <= a < |Decodable(raws, codec)| ensures Owned(w, Decodable(raws, codec)[a]) {
      assert Decodable(raws, codec)[a] in Decodable(raws, codec);
    }
  }

  /** One undecodable row: other statements may land before its `mark_dead`. */
  method BuryOne(db: Db, raws: seq<Job>, n: nat, codec: Codec, sent: Sent, spared: set<Token>)
    returns (ghost m: Burial, ghost steps: seq<Step>)
    requires db.Valid() && n < |raws| && !codec(raws[n].payload).Value?
    requires Kept(db.world, raws, n, codec) && TokensDiffer(raws) && spared !! TokensOf(raws)
    modifies db
    ensures db.Valid() && Kept(db.world, raws, n + 1, codec)
    ensures Buries(m, codec) && m.job == raws[n] && m.sent == sent
    ensures m.before == Run(old(db.world), m.others) && db.world == m.after
    ensures db.world == Run(old(db.world), steps) && Spares(steps, spared)
  {
    ghost var w := db.world;
    steps := db.Others(spared + TokensOf(raws));
    ReachedKeeps(w);
    ReachedKeeps(db.world);
    KeptThroughOthers(w, steps, raws, n, codec, spared);
    ghost var before, others := db.world, steps;
    if Lands(sent) {
      var o := Failure(codec(raws[n].payload));
      var affected := db.Mark(raws[n], o, 0);
      KeptThroughMark(before, raws, n, codec, o, 0);
      RunThenStep(w, others, Finish(raws[n].leaseToken, o, 0));
      assert raws[n].leaseToken in TokensOf(raws);
      steps := others + [Finish(raws[n].leaseToken, o, 0)];
    }
    m := Burial(raws[n], sent, others, before, db.world);
  }

  /** The decode loop. */
  method DecodeAll(db: Db, raws: seq<Job>, codec: Codec, fate: Id -> Sent, spared: set<Token>)
    returns (jobs: seq<Job>, ghost burials: seq<Burial>, ghost steps: seq<Step>)
    requires db.Valid() && AllOwned(db.world, raws) && TokensDiffer(raws) && spared !! TokensOf(raws)
    modifies db
    ensures db.Valid() && db.world == Run(old(db.world), steps) && Spares(steps, spared)
    ensures jobs == Decodable(raws, codec) && JobsOf(burials) == Undecodables(raws, codec)
    ensures forall n :: 0 <= n < |burials| ==> burials[n].sent == fate(burials[n].job.id)
    ensures BuryInTurn(old(db.world), burials, codec) && db.world == LeftBy(old(db.world), burials)
    ensures Kept(db.world, raws, |raws|, codec)
  {
    jobs, burials, steps := [], [], [];
    for n := 0 to |raws|
      invariant db.Valid() && db.world == Run(old(db.world), steps) && Spares(steps, spared)
      invariant jobs == Decodable(raws[..n], codec) && JobsOf(burials) == Undecodables(raws[..n], codec)
      invariant forall a :: 0 <= a < |burials| ==> burials[a].sent == fate(burials[a].job.id)
      invariant BuryInTurn(old(db.world), burials, codec) && db.world == LeftBy(old(db.world), burials)
      invariant Kept(db.world, raws, n, codec)
    {
      var job := raws[n];
      assert raws[..n + 1][..n] == raws[..n] && raws[..n + 1][n] == job;
      if codec(job.payload).Value? {
        jobs := jobs + [job];
      } else {
        ghost var m, more;
        m, more := BuryOne(db, raws, n, codec, fate(job.id), spared);
        BuryNext(old(db.world), burials, m, codec);
        RunCompose(old(db.world), steps, more);
        burials, steps := burials + [m], steps + more;
      }
    }
    assert raws[..|raws|] == raws;
  }

  /** One `claim_and_decode`: what others did before the claim locked its rows, the claim, and the burials. */
  datatype Batch = Batch(others: seq<Step>, claim: Step, claimed: World, burials: seq<Burial>)

  /** `jobs` are the claimed rows that decode; the others are buried in turn, each mark with its fate. */
  ghost predicate Decodes(b: Batch, jobs: seq<Job>, codec: Codec, fate: Id -> Sent) {
    && b.claim.Claim? && b.claim.tokens.Keys <= b.claimed.rows.Keys
    && (forall i :: i in b.claim.tokens ==> Leased(b.claimed.rows[i]))
    && (forall j :: j in jobs <==>
          j.id in b.claim.tokens && j == JobOf(j.id, b.claimed.rows[j.id]) && codec(j.payload).Value?)
    && (forall j :: j in JobsOf(b.burials) <==>
          j.id in b.claim.tokens && j == JobOf(j.id, b.claimed.rows[j.id]) && !codec(j.payload).Value?)
    && BuryInTurn(b.claimed, b.burials, codec)
    && (forall n :: 0 <= n < |b.burials| ==> b.burials[n].sent == fate(b.burials[n].job.id))
  }

  /** Claim and decode against the shared table. */
  method ClaimAndDecode(db: Db, queue: string, want: nat, lease: nat, maxAttempts: nat, headroom: Headroom,
                        locked: set<Id>, codec: Codec, fate: Id -> Sent, spared: set<Token>)
    returns (jobs: seq<Job>, ghost batch: Batch, ghost steps: seq<Step>)
    requires db.Valid() && 1 <= maxAttempts <= U32_MAX && spared <= db.world.issued.Keys
    modifies db
    ensures ClaimsFor(old(db.world), batch.others, batch.claim, queue, want, lease, maxAttempts, headroom, locked)
    ensures batch.claimed == Apply(Run(old(db.world), batch.others), batch.claim)
    ensures Decodes(batch, jobs, codec, fate) && db.world == LeftBy(batch.claimed, batch.burials)
    ensures db.Valid() && db.world == Run(old(db.world), steps) && Spares(steps, spared)
    ensures |jobs| <= want && forall k :: k in headroom ==> KeyCount(jobs, k) <= Max(headroom[k], 0)
    ensures AllOwned(db.world, jobs) && TokensDiffer(jobs) && TokensOf(jobs) !! spared
  {
    var raws;
    ghost var others, claim, burials, more;
    ghost var w := db.world;
    raws, others, claim := db.ClaimBatch(queue, want, lease, maxAttempts, headroom, locked, spared);
    ghost var claimed := db.world;
    ClaimedAfter(w, others, claim, raws, spared);
    jobs, burials, more := DecodeAll(db, raws, codec, fate, spared);
    batch, steps := Batch(others, claim, claimed, burials), others + [claim] + more;
    RunOn(w, others + [claim], more, spared);
    DecodedBatch(db.world, raws, claim.tokens.Keys, claimed.rows, codec);
    forall k | k in headroom ensures KeyCount(jobs, k) <= Max(headroom[k], 0) { DecodableIsSmaller(raws, codec, k); }
  }
}
