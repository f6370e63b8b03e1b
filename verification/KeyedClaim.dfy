/** The per-key bounded claim query, against a one-pass greedy scan. */
module KeyedClaim {
  import opened Jobs
  import opened Ranking
  import opened Protocol
  import opened Invariants
  import opened Guarantees
  import opened Effects

  /** Per-key headroom, as bound to `$5`. */
  type Headroom = map<Key, int>

  /** Rows the claim CTEs of a queue range over. */
  function Eligible(rows: Table, queue: string, now: Time): (s: set<Id>)
    ensures s <= rows.Keys
  {
    set i | i in rows && rows[i].queue == queue && Claimable(rows[i], now)
  }

  function OfKey(rows: Table, s: set<Id>, k: Key): (r: set<Id>)
    requires s <= rows.Keys
    ensures r <= s
  {
    set i | i in s && rows[i].key == Some(k)
  }

  predicate Limited(r: Row, hr: Headroom) {
    r.key.Some? && r.key.value in hr
  }

  /** The anti-join of `eligible_unlimited`. */
  function Unlimited(rows: Table, s: set<Id>, hr: Headroom): (r: set<Id>)
    requires s <= rows.Keys
    ensures r <= s
  {
    set i | i in s && !Limited(rows[i], hr)
  }

  /** `SQL_PLAIN`'s CTE. */
  function PlainChoice(rows: Table, queue: string, now: Time, want: nat, locked: set<Id>): set<Id> {
    First(rows, Eligible(rows, queue, now) - locked, want)
  }

  /** CTE `eligible_keyed`: one LATERAL subquery per headroom entry. */
  function EligibleKeyed(rows: Table, queue: string, now: Time, want: nat, hr: Headroom): set<Id> {
    set k, i | k in hr && i in First(rows, OfKey(rows, Eligible(rows, queue, now), k), Min(Max(hr[k], 0), want)) :: i
  }

  /** CTE `eligible_unlimited`. */
  function EligibleUnlimited(rows: Table, queue: string, now: Time, want: nat, hr: Headroom): set<Id> {
    First(rows, Unlimited(rows, Eligible(rows, queue, now), hr), want)
  }

  /** The `UNION ALL` that feeds CTE `locked`. */
  function Candidates(rows: Table, queue: string, now: Time, want: nat, hr: Headroom): (c: set<Id>)
    ensures c <= Eligible(rows, queue, now)
  {
    EligibleKeyed(rows, queue, now, want, hr) + EligibleUnlimited(rows, queue, now, want, hr)
  }

  /** CTE `locked`, evaluated in the same state as the candidates. */
  function KeyedChoice(rows: Table, queue: string, now: Time, want: nat, hr: Headroom, locked: set<Id>): set<Id> {
    First(rows, Candidates(rows, queue, now, want, hr) - locked, want)
  }

  // ------------------------------------------------------------- reference

  /** `q` lists `s` in claim order. */
  ghost predicate Lists(rows: Table, q: seq<Id>, s: set<Id>)
    requires s <= rows.Keys
  {
    && (forall a :: 0 <= a < |q| ==> q[a] in s)
    && (forall i :: i in s ==> i in q)
    && forall a, b :: 0 <= a < b < |q| ==> Before(rows, q[a], q[b])
  }

  /** One pass in `(run_at, id)` order: take a row unless its key's budget is spent, stop at `want`. */
  ghost function Greedy(rows: Table, q: seq<Id>, want: nat, budget: Headroom): seq<Id>
    requires forall a :: 0 <= a < |q| ==> q[a] in rows
    decreases |q|
  {
    if q == [] || want == 0 then []
    else if !Limited(rows[q[0]], budget) then [q[0]] + Greedy(rows, q[1..], want - 1, budget)
    else
      var k := rows[q[0]].key.value;
      if budget[k] <= 0 then Greedy(rows, q[1..], want, budget)
      else [q[0]] + Greedy(rows, q[1..], want - 1, budget[k := budget[k] - 1])
  }

  /** Every finite set of rows can be listed in claim order. */
  lemma {:induction false} Listing(rows: Table, s: set<Id>) returns (q: seq<Id>)
    requires s <= rows.Keys
    ensures Lists(rows, q, s)
    decreases |s|
  {
    if s == {} {
      q := [];
    } else {
      var m := Latest(rows, s);
      var front := Listing(rows, s - {m});
      q := front + [m];
    }
  }

  // ------------------------------------------------- the query's inner LIMITs

  /** The rows of `s` whose key still has room, ranking each key on its own. */
  ghost function Admitted(rows: Table, s: set<Id>, hr: Headroom): (a: set<Id>)
    requires s <= rows.Keys
    ensures a <= s
  {
    set i | i in s &&
            (Limited(rows[i], hr) ==> |Earlier(rows, OfKey(rows, s, rows[i].key.value), i)| < hr[rows[i].key.value])
  }

  /** A LIMIT is not changed by dropping rows it would not have kept. */
  lemma Sandwich(rows: Table, a: set<Id>, b: set<Id>, n: nat)
    requires a <= rows.Keys && First(rows, a, n) <= b <= a
    ensures First(rows, b, n) == First(rows, a, n)
  {
    forall i | i in First(rows, a, n) ensures i in First(rows, b, n) { EarlierMonotone(rows, b, a, i); }
    FirstSize(rows, a, n);
    FirstSize(rows, b, n);
    SubsetSize(b, a);
    SubsetSize(First(rows, a, n), First(rows, b, n));
  }

  /** The candidates are the admitted rows that survive the inner LIMITs of their own group. */
  lemma CandidatesAdmitted(rows: Table, queue: string, now: Time, want: nat, hr: Headroom)
    ensures Candidates(rows, queue, now, want, hr) <= Admitted(rows, Eligible(rows, queue, now), hr)
  {
  }

  /** No row the outer LIMIT keeps is lost to an inner one. */
  lemma OuterLimitInsideCandidates(rows: Table, queue: string, now: Time, want: nat, hr: Headroom)
    ensures First(rows, Admitted(rows, Eligible(rows, queue, now), hr), want) <= Candidates(rows, queue, now, want, hr)
  {
    var e := Eligible(rows, queue, now);
    var a := Admitted(rows, e, hr);
    forall i | i in First(rows, a, want) ensures i in Candidates(rows, queue, now, want, hr) {
      if Limited(rows[i], hr) {
        var k := rows[i].key.value;
        var g := OfKey(rows, e, k);
        forall j | j in Earlier(rows, g, i) ensures j in Earlier(rows, a, i) { EarlierGrows(rows, g, j, i); }
        SubsetSize(Earlier(rows, g, i), Earlier(rows, a, i));
        assert i in First(rows, g, Min(Max(hr[k], 0), want));
      } else {
        EarlierMonotone(rows, Unlimited(rows, e, hr), a, i);
      }
    }
  }

  /** Ranking, anti-join, union and three LIMITs amount to one LIMIT over the admitted rows. */
  lemma KeyedIsFirstAdmitted(rows: Table, queue: string, now: Time, want: nat, hr: Headroom)
    ensures KeyedChoice(rows, queue, now, want, hr, {})
            == First(rows, Admitted(rows, Eligible(rows, queue, now), hr), want)
  {
    var c := Candidates(rows, queue, now, want, hr);
    CandidatesAdmitted(rows, queue, now, want, hr);
    OuterLimitInsideCandidates(rows, queue, now, want, hr);
    Sandwich(rows, Admitted(rows, Eligible(rows, queue, now), hr), c, want);
    assert c - {} == c;
  }

  // --------------------------------------------------------- the greedy scan

  /** Putting an earliest row in front shifts everyone's rank by one. */
  lemma HeadShiftsRank(rows: Table, s: set<Id>, x: Id, i: Id)
    requires s <= rows.Keys && x in rows && x !in s && i in rows && Before(rows, x, i)
    ensures |Earlier(rows, s + {x}, i)| == |Earlier(rows, s, i)| + 1
  {
    assert Earlier(rows, s + {x}, i) == Earlier(rows, s, i) + {x};
  }

  lemma FirstWithHead(rows: Table, s: set<Id>, x: Id, n: nat)
    requires s <= rows.Keys && x in rows && x !in s && n > 0
    requires forall j :: j in s ==> Before(rows, x, j)
    ensures First(rows, s + {x}, n) == First(rows, s, n - 1) + {x}
  {
    assert Earlier(rows, s + {x}, x) == {};
    forall i | i in s ensures |Earlier(rows, s + {x}, i)| == |Earlier(rows, s, i)| + 1 {
      HeadShiftsRank(rows, s, x, i);
    }
  }

  /** Admission after the scan has looked at the earliest row. */
  lemma AdmittedWithHead(rows: Table, s: set<Id>, x: Id, hr: Headroom)
    requires s <= rows.Keys && x in rows && x !in s
    requires forall j :: j in s ==> Before(rows, x, j)
    ensures !Limited(rows[x], hr) ==> Admitted(rows, s + {x}, hr) == Admitted(rows, s, hr) + {x}
    ensures Limited(rows[x], hr) ==>
              var k := rows[x].key.value;
              Admitted(rows, s + {x}, hr) ==
                if hr[k] <= 0 then Admitted(rows, s, hr) else Admitted(rows, s, hr[k := hr[k] - 1]) + {x}
  {
    forall i | i in s && Limited(rows[i], hr)
      ensures |Earlier(rows, OfKey(rows, s + {x}, rows[i].key.value), i)|
              == |Earlier(rows, OfKey(rows, s, rows[i].key.value), i)| + if rows[x].key == rows[i].key then 1 else 0
    {
      var k := rows[i].key.value;
      if rows[x].key == Some(k) {
        assert OfKey(rows, s + {x}, k) == OfKey(rows, s, k) + {x};
        HeadShiftsRank(rows, OfKey(rows, s, k), x, i);
      } else {
        assert OfKey(rows, s + {x}, k) == OfKey(rows, s, k);
      }
    }
    if Limited(rows[x], hr) {
      assert Earlier(rows, OfKey(rows, s + {x}, rows[x].key.value), x) == {};
    }
  }

  lemma ListsTail(rows: Table, q: seq<Id>, s: set<Id>)
    requires s <= rows.Keys && Lists(rows, q, s) && q != []
    ensures q[0] in s && Lists(rows, q[1..], s - {q[0]})
    ensures forall j :: j in s - {q[0]} ==> Before(rows, q[0], j)
  {
  }

  lemma {:induction false} GreedyIsFirstAdmitted(rows: Table, q: seq<Id>, s: set<Id>, want: nat, hr: Headroom)
    requires s <= rows.Keys && Lists(rows, q, s)
    ensures forall i :: i in Greedy(rows, q, want, hr) <==> i in First(rows, Admitted(rows, s, hr), want)
    decreases |q|
  {
    if q != [] && want > 0 {
      var x, rest := q[0], s - {q[0]};
      ListsTail(rows, q, s);
      assert s == rest + {x};
      AdmittedWithHead(rows, rest, x, hr);
      if !Limited(rows[x], hr) {
        FirstWithHead(rows, Admitted(rows, rest, hr), x, want);
        GreedyIsFirstAdmitted(rows, q[1..], rest, want - 1, hr);
      } else if hr[rows[x].key.value] <= 0 {
        GreedyIsFirstAdmitted(rows, q[1..], rest, want, hr);
      } else {
        var k := rows[x].key.value;
        var hr' := hr[k := hr[k] - 1];
        FirstWithHead(rows, Admitted(rows, rest, hr'), x, want);
        GreedyIsFirstAdmitted(rows, q[1..], rest, want - 1, hr');
      }
    }
  }

  // ---------------------------------------------------------------- results

  /** With nothing locked, SQL_KEYED claims exactly the rows of the greedy scan. */
  lemma KeyedIsGreedy(rows: Table, queue: string, now: Time, want: nat, hr: Headroom, q: seq<Id>)
    requires Lists(rows, q, Eligible(rows, queue, now))
    ensures forall i :: i in Greedy(rows, q, want, hr) <==> i in KeyedChoice(rows, queue, now, want, hr, {})
  {
    KeyedIsFirstAdmitted(rows, queue, now, want, hr);
    GreedyIsFirstAdmitted(rows, q, Eligible(rows, queue, now), want, hr);
  }

  /** An admitted row left behind: the batch is full, and every row in it comes sooner. */
  lemma AdmittedLeftBehind(rows: Table, a: set<Id>, want: nat, j: Id)
    requires a <= rows.Keys && j in a && j !in First(rows, a, want)
    ensures |First(rows, a, want)| == want && forall i :: i in First(rows, a, want) ==> Before(rows, i, j)
  {
    FirstSize(rows, a, want);
    forall i | i in First(rows, a, want) ensures Before(rows, i, j) {
      if !Before(rows, i, j) { EarlierGrows(rows, a, j, i); }
    }
  }

  /** A row refused for want of room has an admitted row of its key in front of it that was left behind too,
      unless the key's room was used up. */
  lemma RefusedBehindAdmitted(rows: Table, e: set<Id>, want: nat, hr: Headroom, j: Id) returns (m: Id)
    requires e <= rows.Keys && j in e && j !in Admitted(rows, e, hr)
    requires |OfKey(rows, First(rows, Admitted(rows, e, hr), want), rows[j].key.value)| < hr[rows[j].key.value]
    ensures m in Admitted(rows, e, hr) && m !in First(rows, Admitted(rows, e, hr), want) && Before(rows, m, j)
  {
    var k, chosen := rows[j].key.value, First(rows, Admitted(rows, e, hr), want);
    var g := OfKey(rows, e, k);
    var top := First(rows, g, hr[k]);
    SubsetSize(Earlier(rows, g, j), g);
    FirstSize(rows, g, hr[k]);
    var passed := top - OfKey(rows, chosen, k);
    if passed == {} {
      assert forall x :: x in top ==> x in passed || x in OfKey(rows, chosen, k);
      SubsetSize(top, OfKey(rows, chosen, k));
    }
    m := Member(passed);
    if Before(rows, j, m) { EarlierGrows(rows, g, j, m); }
  }

  /** With nothing locked, SQL_KEYED takes only due rows of the queue, and leaves one behind only if its key's room is
      used up or the batch is full of rows that come sooner. */
  lemma KeyedSkipsOnlySaturated(rows: Table, queue: string, now: Time, want: nat, hr: Headroom, j: Id)
    requires j !in KeyedChoice(rows, queue, now, want, hr, {})
    requires j in rows && rows[j].queue == queue && Due(rows[j], now)
    requires var chosen := KeyedChoice(rows, queue, now, want, hr, {});
             rows[j].key.Some? && rows[j].key.value in hr ==>
               |OfKey(rows, chosen, rows[j].key.value)| < hr[rows[j].key.value]
    ensures |KeyedChoice(rows, queue, now, want, hr, {})| == want
    ensures forall i :: i in KeyedChoice(rows, queue, now, want, hr, {}) ==>
              i in rows && rows[i].queue == queue && Due(rows[i], now) && Sooner(rows, i, j)
  {
    var e := Eligible(rows, queue, now);
    var a := Admitted(rows, e, hr);
    KeyedIsFirstAdmitted(rows, queue, now, want, hr);
    var m := j;
    if j !in a { m := RefusedBehindAdmitted(rows, e, want, hr, j); }
    AdmittedLeftBehind(rows, a, want, m);
  }

  /** With no limit that can bite, SQL_KEYED claims what SQL_PLAIN claims. */
  lemma KeyedCollapsesToPlain(rows: Table, queue: string, now: Time, want: nat, hr: Headroom)
    requires forall k :: k in hr ==> hr[k] >= want
    ensures KeyedChoice(rows, queue, now, want, hr, {}) == PlainChoice(rows, queue, now, want, {})
  {
    var e := Eligible(rows, queue, now);
    var a := Admitted(rows, e, hr);
    KeyedIsFirstAdmitted(rows, queue, now, want, hr);
    forall i | i in First(rows, e, want) ensures i in a {
      if Limited(rows[i], hr) { EarlierMonotone(rows, OfKey(rows, e, rows[i].key.value), e, i); }
    }
    Sandwich(rows, e, a, want);
    assert e - {} == e;
  }

  /** Candidates of one key never outnumber its headroom. */
  lemma CandidatesWithinHeadroom(rows: Table, queue: string, now: Time, want: nat, hr: Headroom, k: Key)
    requires k in hr
    ensures |OfKey(rows, Candidates(rows, queue, now, want, hr), k)| <= Max(hr[k], 0)
  {
    var g := OfKey(rows, Eligible(rows, queue, now), k);
    var limit := Min(Max(hr[k], 0), want);
    forall i | i in OfKey(rows, Candidates(rows, queue, now, want, hr), k) ensures i in First(rows, g, limit) {
      if i in EligibleKeyed(rows, queue, now, want, hr) {
        var k' :| k' in hr && i in First(rows, OfKey(rows, Eligible(rows, queue, now), k'), Min(Max(hr[k'], 0), want));
        assert k' == k;
      }
    }
    FirstSize(rows, g, limit);
    SubsetSize(OfKey(rows, Candidates(rows, queue, now, want, hr), k), First(rows, g, limit));
  }

  /** Under any locks: the first `want` unlocked candidates, never more than a key's headroom. */
  lemma KeyedUnderLocks(rows: Table, queue: string, now: Time, want: nat, hr: Headroom, locked: set<Id>)
    ensures var chosen := KeyedChoice(rows, queue, now, want, hr, locked);
            && |chosen| == Min(want, |Candidates(rows, queue, now, want, hr) - locked|)
            && chosen !! locked
            && (forall k :: k in hr ==> |OfKey(rows, chosen, k)| <= Max(hr[k], 0))
  {
    var c := Candidates(rows, queue, now, want, hr);
    var chosen := KeyedChoice(rows, queue, now, want, hr, locked);
    FirstSize(rows, c - locked, want);
    forall k | k in hr ensures |OfKey(rows, chosen, k)| <= Max(hr[k], 0) {
      CandidatesWithinHeadroom(rows, queue, now, want, hr, k);
      SubsetSize(OfKey(rows, chosen, k), OfKey(rows, c, k));
    }
  }

  /** Candidates picked in one world and locked in a later one, with any steps in between: the claim
      takes only rows claimable now, of its own queue, at most `want`, at most headroom per key. */
  lemma SplitClaimIsSafe(w: World, steps: seq<Step>, queue: string, hr: Headroom, s: Step)
    requires Inv(w) && s.Claim?
    requires s.candidates == Candidates(w.rows, queue, w.now, s.want, hr)
    ensures var v := Run(w, steps);
            var chosen := ClaimChoice(v, s);
            && (forall i :: i in chosen ==> Claimable(v.rows[i], v.now) && v.rows[i].queue == queue && i !in s.locked)
            && |chosen| <= s.want
            && (forall k :: k in hr ==> |OfKey(v.rows, chosen, k)| <= Max(hr[k], 0))
  {
    var v := Run(w, steps);
    var chosen := ClaimChoice(v, s);
    RunFollows(w, steps);
    FirstSize(v.rows, Lockable(v, s.candidates, s.locked), Min(s.want, I32_MAX));
    forall i | i in chosen ensures v.rows[i].queue == queue && v.rows[i].key == w.rows[i].key {
      assert SameJob(w.rows[i], v.rows[i]);
    }
    forall k | k in hr ensures |OfKey(v.rows, chosen, k)| <= Max(hr[k], 0) {
      CandidatesWithinHeadroom(w.rows, queue, w.now, s.want, hr, k);
      SubsetSize(OfKey(v.rows, chosen, k), OfKey(w.rows, s.candidates, k));
    }
  }

  /** A saturated key neither claims nor blocks: the claim is the one made as if its rows were not there,
      and it stops short of `want` only once no admitted row is left. */
  lemma SaturatedKeyBlocksNobody(rows: Table, queue: string, now: Time, want: nat, hr: Headroom, k: Key)
    requires k in hr && hr[k] <= 0
    ensures var e := Eligible(rows, queue, now);
            var chosen := KeyedChoice(rows, queue, now, want, hr, {});
            && chosen == First(rows, Admitted(rows, e - OfKey(rows, e, k), hr), want)
            && (|chosen| < want ==> chosen == Admitted(rows, e, hr))
  {
    var e := Eligible(rows, queue, now);
    var others := e - OfKey(rows, e, k);
    KeyedIsFirstAdmitted(rows, queue, now, want, hr);
    FirstSize(rows, Admitted(rows, e, hr), want);
    forall i | i in others && Limited(rows[i], hr)
      ensures OfKey(rows, others, rows[i].key.value) == OfKey(rows, e, rows[i].key.value)
    {
    }
    assert Admitted(rows, others, hr) == Admitted(rows, e, hr);
  }

  // ------------------------------------------------- both queries as claim steps

  /** SQL_PLAIN is the claim step whose candidates are the queue's rows. */
  lemma PlainIsClaimStep(w: World, queue: string, s: Step)
    requires s.Claim? && s.want <= I32_MAX
    requires s.candidates == set i | i in w.rows && w.rows[i].queue == queue
    ensures ClaimChoice(w, s) == PlainChoice(w.rows, queue, w.now, s.want, s.locked)
  {
    assert Lockable(w, s.candidates, s.locked) == Eligible(w.rows, queue, w.now) - s.locked;
  }

  /** SQL_KEYED is the claim step whose candidates its first CTEs select. */
  lemma KeyedIsClaimStep(w: World, queue: string, hr: Headroom, s: Step)
    requires s.Claim? && s.want <= I32_MAX
    requires s.candidates == Candidates(w.rows, queue, w.now, s.want, hr)
    ensures ClaimChoice(w, s) == KeyedChoice(w.rows, queue, w.now, s.want, hr, s.locked)
  {
    assert Lockable(w, s.candidates, s.locked) == s.candidates - s.locked;
  }
}
