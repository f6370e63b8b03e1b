/** `ORDER BY run_at, id LIMIT n` over a set of row ids. */
module Ranking {
  import opened Jobs

  /** Strict `(run_at, id)` order. */
  predicate Before(rows: Table, i: Id, j: Id)
    requires i in rows && j in rows
  {
    rows[i].runAt < rows[j].runAt || (rows[i].runAt == rows[j].runAt && i < j)
  }

  /** The members of `s` ordered before `i`. */
  function Earlier(rows: Table, s: set<Id>, i: Id): set<Id>
    requires s <= rows.Keys && i in rows
  {
    set j | j in s && Before(rows, j, i)
  }

  /** The rows `ORDER BY run_at, id LIMIT n` keeps of `s`: those with fewer than `n` rows before them. */
  function First(rows: Table, s: set<Id>, n: int): (r: set<Id>)
    requires s <= rows.Keys
    ensures r <= s
  {
    set i | i in s && |Earlier(rows, s, i)| < n
  }

  /** A non-empty set has a member. */
  lemma Member<T>(s: set<T>) returns (x: T)
    requires s != {}
    ensures x in s
  {
    x :| x in s;
  }

  lemma SubsetSize<T>(a: set<T>, b: set<T>)
    requires a <= b
    ensures |a| <= |b|
    ensures |a| == |b| ==> a == b
  {
    assert b == a + (b - a);
  }

  /** Earlier sets grow along the order. */
  lemma EarlierGrows(rows: Table, s: set<Id>, i: Id, j: Id)
    requires s <= rows.Keys && i in s && j in rows && Before(rows, i, j)
    ensures Earlier(rows, s, i) < Earlier(rows, s, j)
    ensures |Earlier(rows, s, i)| < |Earlier(rows, s, j)|
  {
    var a, b := Earlier(rows, s, i), Earlier(rows, s, j);
    assert i in b && i !in a;
    SubsetSize(a, b);
  }

  lemma {:induction false} Latest(rows: Table, s: set<Id>) returns (m: Id)
    requires s <= rows.Keys && s != {}
    ensures m in s && forall j :: j in s && j != m ==> Before(rows, j, m)
    decreases |s|
  {
    var x := Member(s);
    var rest := s - {x};
    if rest == {} {
      m := x;
      assert s == {x};
    } else {
      var last := Latest(rows, rest);
      m := if Before(rows, x, last) then last else x;
      forall j | j in s && j != m ensures Before(rows, j, m) {
        if j != x && j != last { assert j in rest; }
      }
    }
  }

  /** LIMIT keeps as many rows as there are, up to the limit. */
  lemma {:induction false} FirstSize(rows: Table, s: set<Id>, n: nat)
    requires s <= rows.Keys
    ensures |First(rows, s, n)| == Min(n, |s|)
    ensures |s| <= n ==> First(rows, s, n) == s
    decreases |s|
  {
    if s != {} {
      var m := Latest(rows, s);
      var t := s - {m};
      FirstSize(rows, t, n);
      forall i | i in t ensures Earlier(rows, s, i) == Earlier(rows, t, i) {
        assert Before(rows, i, m);
      }
      assert Earlier(rows, s, m) == t;
      if |s| <= n {
        assert First(rows, s, n) == s;
      } else {
        assert First(rows, s, n) == First(rows, t, n);
      }
    }
  }

  /** A row kept out of a larger set is kept out of any smaller set holding it. */
  lemma EarlierMonotone(rows: Table, a: set<Id>, b: set<Id>, i: Id)
    requires a <= b <= rows.Keys && i in rows
    ensures |Earlier(rows, a, i)| <= |Earlier(rows, b, i)|
  {
    SubsetSize(Earlier(rows, a, i), Earlier(rows, b, i));
  }
}
