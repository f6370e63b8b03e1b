/** The history of one row: what its events count up to, and what appending one event does. */
module Histories {
  import opened Jobs
  import opened Protocol

  ghost function Last(h: seq<Event>): Event
    requires h != []
  {
    h[|h| - 1]
  }

  ghost function Front(h: seq<Event>): seq<Event>
    requires h != []
  {
    h[..|h| - 1]
  }

  /** Claims and exits alternate, and every exit ends the claim right before it. */
  ghost predicate Alternating(h: seq<Event>)
    decreases |h|
  {
    h == [] ||
    (&& Alternating(Front(h))
     && if |h| % 2 == 1 then Last(h).Took? else Last(h).Left? && Last(h).token == h[|h| - 2].token)
  }

  /** The row is running, under claim `t`. */
  ghost predicate Open(h: seq<Event>, t: Token) {
    |h| % 2 == 1 && Last(h).token == t
  }

  ghost function Claims(h: seq<Event>): nat
    decreases |h|
  {
    if h == [] then 0 else Claims(Front(h)) + if Last(h).Took? then 1 else 0
  }

  ghost function Exits(h: seq<Event>): nat
    decreases |h|
  {
    if h == [] then 0 else Exits(Front(h)) + if Last(h).Left? then 1 else 0
  }

  /** How often claim `t` was made, and how often it was ended. */
  ghost function ClaimsOf(h: seq<Event>, t: Token): nat
    decreases |h|
  {
    if h == [] then 0 else ClaimsOf(Front(h), t) + if Last(h).Took? && Last(h).token == t then 1 else 0
  }

  ghost function ExitsOf(h: seq<Event>, t: Token): nat
    decreases |h|
  {
    if h == [] then 0 else ExitsOf(Front(h), t) + if Last(h).Left? && Last(h).token == t then 1 else 0
  }

  /** The largest `max_attempts` stamped by any worker that claimed the row. */
  ghost function LargestStamp(h: seq<Event>): int
    decreases |h|
  {
    if h == [] then 0
    else if Last(h).Took? then Max(LargestStamp(Front(h)), Last(h).stamp) else LargestStamp(Front(h))
  }

  /** The `max_attempts` stamped by the row's latest claim. */
  ghost function LatestStamp(h: seq<Event>): int
    decreases |h|
  {
    if h == [] then 0 else if Last(h).Took? then Last(h).stamp else LatestStamp(Front(h))
  }

  /** Every measure above, one event later. */
  lemma AppendEvent(h: seq<Event>, e: Event)
    ensures Front(h + [e]) == h && Last(h + [e]) == e
    ensures Claims(h + [e]) == Claims(h) + if e.Took? then 1 else 0
    ensures Exits(h + [e]) == Exits(h) + if e.Left? then 1 else 0
    ensures forall t :: ClaimsOf(h + [e], t) == ClaimsOf(h, t) + if e.Took? && e.token == t then 1 else 0
    ensures forall t :: ExitsOf(h + [e], t) == ExitsOf(h, t) + if e.Left? && e.token == t then 1 else 0
    ensures LargestStamp(h + [e]) == if e.Took? then Max(LargestStamp(h), e.stamp) else LargestStamp(h)
    ensures LatestStamp(h + [e]) == if e.Took? then e.stamp else LatestStamp(h)
    ensures Alternating(h + [e]) <==>
            Alternating(h) && if |h| % 2 == 0 then e.Took? else e.Left? && e.token == Last(h).token
  {
  }

  /** In an alternating history the counts follow from the length alone. */
  lemma {:induction false} AlternatingCounts(h: seq<Event>)
    requires Alternating(h)
    ensures Claims(h) == (|h| + 1) / 2 && Exits(h) == |h| / 2
    ensures Claims(h) == Exits(h) + if |h| % 2 == 1 then 1 else 0
    decreases |h|
  {
    if h != [] { AlternatingCounts(Front(h)); }
  }

  /** A token no event of the row carries was neither claimed nor ended there. */
  lemma {:induction false} ForeignToken(h: seq<Event>, t: Token)
    requires forall e :: e in h ==> e.token != t
    ensures ClaimsOf(h, t) == 0 && ExitsOf(h, t) == 0
    decreases |h|
  {
    if h != [] {
      assert Last(h) in h;
      ForeignToken(Front(h), t);
    }
  }

  /** With one `max_attempts` across the fleet, every stamp is that value. */
  lemma {:induction false} UniformStamp(h: seq<Event>, m: int)
    requires Alternating(h) && h != [] && m >= 0
    requires forall e :: e in h && e.Took? ==> e.stamp == m
    ensures LargestStamp(h) == m && LatestStamp(h) == m
    decreases |h|
  {
    assert Last(h) in h;
    if |h| > 1 { UniformStamp(Front(h), m); }
  }
}
