/** When repeated failures shut the worker down, and which error is surfaced. */
module Escalation {
  import opened Jobs

  const MAX_CONSECUTIVE_CLAIM_ERRORS: nat := 30

  /** One tick's `claim_and_decode`: rows, or a database error classified by `is_fatal_sqlx`. */
  datatype ClaimResult = Rows(count: nat) | Failed(error: nat, fatal: bool)

  /** The poll loop must give up at tick `i`: a fatal error, or thirty transient ones in a row. */
  ghost predicate GivesUp(results: seq<ClaimResult>, i: nat)
    requires i < |results|
  {
    && results[i].Failed?
    && (results[i].fatal
        || (i + 1 >= 30 && forall j :: i - 29 <= j <= i ==> results[j].Failed? && !results[j].fatal))
  }

  /** The claim-error handling of `poll_loop`: `last_fatal` is set at the first tick that must give up,
      with that tick's error, and never otherwise. */
  method PollErrors(results: seq<ClaimResult>) returns (lastFatal: Option<nat>, at: nat)
    ensures at <= |results| && forall j :: 0 <= j < at ==> !GivesUp(results, j)
    ensures lastFatal.None? <==> at == |results|
    ensures at < |results| ==> GivesUp(results, at) && lastFatal == Some(results[at].error)
  {
    var errors := 0;
    at, lastFatal := 0, None;
    while at < |results|
      invariant at <= |results| && forall j :: 0 <= j < at ==> !GivesUp(results, j)
      invariant 0 <= errors < MAX_CONSECUTIVE_CLAIM_ERRORS && errors <= at
      invariant forall j :: at - errors <= j < at ==> results[j].Failed? && !results[j].fatal
      invariant errors < at ==> !(results[at - errors - 1].Failed? && !results[at - errors - 1].fatal)
      decreases |results| - at
    {
      match results[at] {
        case Rows(_) => errors := 0;
        case Failed(error, fatal) =>
          if fatal { lastFatal := Some(error); return; }
          errors := errors + 1;
          if errors >= MAX_CONSECUTIVE_CLAIM_ERRORS { lastFatal := Some(error); return; }
      }
      at := at + 1;
    }
  }

  /** Writes to the two `OnceLock`s by the poll and reaper loops, in the order they happen. */
  datatype Write = SetFatal(error: nat) | SetEscalation(panics: nat)

  datatype Surfaced = Clean | Fatal(error: nat) | ReaperPanicEscalation(panics: nat)

  /** The first write of each kind wins; a fatal error is surfaced in preference to an escalation. */
  method Surface(writes: seq<Write>) returns (r: Surfaced)
    ensures r.Fatal? ==> exists i :: 0 <= i < |writes| && writes[i] == SetFatal(r.error)
                           && forall j :: 0 <= j < i ==> !writes[j].SetFatal?
    ensures r.ReaperPanicEscalation? ==>
              && (forall j :: 0 <= j < |writes| ==> !writes[j].SetFatal?)
              && exists i :: 0 <= i < |writes| && writes[i] == SetEscalation(r.panics)
                   && forall j :: 0 <= j < i ==> !writes[j].SetEscalation?
    ensures r.Clean? ==> writes == []
  {
    var fatal: Option<nat>, panics: Option<nat> := None, None;
    for n := 0 to |writes|
      invariant fatal.None? ==> forall j :: 0 <= j < n ==> !writes[j].SetFatal?
      invariant fatal.Some? ==> exists i :: 0 <= i < n && writes[i] == SetFatal(fatal.value)
                                  && forall j :: 0 <= j < i ==> !writes[j].SetFatal?
      invariant panics.None? ==> forall j :: 0 <= j < n ==> !writes[j].SetEscalation?
      invariant panics.Some? ==> exists i :: 0 <= i < n && writes[i] == SetEscalation(panics.value)
                                   && forall j :: 0 <= j < i ==> !writes[j].SetEscalation?
    {
      match writes[n] {
        case SetFatal(error) => if fatal.None? { fatal := Some(error); }
        case SetEscalation(count) => if panics.None? { panics := Some(count); }
      }
    }
    assert writes != [] ==> writes[0].SetFatal? || writes[0].SetEscalation?;
    if fatal.Some? { r := Fatal(fatal.value); }
    else if panics.Some? { r := ReaperPanicEscalation(panics.value); }
    else { r := Clean; }
  }
}
