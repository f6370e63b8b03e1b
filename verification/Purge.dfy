/** `purge_terminal`: chunked deletion of old terminal rows. */
module Purge {
  import opened Jobs
  import opened Ranking
  import opened Protocol
  import opened Guarantees
  import opened Database

  const PURGE_CHUNK_SIZE: nat := 10_000
  const U64_MAX: nat := 0xFFFF_FFFF_FFFF_FFFF

  function Having(rows: Table, status: Status): set<Id> {
    set i | i in rows && rows[i].status == status
  }

  /** Nobody adds rows of `status`, and nobody edits the ones there are. */
  predicate NoneArrive(before: Table, after: Table, status: Status) {
    forall i :: i in after && after[i].status == status ==> i in before && after[i] == before[i]
  }

  /** Other processes act and time passes, without finishing further rows into `status`. */
  method Elsewhere(db: Db, status: Status) returns (ghost steps: seq<Step>)
    requires db.Valid()
    modifies db
    ensures db.Valid() && db.world == Run(old(db.world), steps)
    ensures NoneArrive(old(db.world).rows, db.world.rows, status) && old(db.world).now <= db.world.now
  {
    var w := db.world;
    assert NoneArrive(w.rows, Run(w, []).rows, status);
    var taken: seq<Step> :| NoneArrive(w.rows, Run(w, taken).rows, status);
    ReachedOn(w, taken);
    ReachedKeeps(w);
    RunFollows(w, taken);
    db.world, steps := Run(w, taken), taken;
  }

  /** What the loop deleted: the row and the chunk's clock. */
  type Deleted = map<Id, (Row, Time)>

  /** A recorded deletion: the row as the call found it, eligible at its chunk's clock. */
  ghost predicate Rightly(start: Table, now: Time, status: Status, age: nat, i: Id, d: (Row, Time)) {
    && i in start && d.0 == start[i] && d.1 <= now
    && d.0.status == status && d.0.finishedAt.Some? && d.0.finishedAt.value < d.1 - age
  }

  /** Every deletion so far was right, none came back, and no row of the status arrived. */
  ghost predicate Accounted(start: Table, rows: Table, now: Time, status: Status, age: nat, gone: Deleted) {
    && (forall i :: i in gone ==> Rightly(start, now, status, age, i, gone[i]))
    && gone.Keys !! Having(rows, status)
    && NoneArrive(start, rows, status)
  }

  ghost function Delete(gone: Deleted, rows: Table, chosen: set<Id>, now: Time): Deleted
    requires chosen <= rows.Keys
  {
    gone + map i | i in chosen :: (rows[i], now)
  }

  lemma HavingSplits(rows: Table, status: Status, chosen: set<Id>)
    requires chosen <= Having(rows, status)
    ensures Having(rows - chosen, status) == Having(rows, status) - chosen
    ensures |Having(rows - chosen, status)| == |Having(rows, status)| - |chosen|
  {
  }

  lemma ChunkCounts(rows: Table, now: Time, status: Status, gone: Deleted, chosen: set<Id>)
    requires gone.Keys !! Having(rows, status) && chosen <= Having(rows, status)
    ensures Delete(gone, rows, chosen, now).Keys == gone.Keys + chosen
    ensures |Delete(gone, rows, chosen, now)| == |gone| + |chosen|
    ensures Delete(gone, rows, chosen, now).Keys !! Having(rows - chosen, status)
  {
  }

  lemma ChunkKeeps(start: Table, rows: Table, now: Time, status: Status, age: nat, gone: Deleted, chosen: set<Id>)
    requires Accounted(start, rows, now, status, age, gone)
    requires chosen <= PurgeableIds(rows, status, age, now)
    ensures Accounted(start, rows - chosen, now, status, age, Delete(gone, rows, chosen, now))
    ensures |Delete(gone, rows, chosen, now)| == |gone| + |chosen|
    ensures |Having(rows - chosen, status)| == |Having(rows, status)| - |chosen|
  {
    forall i | i in chosen ensures i in Having(rows, status) { assert i in PurgeableIds(rows, status, age, now); }
    HavingSplits(rows, status, chosen);
    ChunkCounts(rows, now, status, gone, chosen);
    forall i | i in gone.Keys + chosen ensures Rightly(start, now, status, age, i, Delete(gone, rows, chosen, now)[i]) {
      ChunkIsRight(start, rows, now, status, age, gone, chosen, i);
    }
    assert NoneArrive(start, rows - chosen, status) by { NoneArriveAfterDelete(start, rows, chosen, status); }
  }

  lemma NoneArriveAfterDelete(start: Table, rows: Table, chosen: set<Id>, status: Status)
    requires NoneArrive(start, rows, status)
    ensures NoneArrive(start, rows - chosen, status)
  {
  }

  lemma ChunkIsRight(start: Table, rows: Table, now: Time, status: Status, age: nat, gone: Deleted,
                     chosen: set<Id>, i: Id)
    requires forall j :: j in gone ==> Rightly(start, now, status, age, j, gone[j])
    requires NoneArrive(start, rows, status) && chosen <= PurgeableIds(rows, status, age, now)
    requires i in gone.Keys + chosen
    ensures Rightly(start, now, status, age, i, Delete(gone, rows, chosen, now)[i])
  {
  }

  lemma ElsewhereKeeps(start: Table, rows: Table, after: Table, now: Time, later: Time, status: Status,
                       age: nat, gone: Deleted)
    requires Accounted(start, rows, now, status, age, gone) && NoneArrive(rows, after, status) && now <= later
    ensures Accounted(start, after, later, status, age, gone)
    ensures |Having(after, status)| <= |Having(rows, status)|
  {
    forall i | i in Having(after, status) ensures i in Having(rows, status) { assert after[i] == rows[i]; }
    SubsetSize(Having(after, status), Having(rows, status));
  }

  /** One chunk: short only when nothing unlocked is eligible. */
  method Chunk(db: Db, status: Status, age: nat, locked: set<Id>, ghost start: Table, ghost gone: Deleted)
    returns (affected: nat, ghost gone': Deleted)
    requires db.Valid() && (status == Done || status == Dead)
    requires Accounted(start, db.world.rows, db.world.now, status, age, gone)
    modifies db
    ensures db.Valid() && Accounted(start, db.world.rows, db.world.now, status, age, gone')
    ensures |gone'| == |gone| + affected && affected <= 10_000
    ensures |Having(db.world.rows, status)| == |Having(old(db.world).rows, status)| - affected
    ensures affected == 0 ==> PurgeableIds(db.world.rows, status, age, db.world.now) <= locked
  {
    ghost var w := db.world;
    ghost var pool := PurgeableIds(w.rows, status, age, w.now) - locked;
    ghost var chosen;
    affected, chosen := db.PurgeChunk(status, age, PURGE_CHUNK_SIZE, locked);
    ChunkKeeps(start, w.rows, w.now, status, age, gone, chosen);
    gone' := Delete(gone, w.rows, chosen, w.now);
    if affected == 0 {
      assert pool == {} && chosen == {};
    }
  }

  /** A chunk, and unless it came back empty whatever happens until the next. */
  method ChunkAndRest(db: Db, status: Status, age: nat, locked: set<Id>, ghost start: Table, ghost gone: Deleted)
    returns (affected: nat, ghost gone': Deleted)
    requires db.Valid() && (status == Done || status == Dead)
    requires Accounted(start, db.world.rows, db.world.now, status, age, gone)
    modifies db
    ensures db.Valid() && Accounted(start, db.world.rows, db.world.now, status, age, gone')
    ensures |gone'| == |gone| + affected && affected <= 10_000
    ensures affected > 0 ==> |Having(db.world.rows, status)| < |Having(old(db.world).rows, status)|
    ensures affected == 0 ==> PurgeableIds(db.world.rows, status, age, db.world.now) <= locked
  {
    affected, gone' := Chunk(db, status, age, locked, start, gone);
    if affected > 0 {
      ghost var w := db.world;
      ghost var steps := Elsewhere(db, status);
      ElsewhereKeeps(start, w.rows, db.world.rows, w.now, db.world.now, status, age, gone');
    }
  }

  /** The chunk loop. `locks(n)` is what others hold while chunk `n` runs. It ends, returns the number of rows it
      deleted, at most 10000 per chunk, and leaves no unlocked row eligible at the last chunk's clock. */
  method PurgeTerminal(db: Db, status: Status, age: nat, locks: nat -> set<Id>)
    returns (total: nat, chunks: nat, ghost gone: Deleted)
    requires db.Valid() && (status == Done || status == Dead)
    modifies db
    ensures db.Valid() && total == Min(|gone|, U64_MAX) && |gone| <= 10_000 * chunks
    ensures Accounted(old(db.world).rows, db.world.rows, db.world.now, status, age, gone)
    ensures chunks > 0 && PurgeableIds(db.world.rows, status, age, db.world.now) <= locks(chunks - 1)
  {
    total, chunks, gone := 0, 0, map[];
    ghost var start := db.world.rows;
    var more := true;
    while more
      invariant db.Valid() && total == Min(|gone|, U64_MAX) && |gone| <= 10_000 * chunks
      invariant Accounted(start, db.world.rows, db.world.now, status, age, gone)
      invariant !more ==> chunks > 0 && PurgeableIds(db.world.rows, status, age, db.world.now) <= locks(chunks - 1)
      decreases more, |Having(db.world.rows, status)|
    {
      var affected;
      affected, gone := ChunkAndRest(db, status, age, locks(chunks), start, gone);
      total := if total + affected > U64_MAX then U64_MAX else total + affected;
      chunks, more := chunks + 1, affected != 0;
    }
  }
}
