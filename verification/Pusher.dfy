/** `Pusher`: validation in front of INSERT. */
module Pusher {
  import opened Jobs

  const MAX_BATCH_SIZE: nat := 10_000
  const MAX_BATCH_BYTES: nat := 64 * 1024 * 1024

  /** One batch item after the codec: `None` when the codec rejected the value. */
  datatype Item = Item(encoded: Option<seq<Byte>>, key: Option<Key>)

  datatype PushError =
    | QueueNameInvalid | BatchEmpty | BatchTooLarge | ConcurrencyKeyInvalid(index: nat) | Codec | BatchCodec(index: nat)
    | PayloadTooLarge(index: nat) | BatchPayloadTooLarge(total: nat)

  datatype Pushed = Rows(rows: seq<Row>) | Refused(error: PushError)

  predicate QueueOk(queue: string) { 0 < |queue| <= MAX_QUEUE_LEN }

  predicate KeyOk(key: Option<Key>) { key.Some? ==> 0 < |key.value| <= MAX_KEY_LEN }

  ghost function TotalBytes(items: seq<Item>): nat
    decreases |items|
  {
    if items == [] then 0
    else TotalBytes(items[..|items| - 1]) + (var e := items[|items| - 1].encoded; if e.Some? then |e.value| else 0)
  }

  /** What is wrong with item `i`, in the order the checks run; `None` when nothing is. */
  ghost function ItemError(items: seq<Item>, i: nat): Option<PushError>
    requires i < |items|
  {
    var item := items[i];
    if !KeyOk(item.key) then Some(ConcurrencyKeyInvalid(i))
    else if item.encoded.None? then Some(if i == 0 then Codec else BatchCodec(i))
    else if |item.encoded.value| > MAX_PAYLOAD_BYTES then Some(PayloadTooLarge(i))
    else if TotalBytes(items[..i + 1]) > MAX_BATCH_BYTES then Some(BatchPayloadTooLarge(TotalBytes(items[..i + 1])))
    else None
  }

  /** A pushed row passes every CHECK iff queue, key and payload are within the documented limits and its `run_at`, if
      given, is not in the past. */
  lemma PushPassesChecksExactly(publicId: nat, queue: string, key: Option<Key>, payload: seq<Byte>,
                                runAt: Option<Time>, now: Time)
    ensures Checks(NewRow(publicId, queue, key, payload, runAt, now)) <==>
            && 1 <= |queue| <= 64 && (key.Some? ==> 1 <= |key.value| <= 128) && |payload| <= 1_048_576
            && (runAt.None? || runAt.value >= now)
  {
  }

  /** The validation in front of the INSERT refuses exactly what the CHECKs would, but for a `run_at` in the past. */
  lemma ValidatedPushPassesChecks(publicId: nat, queue: string, key: Option<Key>, payload: seq<Byte>,
                                  runAt: Option<Time>, now: Time)
    requires runAt.None? || runAt.value >= now
    ensures Checks(NewRow(publicId, queue, key, payload, runAt, now)) <==>
            QueueOk(queue) && KeyOk(key) && |payload| <= MAX_PAYLOAD_BYTES
  {
    PushPassesChecksExactly(publicId, queue, key, payload, runAt, now);
  }

  lemma {:induction false} TotalBytesAdds(a: seq<Item>, b: seq<Item>)
    ensures TotalBytes(a + b) == TotalBytes(a) + TotalBytes(b)
    decreases |b|
  {
    if b == [] {
      assert a + b == a;
    } else {
      var front, last := b[..|b| - 1], b[|b| - 1];
      assert (a + b)[..|a + b| - 1] == a + front && (a + b)[|a + b| - 1] == last;
      TotalBytesAdds(a, front);
    }
  }

  /** An item is fine iff its key and payload are within the documented limits and the batch up to it within 64 MiB;
      otherwise the error names the first of these it breaks. */
  lemma ItemErrorTells(items: seq<Item>, i: nat)
    requires i < |items|
    ensures var key, payload := items[i].key, items[i].encoded;
            var keyOk := key.Some? ==> 1 <= |key.value| <= 128;
            var sum := TotalBytes(items[..i]) + (if payload.Some? then |payload.value| else 0);
            && (ItemError(items, i).None? <==>
                  keyOk && payload.Some? && |payload.value| <= 1_048_576 && sum <= 67_108_864)
            && (ItemError(items, i).Some? ==>
                  match ItemError(items, i).value
                  case ConcurrencyKeyInvalid(n) => n == i && !keyOk
                  case Codec => i == 0 && keyOk && payload.None?
                  case BatchCodec(n) => n == i && i > 0 && keyOk && payload.None?
                  case PayloadTooLarge(n) => n == i && keyOk && payload.Some? && |payload.value| > 1_048_576
                  case BatchPayloadTooLarge(n) =>
                    n == sum > 67_108_864 && keyOk && payload.Some? && |payload.value| <= 1_048_576
                  case _ => false)
  {
    assert items[..i + 1] == items[..i] + [items[i]];
    assert [items[i]][..0] == [];
    TotalBytesAdds(items[..i], [items[i]]);
  }

  /** The row carries the item's payload and key, in its queue, is due now, and passes the CHECKs. */
  ghost predicate Prepared(item: Item, queue: string, id: nat, now: Time, row: Row) {
    && item.encoded.Some? && row.payload == item.encoded.value && row.key == item.key
    && row.queue == queue && row.publicId == id && row.status == Queued && row.runAt == now && Checks(row)
  }

  /** The checks on one item, given the bytes before it. */
  method CheckItem(items: seq<Item>, i: nat, before: nat) returns (error: Option<PushError>, total: nat)
    requires i < |items| && before == TotalBytes(items[..i])
    ensures error == ItemError(items, i)
    ensures error.None? ==> total == TotalBytes(items[..i + 1]) <= MAX_BATCH_BYTES
  {
    var item := items[i];
    assert items[..i + 1][..i] == items[..i] && items[..i + 1][i] == item;
    total := before;
    if item.key.Some? && (|item.key.value| == 0 || |item.key.value| > MAX_KEY_LEN) {
      return Some(ConcurrencyKeyInvalid(i)), total;
    }
    if item.encoded.None? { return Some(if i == 0 then Codec else BatchCodec(i)), total; }
    var bytes := item.encoded.value;
    if |bytes| > MAX_PAYLOAD_BYTES { return Some(PayloadTooLarge(i)), total; }
    total := total + |bytes|;
    error := if total > MAX_BATCH_BYTES then Some(BatchPayloadTooLarge(total)) else None;
  }

  /** `push_batch` up to the INSERT: all items in input order, or the error of the first bad item; every row
      it would insert passes the schema's CHECKs. `ids` are the client-side uuids. */
  method PrepareBatch(queue: string, items: seq<Item>, ids: nat -> nat, now: Time) returns (r: Pushed)
    ensures !QueueOk(queue) ==> r == Refused(QueueNameInvalid)
    ensures QueueOk(queue) && items == [] ==> r == Refused(BatchEmpty)
    ensures QueueOk(queue) && |items| > 10_000 ==> r == Refused(BatchTooLarge)
    ensures r.Rows? ==>
              && |r.rows| == |items| && TotalBytes(items) <= MAX_BATCH_BYTES
              && forall i :: 0 <= i < |items| ==>
                   ItemError(items, i).None? && Prepared(items[i], queue, ids(i), now, r.rows[i])
    ensures r.Refused? && QueueOk(queue) && 0 < |items| <= 10_000 ==>
              exists i :: 0 <= i < |items| && ItemError(items, i) == Some(r.error)
                          && forall j :: 0 <= j < i ==> ItemError(items, j).None?
  {
    if |queue| == 0 || |queue| > MAX_QUEUE_LEN { return Refused(QueueNameInvalid); }
    if items == [] { return Refused(BatchEmpty); }
    if |items| > MAX_BATCH_SIZE { return Refused(BatchTooLarge); }
    var rows: seq<Row>, total := [], 0;
    for i := 0 to |items|
      invariant |rows| == i && total == TotalBytes(items[..i]) <= MAX_BATCH_BYTES
      invariant forall j :: 0 <= j < i ==> ItemError(items, j).None? && Prepared(items[j], queue, ids(j), now, rows[j])
    {
      var error;
      error, total := CheckItem(items, i, total);
      if error.Some? { return Refused(error.value); }
      rows := rows + [NewRow(ids(i), queue, items[i].key, items[i].encoded.value, None, now)];
    }
    assert items[..|items|] == items;
    r := Rows(rows);
  }
}
