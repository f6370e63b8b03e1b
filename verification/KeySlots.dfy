/** `KeySlotGuard`: one slot of the per-key live-task counter, taken on spawn and returned on drop. */
module KeySlots {
  import opened Jobs
  import opened Protocol

  /** The guard; `NoSlot` for jobs without a configured key. */
  datatype Guard = NoSlot | Slot(key: Key)

  /** u32 `saturating_add(1)` and `saturating_sub(1)`. */
  function SatInc(n: nat): nat { if n >= U32_MAX then U32_MAX else n + 1 }

  function SatDec(n: nat): nat { if n == 0 then 0 else n - 1 }

  function CountOf(counts: map<Key, nat>, k: Key): nat { if k in counts then counts[k] else 0 }

  function Acquired(counts: map<Key, nat>, k: Key): map<Key, nat> {
    counts[k := SatInc(CountOf(counts, k))]
  }

  function Dropped(counts: map<Key, nat>, g: Guard): map<Key, nat> {
    if g.Slot? && g.key in counts then counts[g.key := SatDec(counts[g.key])] else counts
  }

  /** The shared map behind the mutex. */
  class Counter {
    var counts: map<Key, nat>

    /** Every configured key starts at zero. */
    constructor (keys: set<Key>)
      ensures counts == map k | k in keys :: 0
    {
      counts := map k | k in keys :: 0;
    }

    method Acquire(key: Key) returns (g: Guard)
      modifies this
      ensures counts == Acquired(old(counts), key) && g == Slot(key)
      ensures CountOf(counts, key) == Min(CountOf(old(counts), key) + 1, 0xFFFF_FFFF)
      ensures forall k :: k != key ==> CountOf(counts, k) == CountOf(old(counts), k)
    {
      var n := 0;
      if key in counts { n := counts[key]; }
      counts := counts[key := SatInc(n)];
      g := Slot(key);
    }

    method Drop(g: Guard)
      modifies this
      ensures counts == Dropped(old(counts), g)
      ensures g.Slot? ==> CountOf(counts, g.key) == Max(CountOf(old(counts), g.key) - 1, 0)
      ensures forall k :: g != Slot(k) ==> CountOf(counts, k) == CountOf(old(counts), k)
    {
      if g.Slot? {
        if g.key in counts { counts := counts[g.key := SatDec(counts[g.key])]; }
      }
    }
  }
}
