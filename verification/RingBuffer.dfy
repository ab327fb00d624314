/** The pruning scheme that both light clients use: a ring of the imported keys, and a map of
    the imported items from which the key that the ring overwrites is removed. */
module RingBuffer {
  import opened SetSizes

  datatype Ring<!K(==), V> = Ring(slots: map<nat, K>, next: nat, items: map<K, V>)

  function Empty<K(==), V>(): Ring<K, V> {
    Ring(map[], 0, map[])
  }

  function Insert<K(==), V>(size: nat, ring: Ring<K, V>, key: K, value: V): Ring<K, V>
    requires 0 < size
  {
    var items := ring.items[key := value];
    Ring(ring.slots[ring.next := key], (ring.next + 1) % size,
         if ring.next in ring.slots then items - {ring.slots[ring.next]} else items)
  }

  function InsertAll<K(==), V>(size: nat, entries: seq<(K, V)>): Ring<K, V>
    requires 0 < size
  {
    if entries == [] then Empty()
    else
      var (key, value) := entries[|entries| - 1];
      Insert(size, InsertAll(size, entries[..|entries| - 1]), key, value)
  }

  // ---------- Any keys

  /** The ring stays within its size, and only keys that it still names have an item. */
  ghost predicate Bounded<K, V>(size: nat, ring: Ring<K, V>) {
    && ring.next < size
    && (forall i :: i in ring.slots ==> i < size)
    && ring.items.Keys <= ring.slots.Values
  }

  /** Inserting anything keeps the bound; the inserted item is there unless its own key was the
      one that the ring overwrote. */
  lemma InsertBounded<K, V>(size: nat, ring: Ring<K, V>, key: K, value: V)
    requires Bounded(size, ring)
    ensures
      var after := Insert(size, ring, key, value);
      && Bounded(size, after)
      && (key in after.items <==> !(ring.next in ring.slots && ring.slots[ring.next] == key))
      && (key in after.items ==> after.items[key] == value)
      && forall other :: other in ring.items && other != key ==>
           (other in after.items <==> !(ring.next in ring.slots && ring.slots[ring.next] == other))
  {
    var after := Insert(size, ring, key, value);
    assert after.slots[ring.next] == key;
    forall k | k in after.items
      ensures k in after.slots.Values
    {
      if k != key {
        var i :| i in ring.slots && ring.slots[i] == k;
        assert after.slots[i] == k;
      }
    }
  }

  /** A bounded ring never holds more items than its size. */
  lemma ItemsAtMostSize<K, V>(size: nat, ring: Ring<K, V>)
    requires Bounded(size, ring)
    ensures |ring.items| <= size
  {
    SubsetSize(ring.items.Keys, ring.slots.Values);
    BelowSize(ring.slots.Keys, size);
  }

  // ---------- Keys that do not repeat

  /** The slot of the `n`-th insertion. */
  ghost function Slot(n: nat, size: nat): (r: nat)
    requires 0 < size
    ensures r < size
  {
    if n == 0 || Slot(n - 1, size) + 1 == size then 0 else Slot(n - 1, size) + 1
  }

  lemma NextSlot(slot: nat, size: nat)
    requires slot < size
    ensures (slot + 1) % size == if slot + 1 == size then 0 else slot + 1
  {
  }

  lemma {:induction false} SlotAhead(n: nat, ahead: nat, size: nat)
    requires 0 < size && ahead <= size
    ensures
      var s := Slot(n, size) + ahead;
      Slot(n + ahead, size) == if s < size then s else s - size
  {
    if 0 < ahead {
      SlotAhead(n, ahead - 1, size);
    }
  }

  ghost predicate DistinctKeys<K(!new), V(!new)>(entries: seq<(K, V)>) {
    forall i, j :: 0 <= i < j < |entries| ==> entries[i].0 != entries[j].0
  }

  /** A key always comes with the same value. */
  ghost predicate Functional<K(!new), V(!new)>(entries: seq<(K, V)>) {
    forall i, j :: 0 <= i < j < |entries| && entries[i].0 == entries[j].0 ==> entries[i].1 == entries[j].1
  }

  /** The key of entry `i` comes again before the ring has gone round. */
  ghost predicate ComesAgain<K(!new), V(!new)>(entries: seq<(K, V)>, i: nat, size: nat) {
    i < |entries| && exists j :: i < j <= i + size && j < |entries| && entries[j].0 == entries[i].0
  }

  ghost function Oldest(n: nat, size: nat): nat {
    if n <= size then 0 else n - size
  }

  /** The items are exactly the last `size` of the entries. */
  ghost predicate HoldsLast<K, V>(size: nat, items: map<K, V>, entries: seq<(K, V)>) {
    && (forall j :: Oldest(|entries|, size) <= j < |entries| ==>
          entries[j].0 in items && items[entries[j].0] == entries[j].1)
    && (forall key :: key in items ==> exists j :: Oldest(|entries|, size) <= j < |entries| && entries[j].0 == key)
  }

  ghost predicate SlotsHoldLast<K, V>(size: nat, slots: map<nat, K>, next: nat, entries: seq<(K, V)>)
    requires 0 < size
  {
    && next == Slot(|entries|, size)
    && (forall j :: Oldest(|entries|, size) <= j < |entries| ==>
          Slot(j, size) in slots && slots[Slot(j, size)] == entries[j].0)
    && (forall i :: i in slots ==> exists j :: Oldest(|entries|, size) <= j < |entries| && Slot(j, size) == i)
  }

  lemma SlotsInWindow(j: nat, n: nat, size: nat)
    requires 0 < size && j < n <= j + size
    ensures Slot(j, size) == Slot(n, size) <==> n == j + size
  {
    SlotAhead(j, n - j, size);
  }

  /** The insertion overwrites a key exactly when the ring is full, and then the oldest one. */
  lemma Overwrites<K(!new), V(!new)>(size: nat, slots: map<nat, K>, next: nat, entries: seq<(K, V)>)
    requires 0 < size && SlotsHoldLast(size, slots, next, entries)
    ensures next in slots <==> size <= |entries|
    ensures size <= |entries| ==> slots[next] == entries[|entries| - size].0
  {
    var n := |entries|;
    if size <= n {
      SlotsInWindow(n - size, n, size);
      assert Slot(n - size, size) in slots;
    }
    if next in slots {
      var j :| Oldest(n, size) <= j < n && Slot(j, size) == next;
      SlotsInWindow(j, n, size);
    }
  }

  lemma SlotsStep<K(!new), V(!new)>(
    size: nat, slots: map<nat, K>, next: nat, before: seq<(K, V)>, key: K, value: V)
    requires 0 < size && SlotsHoldLast(size, slots, next, before)
    ensures SlotsHoldLast(size, slots[next := key], Slot(|before| + 1, size), before + [(key, value)])
  {
    var n := |before|;
    var entries, after := before + [(key, value)], slots[next := key];
    forall j | Oldest(n + 1, size) <= j < n + 1
      ensures Slot(j, size) in after && after[Slot(j, size)] == entries[j].0
    {
      if j < n {
        SlotsInWindow(j, n, size);
        assert Slot(j, size) in slots && entries[j] == before[j];
      }
    }
    forall i | i in after
      ensures exists j :: Oldest(n + 1, size) <= j < n + 1 && Slot(j, size) == i
    {
      if i == next {
        assert Slot(n, size) == i;
      } else {
        var j :| Oldest(n, size) <= j < n && Slot(j, size) == i;
        if j < Oldest(n + 1, size) {
          SlotsInWindow(j, n, size);
        }
      }
    }
  }

  /** One insertion: the items are still the last ones if and only if the key that the ring overwrites
      has not come again. */
  lemma ItemsStep<K(!new), V(!new)>(size: nat, items: map<K, V>, before: seq<(K, V)>, key: K, value: V)
    requires 0 < size && HoldsLast(size, items, before)
    requires Functional(before + [(key, value)])
    ensures
      var n, entries, added := |before|, before + [(key, value)], items[key := value];
      HoldsLast(size, if size <= n then added - {before[n - size].0} else added, entries) <==>
        !(size <= n && ComesAgain(entries, n - size, size))
  {
    var n := |before|;
    var entries, added := before + [(key, value)], items[key := value];
    var after := if size <= n then added - {before[n - size].0} else added;
    assert forall j :: 0 <= j < n ==> entries[j] == before[j];
    assert entries[n] == (key, value);
    if size <= n && ComesAgain(entries, n - size, size) {
      var j :| n - size < j <= n && entries[j].0 == entries[n - size].0;
      assert entries[j].0 !in after;
    } else {
      LastOnesStay(size, items, before, key, value);
      ForeignKeysGo(size, items, before, key, value);
    }
  }

  lemma LastOnesStay<K(!new), V(!new)>(size: nat, items: map<K, V>, before: seq<(K, V)>, key: K, value: V)
    requires 0 < size && HoldsLast(size, items, before) && Functional(before + [(key, value)])
    requires size <= |before| ==> !ComesAgain(before + [(key, value)], |before| - size, size)
    ensures
      var n, entries, added := |before|, before + [(key, value)], items[key := value];
      var after := if size <= n then added - {before[n - size].0} else added;
      forall j :: Oldest(n + 1, size) <= j < n + 1 ==> entries[j].0 in after && after[entries[j].0] == entries[j].1
  {
    var n := |before|;
    var entries, added := before + [(key, value)], items[key := value];
    var after := if size <= n then added - {before[n - size].0} else added;
    forall j | Oldest(n + 1, size) <= j < n + 1
      ensures entries[j].0 in after && after[entries[j].0] == entries[j].1
    {
      assert size <= n ==> entries[n - size].0 != entries[j].0;
      if j < n {
        assert entries[j] == before[j] && before[j].0 in items;
        assert entries[j].0 == entries[n].0 ==> entries[j].1 == entries[n].1;
      }
    }
  }

  lemma ForeignKeysGo<K(!new), V(!new)>(size: nat, items: map<K, V>, before: seq<(K, V)>, key: K, value: V)
    requires 0 < size && HoldsLast(size, items, before)
    ensures
      var n, entries, added := |before|, before + [(key, value)], items[key := value];
      var after := if size <= n then added - {before[n - size].0} else added;
      forall k :: k in after ==> exists j :: Oldest(n + 1, size) <= j < n + 1 && entries[j].0 == k
  {
    var n := |before|;
    var entries, added := before + [(key, value)], items[key := value];
    var after := if size <= n then added - {before[n - size].0} else added;
    forall k | k in after
      ensures exists j :: Oldest(n + 1, size) <= j < n + 1 && entries[j].0 == k
    {
      if k == key {
        assert entries[n].0 == k;
      } else {
        var j :| Oldest(n, size) <= j < n && before[j].0 == k;
        assert entries[j].0 == k && Oldest(n + 1, size) <= j;
      }
    }
  }

  lemma InsertStep<K(!new), V(!new)>(size: nat, ring: Ring<K, V>, before: seq<(K, V)>, key: K, value: V)
    requires 0 < size && SlotsHoldLast(size, ring.slots, ring.next, before)
    ensures
      var after := Insert(size, ring, key, value);
      && SlotsHoldLast(size, after.slots, after.next, before + [(key, value)])
      && after.items == if size <= |before| then ring.items[key := value] - {before[|before| - size].0}
                        else ring.items[key := value]
  {
    NextSlot(ring.next, size);
    assert (ring.next + 1) % size == Slot(|before| + 1, size);
    SlotsStep(size, ring.slots, ring.next, before, key, value);
    Overwrites(size, ring.slots, ring.next, before);
  }

  /** Whatever is inserted, the slots hold the keys of the last `size` entries. */
  lemma {:induction false} SlotsAlwaysHoldLast<K(!new), V(!new)>(size: nat, entries: seq<(K, V)>)
    requires 0 < size
    ensures SlotsHoldLast(size, InsertAll(size, entries).slots, InsertAll(size, entries).next, entries)
  {
    if entries != [] {
      var before := entries[..|entries| - 1];
      var (key, value) := entries[|entries| - 1];
      assert entries == before + [(key, value)];
      SlotsAlwaysHoldLast(size, before);
      InsertStep(size, InsertAll(size, before), before, key, value);
    }
  }

  /** The items are the last ones, now and after every beginning of the entries. */
  ghost predicate AlwaysHoldsLast<K(!new), V(!new)>(size: nat, entries: seq<(K, V)>)
    requires 0 < size
  {
    && HoldsLast(size, InsertAll(size, entries).items, entries)
    && (entries != [] ==> AlwaysHoldsLast(size, entries[..|entries| - 1]))
  }

  /** No key comes again before the ring has gone round, as far as it has. */
  ghost predicate NoEarlyRepeat<K(!new), V(!new)>(size: nat, entries: seq<(K, V)>) {
    forall i: nat :: i + size < |entries| ==> !ComesAgain(entries, i, size)
  }

  lemma NoEarlyRepeatStep<K(!new), V(!new)>(size: nat, before: seq<(K, V)>, entry: (K, V))
    requires 0 < size
    ensures
      var n, entries := |before|, before + [entry];
      NoEarlyRepeat(size, entries) <==>
        NoEarlyRepeat(size, before) && !(size <= n && ComesAgain(entries, n - size, size))
  {
    var n, entries := |before|, before + [entry];
    forall i: nat | i + size < n
      ensures ComesAgain(entries, i, size) <==> ComesAgain(before, i, size)
    {
      if ComesAgain(before, i, size) {
        var j :| i < j <= i + size && j < n && before[j].0 == before[i].0;
        assert entries[j].0 == entries[i].0;
      }
      if ComesAgain(entries, i, size) {
        var j :| i < j <= i + size && j < n + 1 && entries[j].0 == entries[i].0;
        assert before[j].0 == before[i].0;
      }
    }
  }

  /** Keeping the last `size` entries: the pruning scheme always holds exactly the last `size` entries,
      the newest included, if and only if no key comes again before the ring has gone round. */
  lemma {:induction false} KeepsLastExactly<K(!new), V(!new)>(size: nat, entries: seq<(K, V)>)
    requires 0 < size && Functional(entries)
    ensures AlwaysHoldsLast(size, entries) <==> NoEarlyRepeat(size, entries)
  {
    if entries != [] {
      var before := entries[..|entries| - 1];
      var (key, value) := entries[|entries| - 1];
      assert entries == before + [(key, value)];
      KeepsLastExactly(size, before);
      SlotsAlwaysHoldLast(size, before);
      InsertStep(size, InsertAll(size, before), before, key, value);
      NoEarlyRepeatStep(size, before, (key, value));
      assert AlwaysHoldsLast(size, before) ==> HoldsLast(size, InsertAll(size, before).items, before);
      if HoldsLast(size, InsertAll(size, before).items, before) {
        ItemsStep(size, InsertAll(size, before).items, before, key, value);
      }
    }
  }

  /** So with keys that do not repeat it holds exactly the last entries. */
  lemma KeepsLast<K(!new), V(!new)>(size: nat, entries: seq<(K, V)>)
    requires 0 < size && DistinctKeys(entries)
    ensures HoldsLast(size, InsertAll(size, entries).items, entries)
  {
    KeepsLastExactly(size, entries);
  }
}
