// The bounded in-memory cache of recently created outputs.
module RecentCache {
  import opened Wrappers
  import opened UndoCodec
  import opened UtxoSpec

  const CACHE_ENTRY_COST: nat := 112

  predicate Fits(entries: Utxos, budgetBytes: nat) {
    |entries| * CACHE_ENTRY_COST <= budgetBytes
  }

  /** Entries and queue after evicting from the front of the queue until the budget is met. */
  function Evicted(entries: Utxos, order: seq<Key>, budgetBytes: nat): (Utxos, seq<Key>)
    decreases |order|
  {
    if Fits(entries, budgetBytes) || |order| == 0 then (entries, order)
    else Evicted(entries - {order[0]}, order[1..], budgetBytes)
  }

  predicate Queued(entries: Utxos, order: seq<Key>) {
    forall k :: k in entries ==> k in order
  }

  predicate SubMap(small: Utxos, big: Utxos) {
    forall k :: k in small ==> k in big && small[k] == big[k]
  }

  /** The entries left when the `n` oldest queue positions are dropped. */
  function DropOldest(entries: Utxos, order: seq<Key>, n: nat): (r: Utxos)
    requires n <= |order|
    ensures SubMap(r, entries)
    ensures forall i :: 0 <= i < n ==> order[i] !in r
  {
    if n == 0 then entries else DropOldest(entries - {order[0]}, order[1..], n - 1)
  }

  /**
   * Eviction meets the budget, drops exactly a prefix of the queue, and stops as soon
   * as the budget is met; keys already spent are skipped over.
   */
  lemma {:induction false} EvictionMeetsBudget(entries: Utxos, order: seq<Key>, budgetBytes: nat) returns (n: nat)
    requires Queued(entries, order)
    ensures n <= |order|
    ensures var (e, o) := Evicted(entries, order, budgetBytes);
            Fits(e, budgetBytes) && Queued(e, o) && e == DropOldest(entries, order, n) && o == order[n..]
    ensures forall m :: 0 <= m < n ==> !Fits(DropOldest(entries, order, m), budgetBytes)
  {
    hide Fits;
    hide DropOldest;
    n := 0;
    NoneDropped(entries, order);
    if |order| == 0 {
      NothingFits(entries, order, budgetBytes);
    } else if !Fits(entries, budgetBytes) {
      QueuedTail(entries, order);
      var m := EvictionMeetsBudget(entries - {order[0]}, order[1..], budgetBytes);
      n := m + 1;
      forall k | 0 < k <= n
        ensures DropOldest(entries, order, k) == DropOldest(entries - {order[0]}, order[1..], k - 1)
      {
        OneDropped(entries, order, k);
      }
      assert order[1..][m..] == order[n..];
    }
  }

  lemma {:induction false} NoneDropped(entries: Utxos, order: seq<Key>)
    ensures DropOldest(entries, order, 0) == entries
  {
  }

  lemma OneDropped(entries: Utxos, order: seq<Key>, n: nat)
    requires 0 < n <= |order|
    ensures DropOldest(entries, order, n) == DropOldest(entries - {order[0]}, order[1..], n - 1)
  {
  }

  lemma QueuedTail(entries: Utxos, order: seq<Key>)
    requires Queued(entries, order) && |order| > 0
    ensures Queued(entries - {order[0]}, order[1..])
  {
    assert order == [order[0]] + order[1..];
  }

  lemma NothingFits(entries: Utxos, order: seq<Key>, budgetBytes: nat)
    requires Queued(entries, order) && |order| == 0
    ensures Fits(entries, budgetBytes)
  {
    assert entries == map[];
  }

  class RecentUtxoCache {
    var entries: Utxos
    var order: seq<Key>   // creation order, oldest first; may hold keys already spent
    const budgetBytes: nat
    var hits: nat
    var misses: nat

    predicate Valid()
      reads this
    {
      Queued(entries, order) && Fits(entries, budgetBytes)
    }

    constructor (budgetBytes: nat)
      ensures Valid() && entries == map[] && order == [] && hits == 0 && misses == 0
      ensures this.budgetBytes == budgetBytes
    {
      this.budgetBytes := budgetBytes;
      entries, order := map[], [];
      hits, misses := 0, 0;
    }

    method EvictToBudget()
      requires Queued(entries, order)
      modifies this`entries, this`order
      ensures Valid() && SubMap(entries, old(entries)) && |entries| * 112 <= budgetBytes
      ensures (entries, order) == Evicted(old(entries), old(order), budgetBytes)
    {
      while !Fits(entries, budgetBytes)
        invariant Queued(entries, order) && SubMap(entries, old(entries))
        invariant Evicted(entries, order, budgetBytes) == Evicted(old(entries), old(order), budgetBytes)
        decreases |order|
      {
        if |order| == 0 { break; }
        assert order == [order[0]] + order[1..];
        entries, order := entries - {order[0]}, order[1..];
      }
      assert |order| == 0 ==> entries == map[];
    }

    /** A present key is refreshed in place; a new one is queued and the budget enforced. */
    method Insert(key: Key, val: UtxoValue)
      requires Valid()
      modifies this`entries, this`order
      ensures Valid() && SubMap(entries, old(entries)[key := val]) && |entries| * 112 <= budgetBytes
      ensures key in old(entries) ==> entries == old(entries)[key := val] && order == old(order)
      ensures key !in old(entries) ==>
        (entries, order) == Evicted(old(entries)[key := val], old(order) + [key], budgetBytes)
    {
      var isNew := key !in entries;
      entries := entries[key := val];
      if isNew {
        order := order + [key];
        EvictToBudget();
      } else {
        assert entries.Keys == old(entries).Keys;
        assert |entries| == |entries.Keys| && |old(entries)| == |old(entries).Keys|;
      }
    }

    method Remove(key: Key) returns (r: Option<UtxoValue>)
      requires Valid()
      modifies this`entries, this`hits, this`misses
      ensures Valid() && entries == old(entries) - {key} && |entries| <= |old(entries)|
      ensures r == if key in old(entries) then Some(old(entries)[key]) else None
      ensures hits == old(hits) + (if r.Some? then 1 else 0)
      ensures misses == old(misses) + (if r.None? then 1 else 0)
    {
      if key in entries {
        r := Some(entries[key]);
        entries := entries - {key};
        hits := hits + 1;
        assert entries.Keys == old(entries).Keys - {key};
        assert |entries| == |entries.Keys| && |old(entries)| == |old(entries).Keys|;
      } else {
        r := None;
        misses := misses + 1;
        assert entries == old(entries) - {key};
      }
    }
  }
}
