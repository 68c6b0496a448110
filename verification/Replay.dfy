/** The replay cache: what was accepted once is refused until its time to live is over, whatever is trimmed meanwhile. */
module Replay {
  const CAPACITY: nat := 4096

  datatype Call<K> = Call(key: K, now: int, ttl: int)

  predicate Live<K>(entries: map<K, int>, key: K, now: int) { key in entries && entries[key] > now }

  function Unexpired<K>(entries: map<K, int>, now: int): map<K, int> {
    map k | k in entries && entries[k] > now :: entries[k]
  }

  function Next<K>(entries: map<K, int>, c: Call<K>, capacity: nat): map<K, int> {
    if Live(entries, c.key, c.now) then entries
    else
      var stored := entries[c.key := c.now + c.ttl];
      if |stored| > capacity then Unexpired(stored, c.now) else stored
  }

  class ReplayCache<K(==)> {
    var entries: map<K, int>

    constructor ()
      ensures entries == map[]
    {
      entries := map[];
    }

    method Remember(now: int, key: K, ttl: int) returns (accepted: bool)
      modifies this
      ensures accepted == !Live(old(entries), key, now)
      ensures entries == Next(old(entries), Call(key, now, ttl), CAPACITY)
    {
      if key in entries && entries[key] > now { return false; }
      entries := entries[key := now + ttl];
      if |entries| > CAPACITY {
        ghost var stored := entries;
        var rest := entries.Keys;
        while rest != {}
          invariant rest <= stored.Keys
          invariant forall k :: k in entries <==> k in stored && (k in rest || stored[k] > now)
          invariant forall k :: k in entries ==> entries[k] == stored[k]
          decreases |rest|
        {
          var k :| k in rest;
          if entries[k] <= now { entries := entries - {k}; }
          rest := rest - {k};
        }
      }
      return true;
    }
  }

  function After<K>(calls: seq<Call<K>>, capacity: nat): map<K, int> {
    if calls == [] then map[] else Next(After(calls[..|calls| - 1], capacity), calls[|calls| - 1], capacity)
  }

  predicate Accepted<K(==)>(calls: seq<Call<K>>, i: nat, capacity: nat)
    requires i < |calls|
  {
    !Live(After(calls[..i], capacity), calls[i].key, calls[i].now)
  }

  ghost predicate Ordered<K(!new)>(calls: seq<Call<K>>) {
    forall i, j :: 0 <= i < j < |calls| ==> calls[i].now <= calls[j].now
  }

  /** Some accepted call of the key is still live at the given time. */
  ghost predicate Blocked<K(!new)>(calls: seq<Call<K>>, key: K, now: int, capacity: nat) {
    exists j :: 0 <= j < |calls| && calls[j].key == key && Accepted(calls, j, capacity) && calls[j].now + calls[j].ttl > now
  }

  /** What the table says about a key is what the history of accepted calls says, at any time from the last call on. */
  lemma {:induction false} TableIsHistory<K(!new)>(calls: seq<Call<K>>, key: K, now: int, capacity: nat)
    requires Ordered(calls) && forall i :: 0 <= i < |calls| ==> calls[i].now <= now
    ensures Live(After(calls, capacity), key, now) <==> Blocked(calls, key, now, capacity)
  {
    if calls == [] {
    } else {
      var n := |calls| - 1;
      var before, c := calls[..n], calls[n];
      TableIsHistory(before, key, now, capacity);
      TableIsHistory(before, key, c.now, capacity);
      BlockedGrows(calls, key, now, capacity);
      hide Blocked;
    }
  }

  lemma BlockedGrows<K(!new)>(calls: seq<Call<K>>, key: K, now: int, capacity: nat)
    requires calls != []
    ensures var n := |calls| - 1;
            Blocked(calls, key, now, capacity) <==>
              Blocked(calls[..n], key, now, capacity) || (calls[n].key == key && Accepted(calls, n, capacity) && calls[n].now + calls[n].ttl > now)
  {
    hide After, Live;
    var n := |calls| - 1;
    var before := calls[..n];
    assert forall j :: 0 <= j < n ==> before[..j] == calls[..j];
    if Blocked(before, key, now, capacity) {
      var j :| 0 <= j < n && before[j].key == key && Accepted(before, j, capacity) && before[j].now + before[j].ttl > now;
      assert Accepted(calls, j, capacity);
    }
    forall j | 0 <= j < n && calls[j].key == key && Accepted(calls, j, capacity) && calls[j].now + calls[j].ttl > now
      ensures Blocked(before, key, now, capacity)
    {
      assert before[j] == calls[j] && Accepted(before, j, capacity);
    }
  }

  /**
   * A call is accepted exactly when no accepted call of the same key is still within its time to live;
   * so two accepted calls of one key are at least the first one's time to live apart. The capacity does not matter.
   */
  lemma AcceptedIsExact<K(!new)>(calls: seq<Call<K>>, i: nat, capacity: nat)
    requires Ordered(calls) && i < |calls|
    ensures Accepted(calls, i, capacity) <==>
            forall j :: 0 <= j < i && calls[j].key == calls[i].key && Accepted(calls, j, capacity) ==> calls[j].now + calls[j].ttl <= calls[i].now
  {
    var before := calls[..i];
    TableIsHistory(before, calls[i].key, calls[i].now, capacity);
    assert forall j :: 0 <= j < i ==> before[..j] == calls[..j];
    forall j | 0 <= j < i ensures Accepted(before, j, capacity) == Accepted(calls, j, capacity) && before[j] == calls[j] {}
  }

  /** Trimming is invisible: any two capacities give the same answers. */
  lemma {:induction false} CapacityIsInvisible<K(!new)>(calls: seq<Call<K>>, i: nat, capacity: nat, other: nat)
    requires Ordered(calls) && i < |calls|
    ensures Accepted(calls, i, capacity) == Accepted(calls, i, other)
    decreases i
  {
    AcceptedIsExact(calls, i, capacity);
    AcceptedIsExact(calls, i, other);
    forall j | 0 <= j < i ensures Accepted(calls, j, capacity) == Accepted(calls, j, other) {
      CapacityIsInvisible(calls, j, capacity, other);
    }
  }

  /** Room is made only when it is needed, and only by dropping what has expired. */
  lemma OnlyExpiredAreDropped<K>(entries: map<K, int>, c: Call<K>, capacity: nat, key: K)
    requires key in entries && key != c.key
    ensures var t := Next(entries, c, capacity);
            if key in t then t[key] == entries[key] else entries[key] <= c.now && |entries.Keys + {c.key}| > capacity
  {
    var stored := entries[c.key := c.now + c.ttl];
    assert stored.Keys == entries.Keys + {c.key} && |stored| == |stored.Keys|;
  }

  /** The memory is bounded: beyond the capacity there are only entries that were live when the last call was accepted. */
  lemma {:induction false} MemoryIsBounded<K(!new)>(calls: seq<Call<K>>, capacity: nat) returns (last: nat)
    requires |After(calls, capacity)| > capacity
    ensures last < |calls| && Accepted(calls, last, capacity)
    ensures forall i :: last < i < |calls| ==> !Accepted(calls, i, capacity)
    ensures forall k :: k in After(calls, capacity) ==> After(calls, capacity)[k] > calls[last].now
  {
    var n := |calls| - 1;
    var before := calls[..n];
    if Accepted(calls, n, capacity) {
      last := n;
      hide After;
    } else {
      last := MemoryIsBounded(before, capacity);
      hide Live, After;
      forall i | 0 <= i < n ensures Accepted(calls, i, capacity) == Accepted(before, i, capacity) {
        assert before[..i] == calls[..i];
      }
    }
  }
}
