/** The insertion-ordered LRU map, and the recency order it must agree with. */
module LruCache {
  import opened Common
  import opened Ordering

  /** Oldest entry first, keys distinct: the iteration order of the underlying Map. */
  type Entries<K, V> = seq<(K, V)>

  function Keys<K, V>(e: Entries<K, V>): (ks: seq<K>)
    ensures |ks| == |e|
  {
    seq(|e|, i requires 0 <= i < |e| => e[i].0)
  }

  function Lookup<K(==), V>(e: Entries<K, V>, k: K): Option<V> {
    if e == [] then None
    else if e[|e|-1].0 == k then Some(e[|e|-1].1)
    else Lookup(e[..|e|-1], k)
  }

  function Delete<K(==), V>(e: Entries<K, V>, k: K): Entries<K, V> {
    Filter((x: (K, V)) => x.0 != k, e)
  }

  function Got<K(==), V>(e: Entries<K, V>, k: K): Entries<K, V> {
    match Lookup(e, k)
    case None => e
    case Some(v) => Delete(e, k) + [(k, v)]
  }

  function Stored<K(==), V>(e: Entries<K, V>, capacity: nat, k: K, v: V): Entries<K, V> {
    var room :=
      if Lookup(e, k).Some? then Delete(e, k)
      else if |e| >= capacity && e != [] then e[1..]
      else e;
    room + [(k, v)]
  }

  class LRUCache<K(==), V> {
    const capacity: nat
    var entries: Entries<K, V>

    constructor (capacity: nat)
      requires capacity >= 1
      ensures this.capacity == capacity && entries == []
    {
      this.capacity, entries := capacity, [];
    }

    method Get(k: K) returns (v: Option<V>)
      modifies this
      ensures v == Lookup(old(entries), k) && entries == Got(old(entries), k)
    {
      v := Lookup(entries, k);
      if v.Some? {
        entries := Delete(entries, k);
        entries := entries + [(k, v.value)];
      }
    }

    method Set(k: K, v: V)
      modifies this
      ensures entries == Stored(old(entries), capacity, k, v)
    {
      if Lookup(entries, k).Some? {
        entries := Delete(entries, k);
      } else if |entries| >= capacity && entries != [] {
        entries := entries[1..];
      }
      entries := entries + [(k, v)];
    }
  }

  // ------------------------------------------------------------ key-level view

  /** What a use of `k`, hit or miss, does to the keys. */
  function Touched<K(==)>(keys: seq<K>, capacity: nat, k: K): seq<K> {
    if k in keys then Drop(keys, k) + [k]
    else if |keys| >= capacity && keys != [] then keys[1..] + [k]
    else keys + [k]
  }

  lemma {:induction false} LookupFinds<K, V>(e: Entries<K, V>, k: K)
    ensures Lookup(e, k).Some? <==> k in Keys(e)
    ensures Lookup(e, k).Some? ==> (k, Lookup(e, k).value) in e
  {
    if e != [] {
      var front := e[..|e|-1];
      LookupFinds(front, k);
      assert Keys(e) == Keys(front) + [e[|e|-1].0];
    }
  }

  /** What was stored is found. */
  lemma {:induction false} StoredIsFound<K, V>(e: Entries<K, V>, capacity: nat, k: K, v: V)
    ensures Lookup(Stored(e, capacity, k, v), k) == Some(v)
  {
  }

  lemma {:induction false} DeleteKeys<K, V>(e: Entries<K, V>, k: K)
    ensures Keys(Delete(e, k)) == Drop(Keys(e), k)
  {
    if e != [] {
      var front, last := e[..|e|-1], e[|e|-1];
      DeleteKeys(front, k);
      assert Keys(e) == Keys(front) + [last.0];
      FilterSnoc((x: K) => x != k, Keys(front), last.0);
      assert last.0 != k ==> Keys(Delete(front, k) + [last]) == Keys(Delete(front, k)) + [last.0];
    }
  }

  lemma KeysSnoc<K, V>(e: Entries<K, V>, k: K, v: V)
    ensures Keys(e + [(k, v)]) == Keys(e) + [k]
  {
  }

  lemma {:induction false} DeleteElems<K, V>(e: Entries<K, V>, k: K, x: (K, V))
    requires x in Delete(e, k)
    ensures x in e
  {
    FilterElems((y: (K, V)) => y.0 != k, e, x);
  }

  function Refreshed<K(==)>(keys: seq<K>, k: K): seq<K> {
    if k in keys then Drop(keys, k) + [k] else keys
  }

  lemma GetRefreshes<K, V>(e: Entries<K, V>, k: K)
    ensures Keys(Got(e, k)) == Refreshed(Keys(e), k)
  {
    LookupFinds(e, k);
    DeleteKeys(e, k);
    if Lookup(e, k).Some? {
      KeysSnoc(Delete(e, k), k, Lookup(e, k).value);
    }
  }

  lemma SetTouches<K, V>(e: Entries<K, V>, capacity: nat, k: K, v: V)
    ensures Keys(Stored(e, capacity, k, v)) == Touched(Keys(e), capacity, k)
  {
    LookupFinds(e, k);
    DeleteKeys(e, k);
    if Lookup(e, k).Some? {
      KeysSnoc(Delete(e, k), k, v);
    } else if |e| >= capacity && e != [] {
      assert Keys(e[1..]) == Keys(e)[1..];
      KeysSnoc(e[1..], k, v);
    } else {
      KeysSnoc(e, k, v);
    }
  }

  // -------------------------------------------------------- agreement with LRU

  /** Distinct keys of the history, least recently used first. */
  function Recency<K(==)>(history: seq<K>): seq<K> {
    if history == [] then []
    else Drop(Recency(history[..|history|-1]), history[|history|-1]) + [history[|history|-1]]
  }

  function Cached<K(==)>(history: seq<K>, capacity: nat): seq<K> {
    if history == [] then [] else Touched(Cached(history[..|history|-1], capacity), capacity, history[|history|-1])
  }

  /** `keys` are the last `capacity` of `all`, or all of them. */
  ghost predicate IsTail<K>(keys: seq<K>, all: seq<K>, capacity: nat) {
    && |keys| <= capacity && |keys| <= |all|
    && keys == all[|all|-|keys|..]
    && (|keys| == capacity || |keys| == |all|)
  }

  lemma {:induction false} DropOnce<K>(s: seq<K>, k: K)
    requires Distinct(s) && k in s
    ensures |Drop(s, k)| == |s| - 1
  {
    var front, last := s[..|s|-1], s[|s|-1];
    if last == k {
      assert k !in front;
      DropAbsent(front, k);
    } else {
      DropOnce(front, k);
    }
  }

  lemma {:induction false} DropDistinct<K>(s: seq<K>, k: K)
    requires Distinct(s)
    ensures Distinct(Drop(s, k) + [k])
  {
    if s != [] {
      var front, last := s[..|s|-1], s[|s|-1];
      DropDistinct(front, k);
      var d := Drop(front, k);
      assert Distinct(d) by {
        forall i, j | 0 <= i < j < |d| ensures d[i] != d[j] {
          assert (d + [k])[i] != (d + [k])[j];
        }
      }
      forall i | 0 <= i < |d| ensures d[i] != last && d[i] != k {
        FilterElems((x: K) => x != k, front, d[i]);
      }
    } else {
      assert Drop(s, k) + [k] == [k];
    }
  }

  lemma {:induction false} RecencyDistinct<K>(history: seq<K>)
    ensures Distinct(Recency(history))
  {
    if history != [] {
      RecencyDistinct(history[..|history|-1]);
      DropDistinct(Recency(history[..|history|-1]), history[|history|-1]);
    }
  }

  lemma TailConcat<K>(evicted: seq<K>, keys: seq<K>, capacity: nat)
    requires |keys| <= capacity && (|keys| == capacity || evicted == [])
    ensures IsTail(keys, evicted + keys, capacity)
  {
  }

  lemma {:induction false} HitKeepsTail<K>(evicted: seq<K>, keys: seq<K>, capacity: nat, k: K)
    requires Distinct(evicted + keys) && k in keys && |keys| <= capacity && (|keys| == capacity || evicted == [])
    ensures IsTail(Drop(keys, k) + [k], Drop(evicted + keys, k) + [k], capacity)
  {
    TailDistinct(evicted, keys, k);
    FilterConcat((x: K) => x != k, evicted, keys);
    DropAbsent(evicted, k);
    DropOnce(keys, k);
    TailConcat(evicted, Drop(keys, k) + [k], capacity);
    assert Drop(evicted + keys, k) + [k] == evicted + (Drop(keys, k) + [k]);
  }

  lemma {:induction false} EvictKeepsTail<K>(evicted: seq<K>, keys: seq<K>, capacity: nat, k: K)
    requires k !in keys && |keys| == capacity && capacity >= 1
    ensures IsTail(keys[1..] + [k], Drop(evicted + keys, k) + [k], capacity)
  {
    FilterConcat((x: K) => x != k, evicted, keys);
    DropAbsent(keys, k);
    var past := Drop(evicted, k);
    TailConcat(past + [keys[0]], keys[1..] + [k], capacity);
    Regroup(past, keys, k);
  }

  lemma Regroup<K>(past: seq<K>, keys: seq<K>, k: K)
    requires keys != []
    ensures past + keys + [k] == (past + [keys[0]]) + (keys[1..] + [k])
  {
  }

  lemma {:induction false} GrowKeepsTail<K>(keys: seq<K>, capacity: nat, k: K)
    requires k !in keys && |keys| < capacity
    ensures IsTail(keys + [k], Drop(keys, k) + [k], capacity)
  {
    DropAbsent(keys, k);
    TailConcat([], keys + [k], capacity);
    assert [] + (keys + [k]) == keys + [k];
  }

  lemma {:induction false} TouchKeepsTail<K>(keys: seq<K>, all: seq<K>, capacity: nat, k: K)
    requires IsTail(keys, all, capacity) && Distinct(all) && capacity >= 1
    ensures IsTail(Touched(keys, capacity, k), Drop(all, k) + [k], capacity)
  {
    var evicted := all[..|all|-|keys|];
    assert all == evicted + keys;
    if k in keys {
      HitKeepsTail(evicted, keys, capacity, k);
    } else if |keys| >= capacity {
      EvictKeepsTail(evicted, keys, capacity, k);
    } else {
      assert keys == all;
      GrowKeepsTail(keys, capacity, k);
    }
  }

  lemma TailDistinct<K>(evicted: seq<K>, keys: seq<K>, k: K)
    requires Distinct(evicted + keys) && k in keys
    ensures k !in evicted && Distinct(keys)
  {
    var j :| 0 <= j < |keys| && keys[j] == k;
    forall i | 0 <= i < |evicted| ensures evicted[i] != k {
      assert (evicted + keys)[i] == evicted[i] && (evicted + keys)[|evicted| + j] == k;
    }
    forall i, m | 0 <= i < m < |keys| ensures keys[i] != keys[m] {
      assert (evicted + keys)[|evicted| + i] == keys[i] && (evicted + keys)[|evicted| + m] == keys[m];
    }
  }

  /** After any sequence of uses the cache holds exactly the `capacity` most recently used distinct keys. */
  lemma {:induction false} HoldsMostRecent<K>(history: seq<K>, capacity: nat)
    requires capacity >= 1
    ensures IsTail(Cached(history, capacity), Recency(history), capacity)
  {
    if history != [] {
      var front := history[..|history|-1];
      HoldsMostRecent(front, capacity);
      RecencyDistinct(front);
      TouchKeepsTail(Cached(front, capacity), Recency(front), capacity, history[|history|-1]);
    }
  }

  /** A larger cache holds everything a smaller one holds. */
  lemma {:induction false} Inclusion<K>(history: seq<K>, small: nat, large: nat, k: K)
    requires 1 <= small <= large && k in Cached(history, small)
    ensures k in Cached(history, large)
  {
    HoldsMostRecent(history, small);
    HoldsMostRecent(history, large);
    TailsInclude(Cached(history, small), Cached(history, large), Recency(history), small, large, k);
  }

  lemma TailsInclude<K>(s: seq<K>, l: seq<K>, all: seq<K>, small: nat, large: nat, k: K)
    requires IsTail(s, all, small) && IsTail(l, all, large) && small <= large && k in s
    ensures k in l
  {
    assert |s| <= |l|;
    TailsNest(s, l, all, k);
  }

  lemma TailsNest<K>(s: seq<K>, l: seq<K>, all: seq<K>, k: K)
    requires |s| <= |l| <= |all| && s == all[|all|-|s|..] && l == all[|all|-|l|..] && k in s
    ensures k in l
  {
    var i :| 0 <= i < |s| && s[i] == k;
    assert l[|l| - |s| + i] == all[|all| - |s| + i] == s[i];
  }

  function Misses<K(==)>(history: seq<K>, capacity: nat): nat {
    if history == [] then 0
    else
      var front, last := history[..|history|-1], history[|history|-1];
      Misses(front, capacity) + (if last in Cached(front, capacity) then 0 else 1)
  }

  /** So growing the cache costs no provider call, as long as each use is over before the next begins. */
  lemma {:induction false} GrowingNeverHurts<K>(history: seq<K>, small: nat, large: nat)
    requires 1 <= small <= large
    ensures Misses(history, large) <= Misses(history, small)
  {
    if history != [] {
      var front, last := history[..|history|-1], history[|history|-1];
      GrowingNeverHurts(front, small, large);
      if last in Cached(front, small) {
        Inclusion(front, small, large, last);
      }
    }
  }
}
