/** Batches over an LRU cache: hits are refreshed first and misses stored later, which bounds what growing can promise. */
module BatchedLru {
  import opened Common
  import opened Ordering
  import opened LruCache

  // ----------------------------------------------------------- one batch, by key

  /** First pass over a batch: every hit is refreshed. */
  function RefreshAll<K(==)>(keys: seq<K>, ks: seq<K>): seq<K> {
    if ks == [] then keys else Refreshed(RefreshAll(keys, ks[..|ks|-1]), ks[|ks|-1])
  }

  /** The keys the first pass did not find. */
  function Missed<K(==)>(keys: seq<K>, ks: seq<K>): seq<K> {
    if ks == [] then []
    else
      var front, k := ks[..|ks|-1], ks[|ks|-1];
      Missed(keys, front) + (if k in RefreshAll(keys, front) then [] else [k])
  }

  function TouchAll<K(==)>(keys: seq<K>, capacity: nat, ks: seq<K>): seq<K> {
    if ks == [] then keys else Touched(TouchAll(keys, capacity, ks[..|ks|-1]), capacity, ks[|ks|-1])
  }

  /** What a whole batch does to the keys of the cache. */
  function Batched<K(==)>(keys: seq<K>, capacity: nat, ks: seq<K>): seq<K> {
    TouchAll(RefreshAll(keys, ks), capacity, Missed(keys, ks))
  }

  function AfterBatches<K(==)>(batches: seq<seq<K>>, capacity: nat): seq<K> {
    if batches == [] then []
    else Batched(AfterBatches(batches[..|batches|-1], capacity), capacity, batches[|batches|-1])
  }

  lemma {:induction false} RefreshKeepsKeys<K>(keys: seq<K>, ks: seq<K>, x: K)
    ensures x in RefreshAll(keys, ks) <==> x in keys
  {
    if ks != [] {
      var mid, k := RefreshAll(keys, ks[..|ks|-1]), ks[|ks|-1];
      RefreshKeepsKeys(keys, ks[..|ks|-1], x);
      DropElems(mid, k, x);
    }
  }

  lemma {:induction false} MissedElems<K>(keys: seq<K>, ks: seq<K>, x: K)
    ensures x in Missed(keys, ks) <==> x in ks && x !in keys
  {
    if ks != [] {
      var front, k := ks[..|ks|-1], ks[|ks|-1];
      MissedElems(keys, front, x);
      RefreshKeepsKeys(keys, front, k);
      assert ks == front + [k];
    }
  }

  function Hits<K(==)>(keys: seq<K>, ks: seq<K>): set<K> {
    set x | x in ks && x in keys
  }

  // ---------------------------------------------------------- recency by batch

  /** `ks` were used in batch n. */
  function Marked<K>(level: map<K, nat>, ks: set<K>, n: nat): map<K, nat> {
    map x | x in level.Keys + ks :: if x in ks then n else level[x]
  }

  /** The last batch in which each key was used. */
  function Levels<K>(batches: seq<seq<K>>): map<K, nat> {
    if batches == [] then map[]
    else Marked(Levels(batches[..|batches|-1]), Elems(batches[|batches|-1]), |batches| - 1)
  }

  ghost predicate Rising<K>(all: seq<K>, level: map<K, nat>) {
    && (forall i :: 0 <= i < |all| ==> all[i] in level)
    && (forall i, j :: 0 <= i < j < |all| ==> level[all[i]] <= level[all[j]])
  }

  /** `all` lists every key used so far, those of later batches after those of earlier ones. */
  ghost predicate Layered<K>(all: seq<K>, level: map<K, nat>) {
    Distinct(all) && Elems(all) == level.Keys && Rising(all, level)
  }

  ghost predicate AtMost<K>(level: map<K, nat>, n: nat) {
    forall x :: x in level ==> level[x] <= n
  }

  lemma {:induction false} DropRising<K>(all: seq<K>, level: map<K, nat>, k: K)
    requires Rising(all, level)
    ensures Rising(Drop(all, k), level)
  {
    if all != [] {
      var front, last := all[..|all|-1], all[|all|-1];
      DropRising(front, level, k);
      var d := Drop(front, k);
      forall i | 0 <= i < |d| ensures level[d[i]] <= level[last] {
        DropElems(front, k, d[i]);
        var j :| 0 <= j < |front| && front[j] == d[i];
        assert all[j] == d[i];
      }
    }
  }

  lemma MoveRising<K>(rest: seq<K>, level: map<K, nat>, k: K, n: nat)
    requires Rising(rest, level) && AtMost(level, n) && k !in rest
    ensures Rising(rest + [k], level[k := n])
  {
    forall i | 0 <= i < |rest| ensures rest[i] != k {
    }
  }

  lemma MoveLayers<K>(all: seq<K>, level: map<K, nat>, k: K, n: nat)
    requires Layered(all, level) && AtMost(level, n)
    ensures Layered(Drop(all, k) + [k], level[k := n])
  {
    var moved := Drop(all, k) + [k];
    DropDistinct(all, k);
    DropRising(all, level, k);
    forall x ensures x in Drop(all, k) <==> x in all && x != k {
      DropElems(all, k, x);
    }
    MoveRising(Drop(all, k), level, k, n);
    assert Elems(moved) == level.Keys + {k} by {
      forall x ensures x in Elems(moved) <==> x in level.Keys + {k} {
        assert x in moved <==> x in Drop(all, k) || x == k;
        assert x in all <==> x in Elems(all);
      }
    }
  }

  /** Between two keys of a batch: `all` orders the keys, the cache is its end, the keys in `done` are at level n. */
  ghost predicate Tracks<K>(keys: seq<K>, all: seq<K>, capacity: nat, level: map<K, nat>, done: set<K>, n: nat) {
    IsTail(keys, all, capacity) && Layered(all, Marked(level, done, n)) && AtMost(level, n)
  }

  lemma TouchTracks<K>(keys: seq<K>, all: seq<K>, capacity: nat, level: map<K, nat>, done: set<K>, n: nat, k: K)
    requires Tracks(keys, all, capacity, level, done, n) && capacity >= 1
    ensures Tracks(Touched(keys, capacity, k), Drop(all, k) + [k], capacity, level, done + {k}, n)
  {
    TouchKeepsTail(keys, all, capacity, k);
    MoveLayers(all, Marked(level, done, n), k, n);
    assert Marked(level, done, n)[k := n] == Marked(level, done + {k}, n);
  }

  lemma {:induction false} RefreshesTrack<K>(keys: seq<K>, all: seq<K>, capacity: nat, level: map<K, nat>, n: nat, ks: seq<K>)
    returns (order: seq<K>)
    requires Tracks(keys, all, capacity, level, {}, n) && capacity >= 1
    ensures Tracks(RefreshAll(keys, ks), order, capacity, level, Hits(keys, ks), n)
    decreases |ks|
  {
    if ks == [] {
      order := all;
      assert Hits(keys, ks) == {};
    } else {
      var front, k := ks[..|ks|-1], ks[|ks|-1];
      order := RefreshesTrack(keys, all, capacity, level, n, front);
      RefreshKeepsKeys(keys, front, k);
      assert ks == front + [k];
      var hits, more := Hits(keys, front), Hits(keys, ks);
      if k in keys {
        assert more == hits + {k};
        TouchTracks(RefreshAll(keys, front), order, capacity, level, hits, n, k);
        order := Drop(order, k) + [k];
      } else {
        assert more == hits;
      }
    }
  }

  lemma {:induction false} TouchesTrack<K>(keys: seq<K>, all: seq<K>, capacity: nat, level: map<K, nat>, done: set<K>, n: nat, ks: seq<K>)
    returns (order: seq<K>)
    requires Tracks(keys, all, capacity, level, done, n) && capacity >= 1
    ensures Tracks(TouchAll(keys, capacity, ks), order, capacity, level, done + Elems(ks), n)
    decreases |ks|
  {
    order := all;
    if ks == [] {
      assert done + Elems(ks) == done;
    } else {
      var front, k := ks[..|ks|-1], ks[|ks|-1];
      order := TouchesTrack(keys, all, capacity, level, done, n, front);
      TouchTracks(TouchAll(keys, capacity, front), order, capacity, level, done + Elems(front), n, k);
      order := Drop(order, k) + [k];
      assert ks == front + [k];
      assert done + Elems(front) + {k} == done + Elems(ks);
    }
  }

  lemma BatchTracks<K>(keys: seq<K>, all: seq<K>, capacity: nat, level: map<K, nat>, n: nat, ks: seq<K>)
    returns (order: seq<K>)
    requires Tracks(keys, all, capacity, level, {}, n) && capacity >= 1
    ensures Tracks(Batched(keys, capacity, ks), order, capacity, level, Elems(ks), n)
  {
    order := RefreshesTrack(keys, all, capacity, level, n, ks);
    var hits := Hits(keys, ks);
    order := TouchesTrack(RefreshAll(keys, ks), order, capacity, level, hits, n, Missed(keys, ks));
    forall x ensures x in hits + Elems(Missed(keys, ks)) <==> x in Elems(ks) {
      MissedElems(keys, ks, x);
    }
    assert hits + Elems(Missed(keys, ks)) == Elems(ks);
  }

  /** A key's level is a batch that used it. */
  lemma {:induction false} LevelIsUse<K>(batches: seq<seq<K>>, x: K)
    requires x in Levels(batches)
    ensures Levels(batches)[x] < |batches| && x in batches[Levels(batches)[x]]
  {
    if x !in batches[|batches|-1] {
      LevelIsUse(batches[..|batches|-1], x);
    }
  }

  /** After any batches the cache is the end of a list in which later batches come after earlier ones; only the order
      within a batch depends on the capacity. */
  lemma {:induction false} HoldsLatestBatches<K>(batches: seq<seq<K>>, capacity: nat) returns (all: seq<K>)
    requires capacity >= 1
    ensures IsTail(AfterBatches(batches, capacity), all, capacity) && Layered(all, Levels(batches))
  {
    if batches == [] {
      all := [];
    } else {
      var front, ks, n := batches[..|batches|-1], batches[|batches|-1], |batches| - 1;
      all := HoldsLatestBatches(front, capacity);
      var level := Levels(front);
      forall x | x in level ensures level[x] <= n {
        LevelIsUse(front, x);
      }
      assert Marked(level, {}, n) == level;
      all := BatchTracks(AfterBatches(front, capacity), all, capacity, level, n, ks);
    }
  }

  // ------------------------------------------------------------- rank and level

  function Later<K>(level: map<K, nat>, k: K): set<K>
    requires k in level
  {
    set x | x in level && level[x] > level[k]
  }

  function Peers<K>(level: map<K, nat>, k: K): set<K>
    requires k in level
  {
    set x | x in level && level[x] == level[k]
  }

  lemma LaterAreBehind<K>(all: seq<K>, level: map<K, nat>, p: nat)
    requires Layered(all, level) && p < |all|
    ensures Later(level, all[p]) <= Elems(all[p+1..])
  {
    forall x | x in Later(level, all[p]) ensures x in Elems(all[p+1..]) {
      assert x in Elems(all);
      var q :| 0 <= q < |all| && all[q] == x;
      assert p < q;
      assert all[p+1..][q-p-1] == x;
    }
  }

  lemma BehindAreLaterOrPeers<K>(all: seq<K>, level: map<K, nat>, p: nat)
    requires Layered(all, level) && p < |all|
    ensures Elems(all[p+1..]) <= Later(level, all[p]) + (Peers(level, all[p]) - {all[p]})
  {
    forall x | x in Elems(all[p+1..]) ensures x in Later(level, all[p]) + (Peers(level, all[p]) - {all[p]}) {
      var q :| 0 <= q < |all[p+1..]| && all[p+1..][q] == x;
      assert x == all[p+1+q] && x in Elems(all);
    }
  }

  lemma RankBounds<K>(all: seq<K>, level: map<K, nat>, p: nat)
    requires Layered(all, level) && p < |all|
    ensures |Later(level, all[p])| <= |all| - p - 1 < |Later(level, all[p])| + |Peers(level, all[p])|
  {
    var k, behind := all[p], all[p+1..];
    assert Distinct(behind);
    DistinctSize(behind);
    LaterAreBehind(all, level, p);
    SubsetSize(Later(level, k), Elems(behind));
    BehindAreLaterOrPeers(all, level, p);
    SubsetSize(Elems(behind), Later(level, k) + (Peers(level, k) - {k}));
    assert k in Peers(level, k);
  }

  lemma CachedHasFewLater<K>(keys: seq<K>, all: seq<K>, capacity: nat, level: map<K, nat>, k: K)
    requires IsTail(keys, all, capacity) && Layered(all, level) && k in keys
    ensures k in level && |Later(level, k)| < capacity
  {
    var i :| 0 <= i < |keys| && keys[i] == k;
    var p := |all| - |keys| + i;
    assert all[p] == k && k in Elems(all);
    RankBounds(all, level, p);
  }

  lemma FewLaterIsCached<K>(keys: seq<K>, all: seq<K>, capacity: nat, level: map<K, nat>, k: K)
    requires IsTail(keys, all, capacity) && Layered(all, level) && k in level
    requires |Later(level, k)| + |Peers(level, k)| <= capacity
    ensures k in keys
  {
    assert k in Elems(all);
    var p :| 0 <= p < |all| && all[p] == k;
    RankBounds(all, level, p);
    assert keys[p - (|all| - |keys|)] == k;
  }

  // --------------------------------------------------------- when growing is safe

  /** Every batch has at most d distinct keys. */
  ghost predicate Narrow<K>(batches: seq<seq<K>>, d: nat) {
    forall i :: 0 <= i < |batches| ==> |Elems(batches[i])| <= d
  }

  lemma PeersAreFew<K>(batches: seq<seq<K>>, d: nat, k: K)
    requires Narrow(batches, d) && k in Levels(batches)
    ensures |Peers(Levels(batches), k)| <= d
  {
    var level := Levels(batches);
    LevelIsUse(batches, k);
    forall x | x in Peers(level, k) ensures x in Elems(batches[level[k]]) {
      LevelIsUse(batches, x);
    }
    SubsetSize(Peers(level, k), Elems(batches[level[k]]));
  }

  lemma NarrowInclusion<K>(batches: seq<seq<K>>, small: nat, large: nat, d: nat, k: K)
    requires 1 <= small && 1 <= large && d + small <= large + 1 && Narrow(batches, d) && k in AfterBatches(batches, small)
    ensures k in AfterBatches(batches, large)
  {
    var level := Levels(batches);
    var a := HoldsLatestBatches(batches, small);
    var b := HoldsLatestBatches(batches, large);
    CachedHasFewLater(AfterBatches(batches, small), a, small, level, k);
    PeersAreFew(batches, d, k);
    FewLaterIsCached(AfterBatches(batches, large), b, large, level, k);
  }

  // ------------------------------------------------------- and when it is not

  function Singles<K>(ks: seq<K>): seq<seq<K>> {
    if ks == [] then [] else Singles(ks[..|ks|-1]) + [[ks[|ks|-1]]]
  }

  lemma {:induction false} BatchOfOne<K>(keys: seq<K>, capacity: nat, k: K)
    ensures Batched(keys, capacity, [k]) == Touched(keys, capacity, k)
  {
    assert [k][..0] == [];
    assert RefreshAll(keys, [k]) == Refreshed(keys, k);
    assert Missed(keys, [k]) == if k in keys then [] else [k];
    assert TouchAll(keys, capacity, [k]) == Touched(keys, capacity, k);
  }

  lemma {:induction false} AfterSnoc<K>(batches: seq<seq<K>>, ks: seq<K>, capacity: nat)
    ensures AfterBatches(batches + [ks], capacity) == Batched(AfterBatches(batches, capacity), capacity, ks)
  {
    assert (batches + [ks])[..|batches|] == batches;
  }

  lemma {:induction false} AfterOne<K>(batches: seq<seq<K>>, k: K, capacity: nat)
    ensures AfterBatches(batches + [[k]], capacity) == Touched(AfterBatches(batches, capacity), capacity, k)
  {
    AfterSnoc(batches, [k], capacity);
    BatchOfOne(AfterBatches(batches, capacity), capacity, k);
  }

  lemma {:induction false} TouchAllConcat<K>(keys: seq<K>, capacity: nat, a: seq<K>, b: seq<K>)
    ensures TouchAll(keys, capacity, a + b) == TouchAll(TouchAll(keys, capacity, a), capacity, b)
  {
    if b == [] {
      assert a + b == a;
    } else {
      TouchAllConcat(keys, capacity, a, b[..|b|-1]);
      assert (a + b)[..|a + b|-1] == a + b[..|b|-1];
    }
  }

  lemma {:induction false} AfterSingles<K>(batches: seq<seq<K>>, ks: seq<K>, capacity: nat)
    ensures AfterBatches(batches + Singles(ks), capacity) == TouchAll(AfterBatches(batches, capacity), capacity, ks)
  {
    if ks == [] {
      assert batches + Singles(ks) == batches;
    } else {
      var front, k := ks[..|ks|-1], ks[|ks|-1];
      AfterSingles(batches, front, capacity);
      Reassociate(batches, Singles(front), [[k]]);
      AfterOne(batches + Singles(front), k, capacity);
    }
  }

  lemma DistinctFront<K>(line: seq<K>, k: K)
    requires Distinct(line + [k])
    ensures Distinct(line) && k !in line
  {
    forall i, j | 0 <= i < j < |line| ensures line[i] != line[j] {
      assert (line + [k])[i] == line[i] && (line + [k])[j] == line[j];
    }
    forall i | 0 <= i < |line| ensures line[i] != k {
      assert (line + [k])[i] == line[i] && (line + [k])[|line|] == k;
    }
  }

  /** Keys never seen before line up behind the others, and the cache keeps the end of the line. */
  lemma {:induction false} NewcomersLineUp<K>(keys: seq<K>, capacity: nat, ks: seq<K>)
    requires Distinct(keys + ks) && |keys| <= capacity && capacity >= 1
    ensures IsTail(TouchAll(keys, capacity, ks), keys + ks, capacity)
  {
    if ks == [] {
      assert keys + ks == keys;
    } else {
      var front, k := ks[..|ks|-1], ks[|ks|-1];
      var line := keys + front;
      assert keys + ks == line + [k];
      DistinctFront(line, k);
      NewcomersLineUp(keys, capacity, front);
      TouchKeepsTail(TouchAll(keys, capacity, front), line, capacity, k);
      DropAbsent(line, k);
    }
  }

  lemma {:induction false} NoHits<K>(keys: seq<K>, ks: seq<K>)
    requires forall i :: 0 <= i < |ks| ==> ks[i] !in keys
    ensures RefreshAll(keys, ks) == keys && Missed(keys, ks) == ks
  {
    if ks != [] {
      NoHits(keys, ks[..|ks|-1]);
      assert ks == ks[..|ks|-1] + [ks[|ks|-1]];
    }
  }

  /** A batch of newcomers that ends with a cached key: the hit is refreshed before they are stored. */
  lemma {:induction false} HitGoesFirst<K>(keys: seq<K>, newcomers: seq<K>, k: K)
    requires k in keys && forall i :: 0 <= i < |newcomers| ==> newcomers[i] !in keys
    ensures RefreshAll(keys, newcomers + [k]) == Drop(keys, k) + [k] && Missed(keys, newcomers + [k]) == newcomers
  {
    NoHits(keys, newcomers);
    assert (newcomers + [k])[..|newcomers|] == newcomers;
  }

  /** `k`, then `xs` one by one, then `newcomers` and `k` in one batch, then `rest` one by one. */
  function Overtaking<K>(k: K, xs: seq<K>, newcomers: seq<K>, rest: seq<K>): seq<seq<K>> {
    Singles([k] + xs) + [newcomers + [k]] + Singles(rest)
  }

  lemma {:induction false} OvertakingEnds<K>(k: K, xs: seq<K>, newcomers: seq<K>, rest: seq<K>, capacity: nat)
    ensures AfterBatches(Overtaking(k, xs, newcomers, rest), capacity)
         == TouchAll(Batched(TouchAll([], capacity, [k] + xs), capacity, newcomers + [k]), capacity, rest)
  {
    AfterSingles([], [k] + xs, capacity);
    assert [] + Singles([k] + xs) == Singles([k] + xs);
    AfterSnoc(Singles([k] + xs), newcomers + [k], capacity);
    AfterSingles(Singles([k] + xs) + [newcomers + [k]], rest, capacity);
  }

  /** The keys of the history are all different. */
  ghost predicate Strangers<K>(k: K, xs: seq<K>, newcomers: seq<K>, rest: seq<K>) {
    Distinct([k] + xs + newcomers + rest)
  }

  lemma StrangersApart<K>(k: K, xs: seq<K>, newcomers: seq<K>, rest: seq<K>)
    requires Strangers(k, xs, newcomers, rest)
    ensures Distinct([k] + xs) && k !in xs && k !in newcomers && k !in rest
    ensures forall i :: 0 <= i < |newcomers| ==> newcomers[i] !in xs && newcomers[i] !in [k] + xs
  {
    var all := [k] + xs + newcomers + rest;
    assert all[0] == k;
    assert forall i :: 0 <= i < |xs| ==> xs[i] == all[1 + i];
    assert forall i :: 0 <= i < |newcomers| ==> newcomers[i] == all[1 + |xs| + i];
    assert forall i :: 0 <= i < |rest| ==> rest[i] == all[1 + |xs| + |newcomers| + i];
    assert forall i :: 0 <= i < |[k] + xs| ==> ([k] + xs)[i] == all[i];
  }

  lemma KeyMoved<K>(k: K, a: seq<K>, b: seq<K>)
    requires Distinct([k] + a + b)
    ensures Distinct(a + [k] + b)
  {
    var given, line := [k] + a + b, a + [k] + b;
    assert forall i :: 0 <= i < |line| ==> line[i] == given[if i < |a| then i + 1 else if i == |a| then 0 else i];
  }

  /** In a cache of |xs| everything in the batch is a miss: the key is stored last, and |xs| - 1 more leave it in. */
  lemma {:induction false} SmallKeeps<K>(k: K, xs: seq<K>, newcomers: seq<K>, rest: seq<K>)
    requires Strangers(k, xs, newcomers, rest) && |rest| + 1 == |xs|
    ensures k in AfterBatches(Overtaking(k, xs, newcomers, rest), |xs|)
  {
    var n, batch := |xs|, newcomers + [k];
    StrangersApart(k, xs, newcomers, rest);
    FirstUses(k, xs, n);
    NoHits(xs, batch);
    OvertakingEnds(k, xs, newcomers, rest, n);
    TouchAllConcat(xs, n, batch, rest);
    MissesKeep(k, xs, newcomers, rest);
  }

  lemma {:induction false} FirstUses<K>(k: K, xs: seq<K>, capacity: nat)
    requires Distinct([k] + xs) && capacity >= 1 && capacity >= |xs|
    ensures TouchAll([], capacity, [k] + xs) == if capacity == |xs| then xs else [k] + xs
  {
    assert [] + ([k] + xs) == [k] + xs;
    NewcomersLineUp([], capacity, [k] + xs);
  }

  lemma {:induction false} MissesKeep<K>(k: K, xs: seq<K>, newcomers: seq<K>, rest: seq<K>)
    requires Strangers(k, xs, newcomers, rest) && |rest| + 1 == |xs|
    ensures k in TouchAll(xs, |xs|, newcomers + [k] + rest)
  {
    SmallLine(k, xs, newcomers, rest);
    NewcomersLineUp(xs, |xs|, newcomers + [k] + rest);
    TailHolds(TouchAll(xs, |xs|, newcomers + [k] + rest), xs + (newcomers + [k] + rest), |xs|, |xs| + |newcomers|);
  }

  lemma SmallLine<K>(k: K, xs: seq<K>, newcomers: seq<K>, rest: seq<K>)
    requires Strangers(k, xs, newcomers, rest)
    ensures Distinct(xs + (newcomers + [k] + rest))
    ensures (xs + (newcomers + [k] + rest))[|xs| + |newcomers|] == k
  {
    assert [k] + (xs + newcomers) + rest == [k] + xs + newcomers + rest;
    KeyMoved(k, xs + newcomers, rest);
    assert xs + (newcomers + [k] + rest) == (xs + newcomers) + [k] + rest;
  }

  lemma TailHolds<K>(keys: seq<K>, all: seq<K>, capacity: nat, p: nat)
    requires IsTail(keys, all, capacity) && p < |all| <= p + capacity
    ensures all[p] in keys
  {
    assert keys[p - (|all| - |keys|)] == all[p];
  }

  lemma TailLacks<K>(keys: seq<K>, all: seq<K>, capacity: nat, p: nat)
    requires IsTail(keys, all, capacity) && Distinct(all) && p + capacity < |all|
    ensures all[p] !in keys
  {
    forall i | 0 <= i < |keys| ensures keys[i] != all[p] {
      assert keys[i] == all[|all| - |keys| + i];
    }
  }

  /** In a larger cache the key is a hit, refreshed before the newcomers are stored, and they push it out. */
  lemma {:induction false} LargeLoses<K>(k: K, xs: seq<K>, newcomers: seq<K>, rest: seq<K>, large: nat)
    requires Strangers(k, xs, newcomers, rest) && 1 + |xs| <= large <= |newcomers| + |rest|
    ensures k !in AfterBatches(Overtaking(k, xs, newcomers, rest), large)
  {
    StrangersApart(k, xs, newcomers, rest);
    FirstUses(k, xs, large);
    HitGoesFirst([k] + xs, newcomers, k);
    DropFirst(k, xs);
    OvertakingEnds(k, xs, newcomers, rest, large);
    TouchAllConcat(xs + [k], large, newcomers, rest);
    LargeLine(k, xs, newcomers, rest);
    NewcomersLineUp(xs + [k], large, newcomers + rest);
    TailLacks(TouchAll(xs + [k], large, newcomers + rest), xs + [k] + (newcomers + rest), large, |xs|);
  }

  lemma DropFirst<K>(k: K, xs: seq<K>)
    requires k !in xs
    ensures Drop([k] + xs, k) == xs
  {
    DropMiddle([], k, xs);
    assert [] + [k] + xs == [k] + xs && [] + xs == xs;
  }

  lemma LargeLine<K>(k: K, xs: seq<K>, newcomers: seq<K>, rest: seq<K>)
    requires Strangers(k, xs, newcomers, rest)
    ensures Distinct(xs + [k] + (newcomers + rest)) && (xs + [k] + (newcomers + rest))[|xs|] == k
  {
    assert [k] + xs + (newcomers + rest) == [k] + xs + newcomers + rest;
    KeyMoved(k, xs, newcomers + rest);
  }

  lemma {:induction false} ElemsSize<K>(s: seq<K>)
    ensures |Elems(s)| <= |s|
  {
    if s != [] {
      ElemsSize(s[..|s|-1]);
      assert Elems(s) == Elems(s[..|s|-1]) + {s[|s|-1]};
    }
  }

  lemma {:induction false} SinglesAreNarrow<K>(ks: seq<K>, d: nat)
    requires d >= 1
    ensures Narrow(Singles(ks), d)
  {
    if ks != [] {
      SinglesAreNarrow(ks[..|ks|-1], d);
      ElemsSize([ks[|ks|-1]]);
    }
  }

  lemma OvertakingIsNarrow<K>(k: K, xs: seq<K>, newcomers: seq<K>, rest: seq<K>, d: nat)
    requires |newcomers| < d
    ensures Narrow(Overtaking(k, xs, newcomers, rest), d)
  {
    SinglesAreNarrow([k] + xs, d);
    SinglesAreNarrow(rest, d);
    ElemsSize(newcomers + [k]);
  }

  /** After every history of batches of at most d distinct keys, the large cache holds what the small one holds. */
  ghost predicate InclusionUpTo<K(!new)>(small: nat, large: nat, d: nat) {
    forall batches: seq<seq<K>>, k: K ::
      Narrow(batches, d) && k in AfterBatches(batches, small) ==> k in AfterBatches(batches, large)
  }

  lemma OvertakingBreaks<K(!new)>(large: nat, d: nat, k: K, xs: seq<K>, newcomers: seq<K>, rest: seq<K>)
    requires Strangers(k, xs, newcomers, rest) && |rest| + 1 == |xs| && |newcomers| < d
    requires 1 + |xs| <= large <= |newcomers| + |rest|
    ensures !InclusionUpTo<K>(|xs|, large, d)
  {
    OvertakingIsNarrow(k, xs, newcomers, rest, d);
    SmallKeeps(k, xs, newcomers, rest);
    LargeLoses(k, xs, newcomers, rest, large);
  }

  lemma TooWideBreaks<K(!new)>(small: nat, large: nat, d: nat, keys: seq<K>)
    requires 1 <= small < large && d > large - small + 1 && Distinct(keys) && |keys| == small + large + 1
    ensures !InclusionUpTo<K>(small, large, d)
  {
    var mid := large + 2;
    assert [keys[0]] + keys[1..small+1] + keys[small+1..mid] + keys[mid..] == keys;
    OvertakingBreaks(large, d, keys[0], keys[1..small+1], keys[small+1..mid], keys[mid..]);
  }

  /** Where there are enough different keys, growing the cache is safe for batches of at most d distinct keys if and
      only if it grows by at least d - 1. */
  lemma BatchInclusionIff<K(!new)>(small: nat, large: nat, d: nat, keys: seq<K>)
    requires 1 <= small < large && Distinct(keys) && |keys| == small + large + 1
    ensures InclusionUpTo<K>(small, large, d) <==> d <= large - small + 1
  {
    if d <= large - small + 1 {
      forall batches: seq<seq<K>>, k: K | Narrow(batches, d) && k in AfterBatches(batches, small)
        ensures k in AfterBatches(batches, large)
      {
        NarrowInclusion(batches, small, large, d, k);
      }
    } else {
      TooWideBreaks(small, large, d, keys);
    }
  }
}
