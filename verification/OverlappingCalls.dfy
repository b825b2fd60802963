/** embed calls that overlap: look-up and store are separate steps, with the provider awaited in between. */
module OverlappingCalls {
  import opened Common
  import opened Ordering
  import opened LruCache
  import opened BatchedLru

  /** A call asks the cache; when it missed, it stores its answer once the provider has replied. */
  datatype Event<K> = Ask(call: nat, key: K) | Done(call: nat)

  /** The cached keys, and what each call that missed is going to store. */
  datatype Session<K> = Session(keys: seq<K>, pending: map<nat, K>)

  function After<K(==)>(s: Session<K>, capacity: nat, e: Event<K>): Session<K> {
    match e
    case Ask(c, k) =>
      if k in s.keys then s.(keys := Refreshed(s.keys, k)) else s.(pending := s.pending[c := k])
    case Done(c) =>
      if c in s.pending then Session(Touched(s.keys, capacity, s.pending[c]), s.pending - {c}) else s
  }

  function Serve<K(==)>(events: seq<Event<K>>, capacity: nat): Session<K> {
    if events == [] then Session([], map[])
    else After(Serve(events[..|events|-1], capacity), capacity, events[|events|-1])
  }

  /** The calls that are under way, with their keys; this does not depend on any cache. */
  function Open<K>(events: seq<Event<K>>): map<nat, K> {
    if events == [] then map[]
    else
      var before := Open(events[..|events|-1]);
      match events[|events|-1]
      case Ask(c, k) => before[c := k]
      case Done(c) => before - {c}
  }

  /** Each call asks once and then is done once; at no time are more than m under way. */
  ghost predicate Schedule<K>(events: seq<Event<K>>, m: nat) {
    events == []
    || (var before := events[..|events|-1];
        && Schedule(before, m)
        && |Open(events)| <= m
        && match events[|events|-1]
           case Ask(c, _) => c !in Open(before)
           case Done(c) => c in Open(before))
  }

  // ----------------------------------------------------------- one at a time

  /** The keys of the finished calls, in the order they finished. */
  function Finished<K>(events: seq<Event<K>>): seq<K> {
    if events == [] then []
    else
      var before := events[..|events|-1];
      match events[|events|-1]
      case Ask(_, _) => Finished(before)
      case Done(c) => Finished(before) + (if c in Open(before) then [Open(before)[c]] else [])
  }

  /** No call under way, and the cache is what the finished calls make of it; or one, just looked up. */
  ghost predicate InStep<K>(s: Session<K>, open: map<nat, K>, finished: seq<K>, capacity: nat) {
    || (open == map[] && s == Session(Cached(finished, capacity), map[]))
    || (exists c :: c in open && open == map[c := open[c]] && LookedUp(s, c, open[c], finished, capacity))
  }

  ghost predicate LookedUp<K>(s: Session<K>, c: nat, k: K, finished: seq<K>, capacity: nat) {
    var cached := Cached(finished, capacity);
    s == Session(Refreshed(cached, k), if k in cached then map[] else map[c := k])
  }

  lemma AskInStep<K>(s: Session<K>, c: nat, k: K, finished: seq<K>, capacity: nat)
    requires s == Session(Cached(finished, capacity), map[])
    ensures InStep(After(s, capacity, Ask(c, k)), map[c := k], finished, capacity)
  {
    var open := map[c := k];
    assert map[][c := k] == open && open[c] == k && open == map[c := open[c]];
    assert LookedUp(After(s, capacity, Ask(c, k)), c, open[c], finished, capacity);
  }

  lemma {:induction false} CachedSnoc<K>(finished: seq<K>, k: K, capacity: nat)
    ensures Cached(finished + [k], capacity) == Touched(Cached(finished, capacity), capacity, k)
  {
    assert (finished + [k])[..|finished|] == finished;
  }

  lemma {:induction false} DoneInStep<K>(s: Session<K>, c: nat, k: K, finished: seq<K>, capacity: nat)
    requires LookedUp(s, c, k, finished, capacity)
    ensures After(s, capacity, Done(c)) == Session(Cached(finished + [k], capacity), map[])
  {
    CachedSnoc(finished, k, capacity);
    assert map[c := k] - {c} == map[];
  }

  lemma SizeOne<K>(m: map<nat, K>, c: nat)
    requires |m| <= 1 && c in m
    ensures m == map[c := m[c]] && m - {c} == map[]
  {
    if x :| x in m && x != c {
      SubsetSize({x, c}, m.Keys);
    }
  }

  lemma EmptyBefore<K>(before: map<nat, K>, c: nat, k: K)
    requires c !in before && |before[c := k]| <= 1
    ensures before == map[]
  {
    SizeOne(before[c := k], c);
    assert forall x :: x in before ==> x in before[c := k];
  }

  lemma {:induction false} OneAtATime<K>(events: seq<Event<K>>, capacity: nat)
    requires Schedule(events, 1)
    ensures InStep(Serve(events, capacity), Open(events), Finished(events), capacity)
  {
    if events != [] {
      var before, e := events[..|events|-1], events[|events|-1];
      OneAtATime(before, capacity);
      match e
      case Ask(c, k) =>
        EmptyBefore(Open(before), c, k);
        AskInStep(Serve(before, capacity), c, k, Finished(before), capacity);
      case Done(c) =>
        var x :| x in Open(before) && Open(before) == map[x := Open(before)[x]]
          && LookedUp(Serve(before, capacity), x, Open(before)[x], Finished(before), capacity);
        assert x == c;
        SizeOne(Open(before), c);
        DoneInStep(Serve(before, capacity), c, Open(before)[c], Finished(before), capacity);
    }
  }

  lemma InStepKeys<K>(s: Session<K>, open: map<nat, K>, finished: seq<K>, capacity: nat, x: K)
    requires InStep(s, open, finished, capacity)
    ensures x in s.keys <==> x in Cached(finished, capacity)
  {
    if open != map[] {
      var c :| c in open && LookedUp(s, c, open[c], finished, capacity);
      DropElems(Cached(finished, capacity), open[c], x);
    }
  }

  lemma {:induction false} FewerCalls<K>(events: seq<Event<K>>, m: nat)
    requires Schedule(events, m) && m <= 1
    ensures Schedule(events, 1)
  {
    if events != [] {
      FewerCalls(events[..|events|-1], m);
    }
  }

  /** Without overlap, growing the cache is safe at every moment. */
  lemma SingleCallsInclude<K>(events: seq<Event<K>>, m: nat, small: nat, large: nat, x: K)
    requires Schedule(events, m) && m <= 1 && 1 <= small <= large && x in Serve(events, small).keys
    ensures x in Serve(events, large).keys
  {
    FewerCalls(events, m);
    OneAtATime(events, small);
    OneAtATime(events, large);
    InStepKeys(Serve(events, small), Open(events), Finished(events), small, x);
    InStepKeys(Serve(events, large), Open(events), Finished(events), large, x);
    Inclusion(Finished(events), small, large, x);
  }

  // ------------------------------------------------------------- two at a time

  /** Calls one after the other, all under the number 0. */
  function Calls<K>(ks: seq<K>): seq<Event<K>> {
    if ks == [] then [] else Calls(ks[..|ks|-1]) + [Ask(0, ks[|ks|-1]), Done(0)]
  }

  lemma {:induction false} ServeSnoc<K>(events: seq<Event<K>>, e: Event<K>, capacity: nat)
    ensures Serve(events + [e], capacity) == After(Serve(events, capacity), capacity, e)
  {
    assert (events + [e])[..|events|] == events;
  }

  lemma {:induction false} OpenSnoc<K>(events: seq<Event<K>>, e: Event<K>)
    ensures Open(events + [e]) == match e case Ask(c, k) => Open(events)[c := k] case Done(c) => Open(events) - {c}
  {
    assert (events + [e])[..|events|] == events;
  }

  lemma {:induction false} ScheduleSnoc<K>(events: seq<Event<K>>, e: Event<K>, m: nat)
    requires Schedule(events, m) && |Open(events + [e])| <= m
    requires match e case Ask(c, _) => c !in Open(events) case Done(c) => c in Open(events)
    ensures Schedule(events + [e], m)
  {
    assert (events + [e])[..|events|] == events;
  }

  lemma {:induction false} ServeCall<K>(events: seq<Event<K>>, k: K, capacity: nat)
    requires 0 !in Serve(events, capacity).pending
    ensures var s := Serve(events, capacity);
      Serve(events + [Ask(0, k), Done(0)], capacity) == Session(Touched(s.keys, capacity, k), s.pending)
  {
    var s := Serve(events, capacity);
    ServeSnoc(events, Ask(0, k), capacity);
    ServeSnoc(events + [Ask(0, k)], Done(0), capacity);
    assert events + [Ask(0, k)] + [Done(0)] == events + [Ask(0, k), Done(0)];
    assert s.pending[0 := k] - {0} == s.pending;
  }

  lemma {:induction false} ServeCalls<K>(events: seq<Event<K>>, ks: seq<K>, capacity: nat)
    requires 0 !in Serve(events, capacity).pending
    ensures var s := Serve(events, capacity);
      Serve(events + Calls(ks), capacity) == Session(TouchAll(s.keys, capacity, ks), s.pending)
  {
    if ks == [] {
      assert events + Calls(ks) == events;
    } else {
      var front, k := ks[..|ks|-1], ks[|ks|-1];
      ServeCalls(events, front, capacity);
      Reassociate(events, Calls(front), [Ask(0, k), Done(0)]);
      ServeCall(events + Calls(front), k, capacity);
    }
  }

  lemma {:induction false} ScheduleCall<K>(events: seq<Event<K>>, k: K, m: nat)
    requires Schedule(events, m) && 0 !in Open(events) && |Open(events)| + 1 <= m
    ensures Schedule(events + [Ask(0, k), Done(0)], m) && Open(events + [Ask(0, k), Done(0)]) == Open(events)
  {
    OpenSnoc(events, Ask(0, k));
    assert Open(events)[0 := k].Keys == Open(events).Keys + {0};
    assert |Open(events)[0 := k]| == |Open(events)[0 := k].Keys|;
    assert |Open(events)| == |Open(events).Keys|;
    ScheduleSnoc(events, Ask(0, k), m);
    OpenSnoc(events + [Ask(0, k)], Done(0));
    assert Open(events)[0 := k] - {0} == Open(events);
    ScheduleSnoc(events + [Ask(0, k)], Done(0), m);
    assert events + [Ask(0, k)] + [Done(0)] == events + [Ask(0, k), Done(0)];
  }

  lemma {:induction false} ScheduleCalls<K>(events: seq<Event<K>>, ks: seq<K>, m: nat)
    requires Schedule(events, m) && 0 !in Open(events) && |Open(events)| + 1 <= m
    ensures Schedule(events + Calls(ks), m) && Open(events + Calls(ks)) == Open(events)
  {
    if ks == [] {
      assert events + Calls(ks) == events;
    } else {
      var front, k := ks[..|ks|-1], ks[|ks|-1];
      ScheduleCalls(events, front, m);
      Reassociate(events, Calls(front), [Ask(0, k), Done(0)]);
      ScheduleCall(events + Calls(front), k, m);
    }
  }

  /** `k` and `xs` are used; then call 1 asks for `k`, `ys` are used meanwhile, and call 1 is done. */
  function Overlapped<K>(k: K, xs: seq<K>, ys: seq<K>): seq<Event<K>> {
    Calls([k] + xs) + [Ask(1, k)] + Calls(ys) + [Done(1)]
  }

  lemma {:induction false} OverlappedIsSchedule<K>(k: K, xs: seq<K>, ys: seq<K>, m: nat)
    requires m >= 2
    ensures Schedule(Overlapped(k, xs, ys), m)
  {
    var start := Calls([k] + xs);
    ScheduleCalls([], [k] + xs, m);
    assert [] + start == start;
    OpenSnoc(start, Ask(1, k));
    ScheduleSnoc(start, Ask(1, k), m);
    ScheduleCalls(start + [Ask(1, k)], ys, m);
    OpenSnoc(start + [Ask(1, k)] + Calls(ys), Done(1));
    ScheduleSnoc(start + [Ask(1, k)] + Calls(ys), Done(1), m);
  }

  /** What call 1 finds in the cache, and what is there when it is done. */
  lemma {:induction false} OverlappedEnds<K>(k: K, xs: seq<K>, ys: seq<K>, capacity: nat)
    ensures
      var found := TouchAll([], capacity, [k] + xs);
      Serve(Overlapped(k, xs, ys), capacity).keys ==
        if k in found then TouchAll(Refreshed(found, k), capacity, ys)
        else Touched(TouchAll(found, capacity, ys), capacity, k)
  {
    var start, found := Calls([k] + xs), TouchAll([], capacity, [k] + xs);
    ServeCalls([], [k] + xs, capacity);
    assert [] + start == start;
    ServeSnoc(start, Ask(1, k), capacity);
    ServeCalls(start + [Ask(1, k)], ys, capacity);
    ServeSnoc(start + [Ask(1, k)] + Calls(ys), Done(1), capacity);
  }

  lemma TouchedHolds<K>(keys: seq<K>, capacity: nat, k: K)
    ensures k in Touched(keys, capacity, k)
  {
    assert Touched(keys, capacity, k)[|Touched(keys, capacity, k)|-1] == k;
  }

  /** In a cache of |xs| the overlapped call missed, and stores its key last. */
  lemma {:induction false} SmallStores<K>(k: K, xs: seq<K>, ys: seq<K>)
    requires Distinct([k] + xs) && xs != []
    ensures k in Serve(Overlapped(k, xs, ys), |xs|).keys
  {
    FirstUses(k, xs, |xs|);
    HeadApart(k, xs);
    OverlappedEnds(k, xs, ys, |xs|);
    TouchedHolds(TouchAll(xs, |xs|, ys), |xs|, k);
  }

  lemma HeadApart<K>(k: K, xs: seq<K>)
    requires Distinct([k] + xs)
    ensures k !in xs
  {
    forall i | 0 <= i < |xs| ensures xs[i] != k {
      assert ([k] + xs)[0] == k && ([k] + xs)[i+1] == xs[i];
    }
  }

  /** In a larger cache it hit, and what is used meanwhile pushes the key out. */
  lemma {:induction false} LargeForgets<K>(k: K, xs: seq<K>, ys: seq<K>, large: nat)
    requires Distinct([k] + xs + ys) && 1 + |xs| <= large <= |ys|
    ensures k !in Serve(Overlapped(k, xs, ys), large).keys
  {
    var line := xs + [k];
    assert Distinct([k] + xs) by {
      assert forall i :: 0 <= i < |[k] + xs| ==> ([k] + xs)[i] == ([k] + xs + ys)[i];
    }
    FirstUses(k, xs, large);
    HeadApart(k, xs);
    DropFirst(k, xs);
    OverlappedEnds(k, xs, ys, large);
    KeyMoved(k, xs, ys);
    NewcomersLineUp(line, large, ys);
    TailLacks(TouchAll(line, large, ys), line + ys, large, |xs|);
  }

  // ---------------------------------------------------------------- exactly when

  /** In every schedule with at most m calls under way, at every moment, the large cache holds what the small one holds. */
  ghost predicate InclusionWith<K(!new)>(m: nat, small: nat, large: nat) {
    forall events: seq<Event<K>>, x: K ::
      Schedule(events, m) && x in Serve(events, small).keys ==> x in Serve(events, large).keys
  }

  lemma OverlapBreaks<K(!new)>(m: nat, k: K, xs: seq<K>, ys: seq<K>, large: nat)
    requires m >= 2 && xs != [] && Distinct([k] + xs + ys) && 1 + |xs| <= large <= |ys|
    ensures !InclusionWith<K>(m, |xs|, large)
  {
    assert Distinct([k] + xs) by {
      assert forall i :: 0 <= i < |[k] + xs| ==> ([k] + xs)[i] == ([k] + xs + ys)[i];
    }
    OverlappedIsSchedule(k, xs, ys, m);
    SmallStores(k, xs, ys);
    LargeForgets(k, xs, ys, large);
  }

  /** Where there are enough different keys, growing the cache is safe if and only if calls do not overlap: two under
      way are enough to break it, for any two sizes. */
  lemma OverlapIff<K(!new)>(m: nat, small: nat, large: nat, keys: seq<K>)
    requires 1 <= small < large && Distinct(keys) && |keys| == small + large + 1
    ensures InclusionWith<K>(m, small, large) <==> m <= 1
  {
    if m <= 1 {
      forall events: seq<Event<K>>, x: K | Schedule(events, m) && x in Serve(events, small).keys
        ensures x in Serve(events, large).keys
      {
        SingleCallsInclude(events, m, small, large, x);
      }
    } else {
      assert [keys[0]] + keys[1..small+1] + keys[small+1..] == keys;
      OverlapBreaks(m, keys[0], keys[1..small+1], keys[small+1..], large);
    }
  }
}
