/** The nightly resolver: pair up aged competing facts, let an arbitrary judge decide, supersede the losers. */
module Resolver {
  import opened Common
  import opened FactModel

  datatype Verdict = AWins | BWins | Unsure

  datatype Pair = Pair(a: FactId, b: FactId)

  datatype Resolution = Resolution(winner: FactId, loser: FactId)

  function Key(f: Fact): string {
    f.entityId + "::" + f.predicateName
  }

  predicate IsAged(f: Fact, cutoff: Instant) {
    f.status == Competing && f.retractedAt.None? && f.recordedAt <= cutoff
  }

  function Aged(rows: Rows, cutoff: Instant): set<FactId> {
    set id | id in rows && IsAged(rows[id], cutoff)
  }

  /** `p` is the whole group of aged facts under its key. */
  ghost predicate IsPairGroup(rows: Rows, cutoff: Instant, p: Pair) {
    && p.a in Aged(rows, cutoff) && p.b in Aged(rows, cutoff) && p.a != p.b
    && Key(rows[p.a]) == Key(rows[p.b])
    && forall id :: id in Aged(rows, cutoff) && Key(rows[id]) == Key(rows[p.a]) ==> id == p.a || id == p.b
  }

  ghost predicate Considered(rows: Rows, cutoff: Instant, pairs: seq<Pair>) {
    && (forall i :: 0 <= i < |pairs| ==> IsPairGroup(rows, cutoff, pairs[i]))
    && (forall i, j :: 0 <= i < j < |pairs| ==> Key(rows[pairs[i].a]) != Key(rows[pairs[j].a]))
  }

  predicate In(id: FactId, p: Pair) {
    id == p.a || id == p.b
  }

  function LoserOf(p: Pair, v: Verdict): FactId {
    if v == AWins then p.b else p.a
  }

  function WinnerOf(p: Pair, v: Verdict): FactId {
    if v == AWins then p.a else p.b
  }

  /** markSuperseded, with its early exit when a row has vanished. */
  function MarkSuperseded(rows: Rows, loser: FactId, winner: FactId): Rows {
    if loser in rows && winner in rows then rows[loser := SupersedePatch(rows[loser], winner, rows[winner])] else rows
  }

  function ResolveOne(rows: Rows, p: Pair, v: Verdict): Rows {
    if v == Unsure then rows else MarkSuperseded(rows, LoserOf(p, v), WinnerOf(p, v))
  }

  function ResolveAll(rows: Rows, pairs: seq<Pair>, judge: nat -> Verdict): Rows {
    if pairs == [] then rows
    else ResolveOne(ResolveAll(rows, pairs[..|pairs|-1], judge), pairs[|pairs|-1], judge(|pairs|-1))
  }

  // --------------------------------------------------------------- lemmas

  /** No fact is in two considered pairs. */
  lemma PairsAreDisjoint(rows: Rows, cutoff: Instant, pairs: seq<Pair>, i: nat, j: nat, id: FactId)
    requires Considered(rows, cutoff, pairs) && i < |pairs| && j < |pairs|
    requires In(id, pairs[i]) && In(id, pairs[j])
    ensures i == j
  {
    assert IsPairGroup(rows, cutoff, pairs[i]) && IsPairGroup(rows, cutoff, pairs[j]);
    assert Key(rows[pairs[i].a]) == Key(rows[id]) == Key(rows[pairs[j].a]);
  }

  lemma {:induction false} OutsideUntouched(rows: Rows, cutoff: Instant, pairs: seq<Pair>, judge: nat -> Verdict, id: FactId)
    requires Considered(rows, cutoff, pairs) && id in rows
    requires forall i :: 0 <= i < |pairs| ==> !In(id, pairs[i])
    ensures ResolveAll(rows, pairs, judge).Keys == rows.Keys
    ensures ResolveAll(rows, pairs, judge)[id] == rows[id]
  {
    if pairs != [] {
      var front := pairs[..|pairs|-1];
      assert Considered(rows, cutoff, front);
      OutsideUntouched(rows, cutoff, front, judge, id);
      assert IsPairGroup(rows, cutoff, pairs[|pairs|-1]) && !In(id, pairs[|pairs|-1]);
    }
  }

  lemma LastPairUntouched(rows: Rows, cutoff: Instant, pairs: seq<Pair>, judge: nat -> Verdict, id: FactId)
    requires pairs != [] && Considered(rows, cutoff, pairs) && In(id, pairs[|pairs|-1])
    ensures ResolveAll(rows, pairs[..|pairs|-1], judge).Keys == rows.Keys
    ensures id in rows && ResolveAll(rows, pairs[..|pairs|-1], judge)[id] == rows[id]
  {
    var front := pairs[..|pairs|-1];
    assert IsPairGroup(rows, cutoff, pairs[|pairs|-1]);
    assert Considered(rows, cutoff, front);
    forall k | 0 <= k < |front| ensures !In(id, front[k]) {
      if In(id, front[k]) {
        PairsAreDisjoint(rows, cutoff, pairs, k, |pairs|-1, id);
      }
    }
    OutsideUntouched(rows, cutoff, front, judge, id);
  }

  /** Each pair comes out as if it had been the only one: its loser is closed against its winner's original row. */
  lemma {:induction false} ResolvedAlone(rows: Rows, cutoff: Instant, pairs: seq<Pair>, judge: nat -> Verdict, i: nat, id: FactId)
    requires Considered(rows, cutoff, pairs) && i < |pairs| && In(id, pairs[i])
    ensures ResolveAll(rows, pairs, judge).Keys == rows.Keys
    ensures id in rows && ResolveAll(rows, pairs, judge)[id] == ResolveOne(rows, pairs[i], judge(i))[id]
  {
    var last := |pairs| - 1;
    var front := pairs[..last];
    var mid := ResolveAll(rows, front, judge);
    LastPairUntouched(rows, cutoff, pairs, judge, pairs[last].a);
    LastPairUntouched(rows, cutoff, pairs, judge, pairs[last].b);
    if i < last {
      if In(id, pairs[last]) {
        PairsAreDisjoint(rows, cutoff, pairs, i, last, id);
      }
      FrontConsidered(rows, cutoff, pairs);
      ResolvedAlone(rows, cutoff, front, judge, i, id);
      ResolveOneFrame(mid, pairs[last], judge(last), id);
    } else {
      ResolveOneLocal(mid, rows, pairs[last], judge(last), id);
    }
  }

  lemma FrontConsidered(rows: Rows, cutoff: Instant, pairs: seq<Pair>)
    requires pairs != [] && Considered(rows, cutoff, pairs)
    ensures Considered(rows, cutoff, pairs[..|pairs|-1])
  {
  }

  lemma ResolveOneFrame(rows: Rows, p: Pair, v: Verdict, id: FactId)
    requires id in rows && !In(id, p)
    ensures ResolveOne(rows, p, v).Keys == rows.Keys
    ensures ResolveOne(rows, p, v)[id] == rows[id]
  {
  }

  lemma ResolveOneLocal(x: Rows, y: Rows, p: Pair, v: Verdict, id: FactId)
    requires x.Keys == y.Keys && p.a in x && p.b in x && x[p.a] == y[p.a] && x[p.b] == y[p.b]
    requires In(id, p)
    ensures ResolveOne(x, p, v).Keys == x.Keys && ResolveOne(x, p, v)[id] == ResolveOne(y, p, v)[id]
  {
  }

  predicate InInterval(f: Fact, t: Instant) {
    f.validFrom <= t && OpenAt(f.validUntil, t)
  }

  /** After a decided pair: no instant belongs to both facts, the loser's interval is not inverted, and the
      loser can be found from the winner. */
  lemma DecidedPairIsDisjoint(rows: Rows, cutoff: Instant, pairs: seq<Pair>, judge: nat -> Verdict, i: nat, t: Instant)
    requires Considered(rows, cutoff, pairs) && i < |pairs| && judge(i) != Unsure
    ensures
      var after := ResolveAll(rows, pairs, judge);
      var l, w := LoserOf(pairs[i], judge(i)), WinnerOf(pairs[i], judge(i));
      && l in after && w in after && after[w] == rows[w]
      && !(InInterval(after[l], t) && InInterval(after[w], t))
      && after[l].validUntil.Some? && after[l].validFrom <= after[l].validUntil.value
      && after[l].status == Superseded && after[l].supersededBy == Some(w)
  {
    assert IsPairGroup(rows, cutoff, pairs[i]);
    ResolvedAlone(rows, cutoff, pairs, judge, i, pairs[i].a);
    ResolvedAlone(rows, cutoff, pairs, judge, i, pairs[i].b);
  }

  /** However late the next run, it considers no pair that contains a decided loser. */
  lemma NextRunSkipsLosers(rows: Rows, cutoff: Instant, pairs: seq<Pair>, judge: nat -> Verdict, i: nat,
                           cutoff2: Instant, pairs2: seq<Pair>, j: nat)
    requires Considered(rows, cutoff, pairs) && i < |pairs| && judge(i) != Unsure
    requires Considered(ResolveAll(rows, pairs, judge), cutoff2, pairs2) && j < |pairs2|
    ensures !In(LoserOf(pairs[i], judge(i)), pairs2[j])
  {
    DecidedPairIsDisjoint(rows, cutoff, pairs, judge, i, 0);
    assert IsPairGroup(ResolveAll(rows, pairs, judge), cutoff2, pairs2[j]);
  }

  /** Facts in a group of one, or of three or more, keep their rows. */
  lemma OtherGroupsUntouched(rows: Rows, cutoff: Instant, pairs: seq<Pair>, judge: nat -> Verdict, id: FactId)
    requires Considered(rows, cutoff, pairs) && id in rows
    requires !exists p :: IsPairGroup(rows, cutoff, p) && In(id, p)
    ensures ResolveAll(rows, pairs, judge).Keys == rows.Keys
    ensures ResolveAll(rows, pairs, judge)[id] == rows[id]
  {
    OutsideUntouched(rows, cutoff, pairs, judge, id);
  }

  /** The group is counted among aged facts only, so a three-way disagreement with one young
      member is treated as a pair and decided. */
  lemma YoungThirdIsIgnored(judge: nat -> Verdict)
    requires judge(0) == BWins
    ensures
      var f := Fact("e", "p", None, Competing, 0, None, 0, None, None, None, None, None, {}, true);
      var rows: Rows := map[0 := f, 1 := f, 2 := f.(recordedAt := 9)];
      && Considered(rows, 5, [Pair(0, 1)])
      && (forall id :: id in rows ==> rows[id].status == Competing && Key(rows[id]) == Key(f))
      && 0 in ResolveAll(rows, [Pair(0, 1)], judge)
      && ResolveAll(rows, [Pair(0, 1)], judge)[0].status == Superseded
  {
    var f := Fact("e", "p", None, Competing, 0, None, 0, None, None, None, None, None, {}, true);
    var rows: Rows := map[0 := f, 1 := f, 2 := f.(recordedAt := 9)];
    assert 0 in Aged(rows, 5) && 1 in Aged(rows, 5) && 2 !in Aged(rows, 5);
    assert IsPairGroup(rows, 5, Pair(0, 1));
    ResolvedAlone(rows, 5, [Pair(0, 1)], judge, 0, 0);
  }

  // -------------------------------------------------------------- service

  /** Every group of exactly two has been turned into a pair. */
  ghost predicate AllCovered(rows: Rows, cutoff: Instant, pairs: seq<Pair>)
    requires Considered(rows, cutoff, pairs)
  {
    forall p :: IsPairGroup(rows, cutoff, p) ==>
      exists i :: 0 <= i < |pairs| && Key(rows[pairs[i].a]) == Key(rows[p.a])
  }

  /** The aged competing facts under key `k`. */
  function Group(rows: Rows, cutoff: Instant, k: string): set<FactId> {
    set id | id in Aged(rows, cutoff) && Key(rows[id]) == k
  }

  lemma PairIsGroup(rows: Rows, cutoff: Instant, p: Pair)
    requires IsPairGroup(rows, cutoff, p)
    ensures Group(rows, cutoff, Key(rows[p.a])) == {p.a, p.b} && |{p.a, p.b}| == 2
  {
  }

  lemma GroupOfTwo(rows: Rows, cutoff: Instant, k: string) returns (p: Pair)
    requires |Group(rows, cutoff, k)| == 2
    ensures IsPairGroup(rows, cutoff, p) && Key(rows[p.a]) == k
  {
    var g := Group(rows, cutoff, k);
    var a :| a in g;
    assert |g - {a}| == 1;
    var b :| b in g - {a};
    assert g - {a} - {b} == {} by {
      assert |g - {a} - {b}| == 0;
    }
    p := Pair(a, b);
    forall id | id in Aged(rows, cutoff) && Key(rows[id]) == k ensures id == a || id == b {
      assert id in g;
    }
  }

  /** The i-th pair was decided against `id`. */
  predicate Lost(pairs: seq<Pair>, judge: nat -> Verdict, i: nat, id: FactId) {
    i < |pairs| && judge(i) != Unsure && LoserOf(pairs[i], judge(i)) == id
  }

  /** A run changes a fact's row if and only if the fact is one of exactly two aged rivals and was decided against. */
  lemma RowChangesIff(rows: Rows, cutoff: Instant, pairs: seq<Pair>, judge: nat -> Verdict, id: FactId)
    requires Considered(rows, cutoff, pairs) && id in rows
    ensures id in ResolveAll(rows, pairs, judge)
    ensures ResolveAll(rows, pairs, judge)[id] != rows[id]
       <==> id in Aged(rows, cutoff) && |Group(rows, cutoff, Key(rows[id]))| == 2 && exists i: nat :: Lost(pairs, judge, i, id)
  {
    if i :| 0 <= i < |pairs| && In(id, pairs[i]) {
      assert IsPairGroup(rows, cutoff, pairs[i]);
      PairIsGroup(rows, cutoff, pairs[i]);
      ResolvedAlone(rows, cutoff, pairs, judge, i, id);
      if Lost(pairs, judge, i, id) {
        DecidedPairIsDisjoint(rows, cutoff, pairs, judge, i, 0);
      }
      forall j: nat | Lost(pairs, judge, j, id) ensures i == j {
        PairsAreDisjoint(rows, cutoff, pairs, i, j, id);
      }
    } else {
      OutsideUntouched(rows, cutoff, pairs, judge, id);
      assert forall j: nat :: Lost(pairs, judge, j, id) ==> In(id, pairs[j]);
    }
  }

  lemma PairOfKey(rows: Rows, cutoff: Instant, pairs: seq<Pair>, k: string) returns (i: nat)
    requires Considered(rows, cutoff, pairs) && AllCovered(rows, cutoff, pairs) && |Group(rows, cutoff, k)| == 2
    ensures i < |pairs| && pairs[i].a in rows && pairs[i].b in rows
    ensures Key(rows[pairs[i].a]) == Key(rows[pairs[i].b]) == k
  {
    var p := GroupOfTwo(rows, cutoff, k);
    i :| 0 <= i < |pairs| && Key(rows[pairs[i].a]) == Key(rows[p.a]);
    assert IsPairGroup(rows, cutoff, pairs[i]);
  }

  lemma {:induction false} LoserChanges(rows: Rows, cutoff: Instant, pairs: seq<Pair>, judge: nat -> Verdict, i: nat)
    requires Considered(rows, cutoff, pairs) && i < |pairs| && judge(i) != Unsure
    ensures
      var l := LoserOf(pairs[i], judge(i));
      l in rows && l in ResolveAll(rows, pairs, judge) && ResolveAll(rows, pairs, judge)[l] != rows[l]
  {
    DecidedPairIsDisjoint(rows, cutoff, pairs, judge, i, 0);
    assert IsPairGroup(rows, cutoff, pairs[i]);
  }

  /** A key's facts all keep their rows if and only if the aged ones among its rivals are not exactly two: three rivals
      are left alone when all are old enough, not when one is young. */
  lemma KeyUntouchedIff(rows: Rows, cutoff: Instant, pairs: seq<Pair>, judge: nat -> Verdict, k: string)
    requires Considered(rows, cutoff, pairs) && AllCovered(rows, cutoff, pairs)
    requires forall i :: 0 <= i < |pairs| ==> judge(i) != Unsure
    ensures (forall id :: id in rows && Key(rows[id]) == k ==>
               id in ResolveAll(rows, pairs, judge) && ResolveAll(rows, pairs, judge)[id] == rows[id])
       <==> |Group(rows, cutoff, k)| != 2
  {
    if |Group(rows, cutoff, k)| == 2 {
      var i := PairOfKey(rows, cutoff, pairs, k);
      LoserChanges(rows, cutoff, pairs, judge, i);
      assert Key(rows[LoserOf(pairs[i], judge(i))]) == k;
    } else {
      forall id | id in rows && Key(rows[id]) == k
        ensures id in ResolveAll(rows, pairs, judge) && ResolveAll(rows, pairs, judge)[id] == rows[id]
      {
        RowChangesIff(rows, cutoff, pairs, judge, id);
      }
    }
  }

  /** The grouping built so far from the rows in `seen`. */
  ghost predicate Grouped(rows: Rows, seen: set<FactId>, keys: seq<string>, groups: map<string, seq<FactId>>) {
    && seen <= rows.Keys
    && Distinct(keys) && Elems(keys) == groups.Keys
    && (forall k :: k in groups ==> Distinct(groups[k]) && groups[k] != [])
    && (forall k :: k in groups ==> forall id :: id in groups[k] <==> id in seen && Key(rows[id]) == k)
    && (forall id :: id in seen ==> Key(rows[id]) in groups)
  }

  lemma GroupedNext(rows: Rows, seen: set<FactId>, keys: seq<string>, groups: map<string, seq<FactId>>, id: FactId)
    requires Grouped(rows, seen, keys, groups) && id in rows && id !in seen
    ensures
      var k := Key(rows[id]);
      if k in groups then Grouped(rows, seen + {id}, keys, groups[k := groups[k] + [id]])
      else Grouped(rows, seen + {id}, keys + [k], groups[k := [id]])
  {
    var k := Key(rows[id]);
    if k !in groups {
      assert k !in Elems(keys);
      assert Elems(keys + [k]) == Elems(keys) + {k};
    }
  }

  ghost predicate HasKey(rows: Rows, pairs: seq<Pair>, k: string) {
    exists j :: 0 <= j < |pairs| && pairs[j].a in rows && Key(rows[pairs[j].a]) == k
  }

  /** The pairs made from the first n keys. */
  ghost predicate PairedUpTo(rows: Rows, cutoff: Instant, keys: seq<string>, groups: map<string, seq<FactId>>, n: nat, pairs: seq<Pair>) {
    && n <= |keys| && Elems(keys) == groups.Keys
    && Considered(rows, cutoff, pairs)
    && (forall j :: 0 <= j < |pairs| ==> Key(rows[pairs[j].a]) in keys[..n])
    && (forall m :: 0 <= m < n && keys[m] in groups && |groups[keys[m]]| == 2 ==> HasKey(rows, pairs, keys[m]))
  }

  lemma ConsideredSnoc(rows: Rows, cutoff: Instant, pairs: seq<Pair>, p: Pair)
    requires Considered(rows, cutoff, pairs) && IsPairGroup(rows, cutoff, p)
    requires forall j :: 0 <= j < |pairs| ==> Key(rows[pairs[j].a]) != Key(rows[p.a])
    ensures Considered(rows, cutoff, pairs + [p])
  {
  }

  lemma HasKeySnoc(rows: Rows, pairs: seq<Pair>, p: Pair, k: string)
    requires HasKey(rows, pairs, k) || (p.a in rows && Key(rows[p.a]) == k)
    ensures HasKey(rows, pairs + [p], k)
  {
    if HasKey(rows, pairs, k) {
      var j :| 0 <= j < |pairs| && pairs[j].a in rows && Key(rows[pairs[j].a]) == k;
      assert (pairs + [p])[j] == pairs[j];
    } else {
      assert (pairs + [p])[|pairs|] == p;
    }
  }

  lemma GroupIsPair(rows: Rows, cutoff: Instant, keys: seq<string>, groups: map<string, seq<FactId>>, k: string)
    requires Grouped(rows, Aged(rows, cutoff), keys, groups) && k in groups && |groups[k]| == 2
    ensures IsPairGroup(rows, cutoff, Pair(groups[k][0], groups[k][1])) && Key(rows[groups[k][0]]) == k
  {
    var g := groups[k];
    assert g[0] in g && g[1] in g;
    assert forall id :: id in g ==> id == g[0] || id == g[1];
  }

  lemma PairedNext(rows: Rows, cutoff: Instant, keys: seq<string>, groups: map<string, seq<FactId>>, n: nat, pairs: seq<Pair>, p: Pair)
    requires n < |keys| && keys[n] !in keys[..n] && IsPairGroup(rows, cutoff, p) && Key(rows[p.a]) == keys[n]
    requires PairedUpTo(rows, cutoff, keys, groups, n, pairs)
    ensures PairedUpTo(rows, cutoff, keys, groups, n + 1, pairs + [p])
  {
    assert keys[..n+1] == keys[..n] + [keys[n]];
    ConsideredSnoc(rows, cutoff, pairs, p);
    forall m | 0 <= m < n + 1 && keys[m] in groups && |groups[keys[m]]| == 2 ensures HasKey(rows, pairs + [p], keys[m]) {
      HasKeySnoc(rows, pairs, p, keys[m]);
    }
  }

  lemma PairedSkip(rows: Rows, cutoff: Instant, keys: seq<string>, groups: map<string, seq<FactId>>, n: nat, pairs: seq<Pair>)
    requires n < |keys| && keys[n] in groups && |groups[keys[n]]| != 2
    requires PairedUpTo(rows, cutoff, keys, groups, n, pairs)
    ensures PairedUpTo(rows, cutoff, keys, groups, n + 1, pairs)
  {
    assert keys[..n+1] == keys[..n] + [keys[n]];
  }

  lemma PairedAll(rows: Rows, cutoff: Instant, keys: seq<string>, groups: map<string, seq<FactId>>, pairs: seq<Pair>)
    requires Grouped(rows, Aged(rows, cutoff), keys, groups) && PairedUpTo(rows, cutoff, keys, groups, |keys|, pairs)
    ensures AllCovered(rows, cutoff, pairs)
  {
    forall p | IsPairGroup(rows, cutoff, p)
      ensures exists j :: 0 <= j < |pairs| && Key(rows[pairs[j].a]) == Key(rows[p.a])
    {
      PairGroupHasSizeTwo(rows, cutoff, keys, groups, p);
      assert Key(rows[p.a]) in Elems(keys);
      var m :| 0 <= m < |keys| && keys[m] == Key(rows[p.a]);
      assert HasKey(rows, pairs, keys[m]);
    }
  }

  class DreamsResolver {
    var rows: Rows

    constructor (initial: Rows)
      ensures rows == initial
    {
      rows := initial;
    }

    method GroupByKey(cutoff: Instant) returns (keys: seq<string>, groups: map<string, seq<FactId>>)
      ensures Grouped(rows, Aged(rows, cutoff), keys, groups)
    {
      var all := Enumerate(Aged(rows, cutoff));
      keys, groups := [], map[];
      for i := 0 to |all|
        invariant Grouped(rows, Elems(all[..i]), keys, groups)
      {
        var id := all[i];
        assert id in Elems(all) && id !in Elems(all[..i]);
        assert Elems(all[..i+1]) == Elems(all[..i]) + {id};
        GroupedNext(rows, Elems(all[..i]), keys, groups, id);
        var k := Key(rows[id]);
        if k in groups {
          groups := groups[k := groups[k] + [id]];
        } else {
          keys, groups := keys + [k], groups[k := [id]];
        }
      }
      assert all[..|all|] == all;
    }

    method FindCompetingPairs(cutoff: Instant, maxPairs: int) returns (pairs: seq<Pair>)
      ensures Considered(rows, cutoff, pairs)
      ensures |pairs| <= Max(1, maxPairs)
      ensures |pairs| < Max(1, maxPairs) ==> AllCovered(rows, cutoff, pairs)
    {
      var keys, groups := GroupByKey(cutoff);
      pairs := [];
      for i := 0 to |keys|
        invariant PairedUpTo(rows, cutoff, keys, groups, i, pairs)
        invariant |pairs| < Max(1, maxPairs)
      {
        assert keys[i] in Elems(keys);
        var group := groups[keys[i]];
        if |group| != 2 {
          PairedSkip(rows, cutoff, keys, groups, i, pairs);
        } else {
          GroupIsPair(rows, cutoff, keys, groups, keys[i]);
          PairedNext(rows, cutoff, keys, groups, i, pairs, Pair(group[0], group[1]));
          pairs := pairs + [Pair(group[0], group[1])];
          if |pairs| >= maxPairs {
            return;
          }
        }
      }
      PairedAll(rows, cutoff, keys, groups, pairs);
    }

    /** One run; `judge(i)` is the model's verdict on the i-th pair. */
    method Run(enabled: bool, cutoff: Instant, maxPairs: int, judge: nat -> Verdict)
      returns (pairs: seq<Pair>, unsure: nat, resolutions: seq<Resolution>)
      modifies this
      ensures Considered(old(rows), cutoff, pairs)
      ensures rows == ResolveAll(old(rows), pairs, judge)
      ensures !enabled ==> pairs == []
      ensures enabled && |pairs| < Max(1, maxPairs) ==> AllCovered(old(rows), cutoff, pairs)
      ensures unsure + |resolutions| == |pairs|
      ensures forall r :: r in resolutions <==>
        exists i :: 0 <= i < |pairs|
                    && (|| (judge(i) == AWins && r == Resolution(pairs[i].a, pairs[i].b))
                        || (judge(i) == BWins && r == Resolution(pairs[i].b, pairs[i].a)))
    {
      pairs, unsure, resolutions := [], 0, [];
      if !enabled {
        return;
      }
      pairs := FindCompetingPairs(cutoff, maxPairs);
      for i := 0 to |pairs|
        invariant rows == ResolveAll(old(rows), pairs[..i], judge)
        invariant unsure + |resolutions| == i
        invariant forall r :: r in resolutions <==>
          exists j :: 0 <= j < i
                      && (|| (judge(j) == AWins && r == Resolution(pairs[j].a, pairs[j].b))
                          || (judge(j) == BWins && r == Resolution(pairs[j].b, pairs[j].a)))
      {
        var verdict := judge(i);
        assert pairs[..i+1][..i] == pairs[..i];
        if verdict == Unsure {
          unsure := unsure + 1;
        } else {
          var loser, winner := LoserOf(pairs[i], verdict), WinnerOf(pairs[i], verdict);
          rows := MarkSuperseded(rows, loser, winner);
          resolutions := resolutions + [Resolution(winner, loser)];
        }
      }
      assert pairs[..|pairs|] == pairs;
    }
  }

  lemma PairGroupHasSizeTwo(rows: Rows, cutoff: Instant, keys: seq<string>, groups: map<string, seq<FactId>>, p: Pair)
    requires Grouped(rows, Aged(rows, cutoff), keys, groups) && IsPairGroup(rows, cutoff, p)
    ensures Key(rows[p.a]) in groups && |groups[Key(rows[p.a])]| == 2
  {
    var g := groups[Key(rows[p.a])];
    assert Elems(g) == {p.a, p.b};
    DistinctSize(g);
  }
}
