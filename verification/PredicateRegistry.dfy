/** The predicate registry: alias chains over arbitrary tables, and the canonicalization loop on top. */
module PredicateRegistry {
  import opened Common

  datatype Status = Active | Proposed | Aliased | Deprecated

  datatype Row<E> = Row(id: string, status: Status, aliasedTo: Option<string>, embedding: Option<E>)

  const MAX_CHAIN := 8

  /** predicateId carries a UNIQUE index. */
  ghost predicate Keyed<E>(table: seq<Row<E>>) {
    forall i, j :: 0 <= i < j < |table| ==> table[i].id != table[j].id
  }

  function Find<E>(table: seq<Row<E>>, id: string): Option<Row<E>> {
    if table == [] then None
    else if table[|table|-1].id == id then Some(table[|table|-1])
    else Find(table[..|table|-1], id)
  }

  predicate IsActive<E>(table: seq<Row<E>>, id: string) {
    Find(table, id).Some? && Find(table, id).value.status == Active
  }

  predicate Chains<E>(r: Row<E>) {
    r.status == Aliased && r.aliasedTo.Some? && r.aliasedTo.value != ""
  }

  /** The row reached from `r` after n alias hops; nothing when the chain ends or dangles before that. */
  function Hops<E>(table: seq<Row<E>>, r: Row<E>, n: nat): Option<Row<E>> {
    if n == 0 then Some(r)
    else
      match Hops(table, r, n - 1)
      case None => None
      case Some(x) => if Chains(x) then Find(table, x.aliasedTo.value) else None
  }

  /** x is an alias, in at most eight hops, of the active predicate y. */
  ghost predicate Resolves<E>(table: seq<Row<E>>, x: string, y: string) {
    exists n: nat :: n <= MAX_CHAIN && ResolvesIn(table, x, y, n)
  }

  ghost predicate ResolvesIn<E>(table: seq<Row<E>>, x: string, y: string, n: nat) {
    && Find(table, x).Some?
    && var end := Hops(table, Find(table, x).value, n);
       end.Some? && end.value.id == y && end.value.status == Active
  }

  lemma {:induction false} FindRow<E>(table: seq<Row<E>>, i: nat)
    requires Keyed(table) && i < |table|
    ensures Find(table, table[i].id) == Some(table[i])
  {
    if i < |table| - 1 {
      assert table[i].id != table[|table|-1].id;
      FindRow(table[..|table|-1], i);
    }
  }

  lemma {:induction false} FindId<E>(table: seq<Row<E>>, id: string)
    requires Find(table, id).Some?
    ensures Find(table, id).value.id == id && Find(table, id).value in table
  {
    if table[|table|-1].id != id {
      FindId(table[..|table|-1], id);
    }
  }

  /** Where the hop count stops mattering: an active row chains no further. */
  lemma {:induction false} HopsStop<E>(table: seq<Row<E>>, r: Row<E>, n: nat, m: nat)
    requires n < m && Hops(table, r, n).Some? && !Chains(Hops(table, r, n).value)
    ensures Hops(table, r, m).None?
    decreases m
  {
    if n + 1 < m {
      HopsStop(table, r, n, m - 1);
    }
  }

  lemma ResolvesUnique<E>(table: seq<Row<E>>, x: string, y: string, z: string)
    requires Resolves(table, x, y) && Resolves(table, x, z)
    ensures y == z
  {
    var n: nat :| n <= MAX_CHAIN && ResolvesIn(table, x, y, n);
    var m: nat :| m <= MAX_CHAIN && ResolvesIn(table, x, z, m);
    var r := Find(table, x).value;
    if n < m {
      HopsStop(table, r, n, m);
    } else if m < n {
      HopsStop(table, r, m, n);
    }
  }

  lemma {:induction false} HopsInTable<E>(table: seq<Row<E>>, r: Row<E>, n: nat)
    requires r in table && Hops(table, r, n).Some?
    ensures Hops(table, r, n).value in table
  {
    if n > 0 {
      FindId(table, Hops(table, r, n - 1).value.aliasedTo.value);
    }
  }

  /** The walk from `r` stopped exactly after `hops` hops. */
  ghost predicate StopsAt<E>(table: seq<Row<E>>, r: Row<E>, hops: nat) {
    && hops <= MAX_CHAIN
    && (forall m: nat :: m < hops ==> Hops(table, r, m).Some? && Chains(Hops(table, r, m).value))
    && (hops == MAX_CHAIN || Hops(table, r, hops).None? || !Chains(Hops(table, r, hops).value))
  }

  /** The loop from one row: follow aliasedTo while there is one, at most eight times. */
  method Follow<E>(table: seq<Row<E>>, def: Row<E>) returns (end: Option<Row<E>>, hops: nat)
    ensures StopsAt(table, def, hops) && end == Hops(table, def, hops)
  {
    end, hops := Some(def), 0;
    while end.Some? && Chains(end.value) && hops < MAX_CHAIN
      invariant hops <= MAX_CHAIN && end == Hops(table, def, hops)
      invariant forall m: nat :: m < hops ==> Hops(table, def, m).Some? && Chains(Hops(table, def, m).value)
    {
      end := Find(table, end.value.aliasedTo.value);
      hops := hops + 1;
    }
  }

  /** What the loop finds from a row is all there is to find. */
  lemma FollowIsComplete<E>(table: seq<Row<E>>, i: nat, hops: nat, y: string)
    requires Keyed(table) && i < |table| && StopsAt(table, table[i], hops)
    ensures Resolves(table, table[i].id, y) <==>
      var end := Hops(table, table[i], hops);
      end.Some? && end.value.status == Active && end.value.id == y
  {
    FindRow(table, i);
    var r := table[i];
    if Resolves(table, r.id, y) {
      var n: nat :| n <= MAX_CHAIN && ResolvesIn(table, r.id, y, n);
      if hops < n {
        StoppedAfter(table, r, hops, n);
      }
      assert n == hops;
    } else {
      assert !ResolvesIn(table, r.id, y, hops);
    }
  }

  lemma {:induction false} StoppedAfter<E>(table: seq<Row<E>>, r: Row<E>, hops: nat, n: nat)
    requires hops < n && (Hops(table, r, hops).None? || !Chains(Hops(table, r, hops).value))
    ensures Hops(table, r, n).None?
    decreases n
  {
    if hops + 1 < n {
      StoppedAfter(table, r, hops, n - 1);
    }
  }

  // ---------------------------------------------------------------- snapshots

  /** The alias map says exactly what the chains say. */
  ghost predicate IsAliasMap<E>(table: seq<Row<E>>, m: map<string, string>) {
    forall x, y :: (x in m && m[x] == y) <==> Resolves(table, x, y)
  }

  method BuildAliasMap<E>(table: seq<Row<E>>) returns (m: map<string, string>)
    requires Keyed(table)
    ensures IsAliasMap(table, m)
  {
    m := map[];
    for i := 0 to |table|
      invariant forall x :: x in m ==> Resolves(table, x, m[x])
      invariant forall k, y :: 0 <= k < i && Resolves(table, table[k].id, y) ==> table[k].id in m && m[table[k].id] == y
    {
      var end, hops := Follow(table, table[i]);
      forall y ensures Resolves(table, table[i].id, y) <==> end.Some? && end.value.status == Active && end.value.id == y {
        FollowIsComplete(table, i, hops, y);
      }
      if end.Some? && end.value.status == Active {
        m := m[table[i].id := end.value.id];
      }
    }
    forall x, y | Resolves(table, x, y) ensures x in m && m[x] == y {
      RowBehind(table, x, y);
    }
    forall x, y | x in m && m[x] == y ensures Resolves(table, x, y) {}
  }

  lemma RowBehind<E>(table: seq<Row<E>>, x: string, y: string)
    requires Resolves(table, x, y)
    ensures exists k :: 0 <= k < |table| && table[k].id == x
  {
    FindId(table, x);
    var k :| 0 <= k < |table| && table[k] == Find(table, x).value;
  }

  /** Canonical ids are active, and their own canonical id: the map is idempotent. */
  lemma AliasMapIdempotent<E>(table: seq<Row<E>>, m: map<string, string>, x: string)
    requires Keyed(table) && IsAliasMap(table, m) && x in m
    ensures IsActive(table, m[x]) && m[x] in m && m[m[x]] == m[x]
  {
    assert Resolves(table, x, m[x]);
    var n: nat :| n <= MAX_CHAIN && ResolvesIn(table, x, m[x], n);
    var r := Find(table, x).value;
    FindId(table, x);
    HopsInTable(table, r, n);
    ActiveResolvesToItself(table, Hops(table, r, n).value);
  }

  lemma ActiveResolvesToItself<E>(table: seq<Row<E>>, r: Row<E>)
    requires Keyed(table) && r in table && r.status == Active
    ensures IsActive(table, r.id) && Resolves(table, r.id, r.id)
  {
    var i :| 0 <= i < |table| && table[i] == r;
    FindRow(table, i);
    assert Hops(table, r, 0) == Some(r);
    assert ResolvesIn(table, r.id, r.id, 0);
  }

  // ---------------------------------------------------------- canonicalization

  /** The active predicates that have an embedding, in table order. */
  function Scored<E>(table: seq<Row<E>>): seq<(string, E)> {
    if table == [] then []
    else
      var r := table[|table|-1];
      Scored(table[..|table|-1]) + (if r.status == Active && r.embedding.Some? then [(r.id, r.embedding.value)] else [])
  }

  datatype Snapshot<E> = Snapshot(byId: set<string>, aliasMap: map<string, string>, scored: seq<(string, E)>)

  ghost predicate IsSnapshot<E>(table: seq<Row<E>>, s: Snapshot<E>) {
    && (forall x :: x in s.byId <==> IsActive(table, x))
    && IsAliasMap(table, s.aliasMap)
    && s.scored == Scored(table)
  }

  datatype Decision = Matched(canonical: string) | NowAliased(canonical: string, similarity: real) | NowProposed(canonical: string)

  datatype Best = Best(id: string, similarity: real)

  /** The first of the most similar predicates. */
  function BestMatch<E>(scored: seq<(string, E)>, query: E, sim: (E, E) -> real): Option<Best> {
    if scored == [] then None
    else
      var best := BestMatch(scored[..|scored|-1], query, sim);
      var (id, e) := scored[|scored|-1];
      if best.None? || sim(query, e) > best.value.similarity then Some(Best(id, sim(query, e))) else best
  }

  ghost predicate IsFirstMaximum<E>(scored: seq<(string, E)>, query: E, sim: (E, E) -> real, k: int) {
    && 0 <= k < |scored|
    && (forall i :: 0 <= i < |scored| ==> sim(query, scored[i].1) <= sim(query, scored[k].1))
    && (forall i :: 0 <= i < k ==> sim(query, scored[i].1) < sim(query, scored[k].1))
  }

  lemma {:induction false} BestIsFirstMaximum<E>(scored: seq<(string, E)>, query: E, sim: (E, E) -> real) returns (k: int)
    requires scored != []
    ensures IsFirstMaximum(scored, query, sim, k)
    ensures BestMatch(scored, query, sim) == Some(Best(scored[k].0, sim(query, scored[k].1)))
  {
    var n := |scored| - 1;
    var front := scored[..n];
    if n == 0 {
      k := 0;
    } else {
      var j := BestIsFirstMaximum(front, query, sim);
      assert front[j] == scored[j];
      k := if sim(query, scored[n].1) > sim(query, scored[j].1) then n else j;
      assert forall i :: 0 <= i < n ==> front[i] == scored[i];
    }
  }

  function Decide<E>(s: Snapshot<E>, predicateId: string, query: Option<E>, sim: (E, E) -> real, threshold: real): Decision {
    if predicateId in s.aliasMap && s.aliasMap[predicateId] != "" && s.aliasMap[predicateId] in s.byId then
      Matched(s.aliasMap[predicateId])
    else if predicateId in s.byId then Matched(predicateId)
    else
      var best := if query.Some? then BestMatch(s.scored, query.value, sim) else None;
      if best.Some? && best.value.similarity >= threshold then NowAliased(best.value.id, best.value.similarity)
      else NowProposed(predicateId)
  }

  /** The row a decision inserts. */
  function NewRow<E>(predicateId: string, d: Decision, query: Option<E>): Row<E>
    requires !d.Matched?
  {
    if d.NowAliased? then Row(predicateId, Aliased, Some(d.canonical), query)
    else Row(predicateId, Proposed, None, query)
  }

  lemma {:induction false} ScoredActive<E>(table: seq<Row<E>>, i: nat)
    requires i < |Scored(table)|
    ensures exists r :: r in table && r.id == Scored(table)[i].0 && r.status == Active
  {
    var front := table[..|table|-1];
    if i < |Scored(front)| {
      ScoredActive(front, i);
      var r :| r in front && r.id == Scored(front)[i].0 && r.status == Active;
      assert r in table;
    }
  }

  lemma AliasTargetIsActive<E>(table: seq<Row<E>>, s: Snapshot<E>, p: string, query: Option<E>, sim: (E, E) -> real, threshold: real)
    requires Keyed(table) && IsSnapshot(table, s) && Decide(s, p, query, sim, threshold).NowAliased?
    ensures IsActive(table, Decide(s, p, query, sim, threshold).canonical)
  {
    var k := BestIsFirstMaximum(s.scored, query.value, sim);
    ScoredActive(table, k);
    var r :| r in table && r.id == s.scored[k].0 && r.status == Active;
    ActiveResolvesToItself(table, r);
  }

  /** A predicate with a usable canonical id is matched to it; one that is itself active, to itself. */
  lemma KnownIsMatched<E>(table: seq<Row<E>>, s: Snapshot<E>, p: string, query: Option<E>, sim: (E, E) -> real, threshold: real)
    requires Keyed(table) && IsSnapshot(table, s)
    ensures IsActive(table, p) && p != "" ==> Decide(s, p, query, sim, threshold) == Matched(p)
    ensures forall y :: Resolves(table, p, y) && y != "" ==> Decide(s, p, query, sim, threshold) == Matched(y)
  {
    if IsActive(table, p) {
      FindId(table, p);
      ActiveResolvesToItself(table, Find(table, p).value);
      if p in s.aliasMap {
        ResolvesUnique(table, p, p, s.aliasMap[p]);
      }
    }
    forall y | Resolves(table, p, y) && y != "" ensures Decide(s, p, query, sim, threshold) == Matched(y) {
      if p in s.aliasMap {
        ResolvesUnique(table, p, y, s.aliasMap[p]);
      }
      AliasMapIdempotent(table, s.aliasMap, p);
    }
  }

  /** Otherwise the predicate becomes an alias exactly when some active predicate with an embedding is similar enough,
      the threshold itself included, and then of the first of the most similar; else it is proposed under its own id. */
  lemma ThresholdDecides<E>(s: Snapshot<E>, p: string, query: Option<E>, sim: (E, E) -> real, threshold: real)
    requires p !in s.aliasMap && p !in s.byId
    ensures
      var d := Decide(s, p, query, sim, threshold);
      && (d.NowAliased? <==>
            query.Some? && exists i :: 0 <= i < |s.scored| && sim(query.value, s.scored[i].1) >= threshold)
      && (d.NowAliased? ==>
            exists k :: IsFirstMaximum(s.scored, query.value, sim, k)
                        && d == NowAliased(s.scored[k].0, sim(query.value, s.scored[k].1)))
      && (!d.NowAliased? ==> d == NowProposed(p))
  {
    if query.Some? && s.scored != [] {
      var k := BestIsFirstMaximum(s.scored, query.value, sim);
    }
  }

  /** What may be matched against: the active rows that have an embedding, in table order. */
  lemma {:induction false} ScoredIs<E>(table: seq<Row<E>>, id: string, e: E)
    ensures (id, e) in Scored(table) <==>
      exists k :: 0 <= k < |table| && table[k].id == id && table[k].status == Active && table[k].embedding == Some(e)
  {
    if table != [] {
      var n := |table| - 1;
      ScoredIs(table[..n], id, e);
      assert forall k :: 0 <= k < n ==> table[..n][k] == table[k];
    }
  }

  ghost predicate EndsAt<E>(table: seq<Row<E>>, r: Row<E>, n: nat, y: string) {
    Hops(table, r, n).Some? && Hops(table, r, n).value.id == y && Hops(table, r, n).value.status == Active
  }

  /** Eight hops are followed, nine are not. */
  lemma {:induction false} EightHops<E>(table: seq<Row<E>>, x: string, y: string)
    ensures Resolves(table, x, y) <==>
      Find(table, x).Some? && exists n: nat :: n <= 8 && EndsAt(table, Find(table, x).value, n, y)
  {
    if Resolves(table, x, y) {
      var n: nat :| n <= MAX_CHAIN && ResolvesIn(table, x, y, n);
      assert EndsAt(table, Find(table, x).value, n, y);
    } else if Find(table, x).Some? {
      forall n: nat | n <= 8 ensures !EndsAt(table, Find(table, x).value, n, y) {
        assert !ResolvesIn(table, x, y, n);
      }
    }
  }

  /** One hop goes from an aliased row to the row its target names, if there is one. */
  lemma {:induction false} HopIs<E>(table: seq<Row<E>>, r: Row<E>, n: nat)
    requires Hops(table, r, n).Some?
    ensures Hops(table, r, 0) == Some(r)
    ensures
      var x := Hops(table, r, n).value;
      Hops(table, r, n + 1)
      == if x.status == Aliased && x.aliasedTo.Some? && x.aliasedTo.value != "" then Find(table, x.aliasedTo.value) else None
  {
  }

  lemma UnknownNotResolved<E>(table: seq<Row<E>>, s: Snapshot<E>, p: string)
    requires IsSnapshot(table, s) && (Find(table, p).None? || (Find(table, p).value.status != Active && !Chains(Find(table, p).value)))
    ensures p !in s.aliasMap && p !in s.byId
  {
    if p in s.aliasMap {
      assert Resolves(table, p, s.aliasMap[p]);
      var n: nat :| n <= MAX_CHAIN && ResolvesIn(table, p, s.aliasMap[p], n);
      if n > 0 {
        StoppedAfter(table, Find(table, p).value, 0, n);
      }
    }
  }

  lemma AliasResolves<E>(table: seq<Row<E>>, s: Snapshot<E>, p: string, c: string)
    requires Keyed(table) && IsSnapshot(table, s) && Find(table, p).Some? && IsActive(table, c) && c != ""
    requires Find(table, p).value.status == Aliased && Find(table, p).value.aliasedTo == Some(c)
    ensures p in s.aliasMap && s.aliasMap[p] == c && c in s.byId
  {
    var r := Find(table, p).value;
    FindId(table, c);
    assert Hops(table, r, 0) == Some(r);
    assert Hops(table, r, 1) == Find(table, c);
    assert ResolvesIn(table, p, c, 1);
    assert Resolves(table, p, c);
  }

  /** A predicate that had no row keeps its canonical id when it is canonicalized again with the same context, as
      long as the active predicates are the same and whatever else happened to the table: an alias is matched from
      then on, a proposal is proposed again. */
  lemma CanonicalIdIsStable<E>(table: seq<Row<E>>, s: Snapshot<E>, later: seq<Row<E>>, s2: Snapshot<E>,
                               p: string, query: Option<E>, sim: (E, E) -> real, threshold: real)
    requires Keyed(table) && IsSnapshot(table, s) && Find(table, p).None?
    requires Keyed(later) && IsSnapshot(later, s2)
    requires s2.byId == s.byId && s2.scored == s.scored
    ensures !Decide(s, p, query, sim, threshold).Matched?
    ensures
      var d, d2 := Decide(s, p, query, sim, threshold), Decide(s2, p, query, sim, threshold);
      Find(later, p) == Some(NewRow(p, d, query)) ==>
        && d2.canonical == d.canonical
        && d2 == (if d.NowAliased? && d.canonical != "" then Matched(d.canonical) else d)
  {
    UnknownNotResolved(table, s, p);
    var d := Decide(s, p, query, sim, threshold);
    if Find(later, p) == Some(NewRow(p, d, query)) {
      if d.NowAliased? && d.canonical != "" {
        AliasTargetIsActive(table, s, p, query, sim, threshold);
        assert d.canonical in s.byId;
        AliasResolves(later, s2, p, d.canonical);
      } else {
        UnknownNotResolved(later, s2, p);
      }
    }
  }

  // ------------------------------------------------------------------- service

  class PredicateRegistryService<E> {
    const sim: (E, E) -> real
    const threshold: real
    var table: seq<Row<E>>
    var cached: Option<Snapshot<E>>

    constructor (sim: (E, E) -> real, threshold: real, table: seq<Row<E>>)
      ensures this.sim == sim && this.threshold == threshold && this.table == table && cached == None
    {
      this.sim, this.threshold, this.table, this.cached := sim, threshold, table, None;
    }

    method LoadFresh() returns (s: Snapshot<E>)
      requires Keyed(table)
      ensures IsSnapshot(table, s)
    {
      var byId: set<string>, scored: seq<(string, E)> := {}, [];
      for i := 0 to |table|
        invariant forall x :: x in byId <==> exists k :: 0 <= k < i && table[k].id == x && table[k].status == Active
        invariant scored == Scored(table[..i])
      {
        var r := table[i];
        assert table[..i+1][..i] == table[..i];
        if r.status == Active {
          byId := byId + {r.id};
          if r.embedding.Some? {
            scored := scored + [(r.id, r.embedding.value)];
          }
        }
      }
      assert table[..|table|] == table;
      forall x ensures x in byId <==> IsActive(table, x) {
        ActiveRow(table, x);
      }
      var aliasMap := BuildAliasMap(table);
      s := Snapshot(byId, aliasMap, scored);
    }

    method GetSnapshot(expired: bool) returns (s: Snapshot<E>)
      requires Keyed(table)
      modifies this`cached
      ensures cached == Some(s)
      ensures old(cached).Some? && !expired ==> s == old(cached).value
      ensures old(cached).None? || expired ==> IsSnapshot(table, s)
    {
      if cached.Some? && !expired {
        return cached.value;
      }
      s := LoadFresh();
      cached := Some(s);
    }

    /** `query` is the embedded context, absent when embedding failed; `createOk` says whether the insert got through
        besides the UNIQUE index. */
    method Canonicalize(p: string, query: Option<E>, expired: bool, createOk: bool) returns (d: Decision, ghost used: Snapshot<E>)
      requires Keyed(table)
      modifies this
      ensures d == Decide(used, p, query, sim, threshold) && Keyed(table)
      ensures old(cached).Some? && !expired ==> used == old(cached).value
      ensures old(cached).None? || expired ==> IsSnapshot(old(table), used)
      ensures !d.Matched? && createOk && Find(old(table), p).None? ==>
        && table == old(table) + [NewRow(p, d, query)] && cached == None
        && table[|old(table)|].id == p && table[|old(table)|].embedding == query
        && (d.NowAliased? ==>
              table[|old(table)|].status == Aliased && table[|old(table)|].aliasedTo == Some(d.canonical))
        && (d.NowProposed? ==> table[|old(table)|].status == Proposed && table[|old(table)|].aliasedTo == None)
      ensures d.Matched? || !createOk || Find(old(table), p).Some? ==> table == old(table) && cached == Some(used)
    {
      var s := GetSnapshot(expired);
      used := s;
      if p in s.aliasMap && s.aliasMap[p] != "" && s.aliasMap[p] in s.byId {
        return Matched(s.aliasMap[p]), used;
      }
      if p in s.byId {
        return Matched(p), used;
      }
      var best := None;
      if query.Some? {
        best := Closest(s.scored, query.value);
      }
      d := if best.Some? && best.value.similarity >= threshold then NowAliased(best.value.id, best.value.similarity)
           else NowProposed(p);
      if createOk && Find(table, p).None? {
        KeyedSnoc(table, NewRow(p, d, query));
        table := table + [NewRow(p, d, query)];
        cached := None;
      }
    }

    method Closest(scored: seq<(string, E)>, query: E) returns (best: Option<Best>)
      ensures best == BestMatch(scored, query, sim)
    {
      best := None;
      for i := 0 to |scored|
        invariant best == BestMatch(scored[..i], query, sim)
      {
        var (id, e) := scored[i];
        assert scored[..i+1][..i] == scored[..i];
        if best.None? || sim(query, e) > best.value.similarity {
          best := Some(Best(id, sim(query, e)));
        }
      }
      assert scored[..|scored|] == scored;
    }
  }

  lemma KeyedSnoc<E>(table: seq<Row<E>>, r: Row<E>)
    requires Keyed(table) && Find(table, r.id).None?
    ensures Keyed(table + [r])
  {
    forall i | 0 <= i < |table| ensures table[i].id != r.id {
      FindRow(table, i);
    }
  }

  lemma ActiveRow<E>(table: seq<Row<E>>, x: string)
    requires Keyed(table)
    ensures IsActive(table, x) <==> exists k :: 0 <= k < |table| && table[k].id == x && table[k].status == Active
  {
    if IsActive(table, x) {
      FindId(table, x);
      var k :| 0 <= k < |table| && table[k] == Find(table, x).value;
    }
    if k :| 0 <= k < |table| && table[k].id == x && table[k].status == Active {
      FindRow(table, k);
    }
  }
}
