/** memory_diff: what was learned, changed and unlearned in the half-open window [from, to). */
module MemoryDiff {
  import opened Common
  import opened Ordering
  import opened FactModel
  import Lifecycle

  datatype Row = Row(id: FactId, fact: Fact)

  datatype ChangedFact = ChangedFact(before: Row, replacedBy: FactId, after: Option<Row>)

  datatype DiffResult = BadWindow | Diff(created: seq<Row>, retracted: seq<Row>, changed: seq<ChangedFact>)

  predicate RecordedIn(r: Row, from: Instant, to: Instant) {
    from <= r.fact.recordedAt < to
  }

  predicate RetractedIn(r: Row, from: Instant, to: Instant) {
    r.fact.retractedAt.Some? && from <= r.fact.retractedAt.value < to
  }

  function RecordedKey(r: Row): int {
    r.fact.recordedAt
  }

  function RetractedKey(r: Row): int {
    if r.fact.retractedAt.Some? then r.fact.retractedAt.value else 0
  }

  predicate IsReplaced(r: Row) {
    r.fact.supersededBy.Some?
  }

  function Ids(s: seq<Row>): set<FactId> {
    set r | r in s :: r.id
  }

  ghost predicate Keyed(table: seq<Row>) {
    forall i, j :: 0 <= i < j < |table| ==> table[i].id != table[j].id
  }

  function CreatedRows(table: seq<Row>, from: Instant, to: Instant): seq<Row> {
    SortBy(RecordedKey, Filter((r: Row) => RecordedIn(r, from, to), table))
  }

  function RetractedRows(table: seq<Row>, from: Instant, to: Instant): seq<Row> {
    SortBy(RetractedKey, Filter((r: Row) => RetractedIn(r, from, to), table))
  }

  function Changed(table: seq<Row>, from: Instant, to: Instant): seq<Row> {
    Filter(IsReplaced, RetractedRows(table, from, to))
  }

  function PureRetracts(table: seq<Row>, from: Instant, to: Instant): seq<Row> {
    Filter((r: Row) => !IsReplaced(r), RetractedRows(table, from, to))
  }

  function Without(s: seq<Row>, ids: set<FactId>): seq<Row> {
    Filter((r: Row) => r.id !in ids, s)
  }

  function NetCreated(table: seq<Row>, from: Instant, to: Instant): seq<Row> {
    Without(CreatedRows(table, from, to), Ids(Changed(table, from, to)))
  }

  function Lookup(table: seq<Row>, id: FactId): Option<Row> {
    if table == [] then None
    else if table[0].id == id then Some(table[0])
    else Lookup(table[1..], id)
  }

  // -------------------------------------------------------------- buckets

  lemma InCreatedRows(table: seq<Row>, from: Instant, to: Instant, r: Row)
    ensures r in CreatedRows(table, from, to) <==> r in table && RecordedIn(r, from, to)
  {
    var p := (x: Row) => RecordedIn(x, from, to);
    SortElems(RecordedKey, Filter(p, table), r);
    FilterElems(p, table, r);
  }

  /** The window is half-open: what happens at `from` is in it, what happens at `to` is in the next one. */
  lemma WindowIs(table: seq<Row>, from: Instant, to: Instant, r: Row)
    ensures r in CreatedRows(table, from, to) <==> r in table && from <= r.fact.recordedAt && r.fact.recordedAt < to
    ensures r in RetractedRows(table, from, to) <==>
      r in table && r.fact.retractedAt.Some? && from <= r.fact.retractedAt.value && r.fact.retractedAt.value < to
    ensures r in Changed(table, from, to) <==> r in RetractedRows(table, from, to) && r.fact.supersededBy.Some?
    ensures r in PureRetracts(table, from, to) <==> r in RetractedRows(table, from, to) && r.fact.supersededBy.None?
  {
    InCreatedRows(table, from, to, r);
    var p := (x: Row) => RetractedIn(x, from, to);
    SortElems(RetractedKey, Filter(p, table), r);
    FilterElems(p, table, r);
    FilterElems(IsReplaced, RetractedRows(table, from, to), r);
    FilterElems((x: Row) => !IsReplaced(x), RetractedRows(table, from, to), r);
  }

  /** Created rows come in order of recording, retracted ones in order of retraction. */
  lemma WindowInOrder(table: seq<Row>, from: Instant, to: Instant, i: nat, j: nat)
    ensures i < j < |CreatedRows(table, from, to)| ==>
      CreatedRows(table, from, to)[i].fact.recordedAt <= CreatedRows(table, from, to)[j].fact.recordedAt
    ensures i < j < |RetractedRows(table, from, to)| ==>
      var a, b := RetractedRows(table, from, to)[i], RetractedRows(table, from, to)[j];
      a.fact.retractedAt.Some? && b.fact.retractedAt.Some? && a.fact.retractedAt.value <= b.fact.retractedAt.value
  {
    SortSorts(RecordedKey, Filter((r: Row) => RecordedIn(r, from, to), table));
    SortSorts(RetractedKey, Filter((r: Row) => RetractedIn(r, from, to), table));
    if i < j < |RetractedRows(table, from, to)| {
      WindowIs(table, from, to, RetractedRows(table, from, to)[i]);
      WindowIs(table, from, to, RetractedRows(table, from, to)[j]);
      assert RetractedKey(RetractedRows(table, from, to)[i]) <= RetractedKey(RetractedRows(table, from, to)[j]);
    }
    if i < j < |CreatedRows(table, from, to)| {
      assert RecordedKey(CreatedRows(table, from, to)[i]) <= RecordedKey(CreatedRows(table, from, to)[j]);
    }
  }

  lemma InChanged(table: seq<Row>, from: Instant, to: Instant, r: Row)
    ensures r in Changed(table, from, to) <==> r in table && RetractedIn(r, from, to) && IsReplaced(r)
    ensures r in PureRetracts(table, from, to) <==> r in table && RetractedIn(r, from, to) && !IsReplaced(r)
  {
    var p := (x: Row) => RetractedIn(x, from, to);
    SortElems(RetractedKey, Filter(p, table), r);
    FilterElems(p, table, r);
    FilterElems(IsReplaced, RetractedRows(table, from, to), r);
    FilterElems((x: Row) => !IsReplaced(x), RetractedRows(table, from, to), r);
  }

  lemma IdInChanged(table: seq<Row>, from: Instant, to: Instant, r: Row)
    requires Keyed(table) && r in table
    ensures r.id in Ids(Changed(table, from, to)) <==> RetractedIn(r, from, to) && IsReplaced(r)
  {
    InChanged(table, from, to, r);
    if r.id in Ids(Changed(table, from, to)) {
      var x :| x in Changed(table, from, to) && x.id == r.id;
      InChanged(table, from, to, x);
      var i :| 0 <= i < |table| && table[i] == x;
      var j :| 0 <= j < |table| && table[j] == r;
      assert x == r;
    }
  }

  lemma InNetCreated(table: seq<Row>, from: Instant, to: Instant, r: Row)
    ensures r in NetCreated(table, from, to)
       <==> r in table && RecordedIn(r, from, to) && r.id !in Ids(Changed(table, from, to))
  {
    InCreatedRows(table, from, to, r);
    var ids := Ids(Changed(table, from, to));
    FilterElems((x: Row) => x.id !in ids, CreatedRows(table, from, to), r);
  }

  /** A fact recorded in the window is reported once: as created or as changed; changed and retracted never overlap. */
  lemma NoDoubleSpend(table: seq<Row>, from: Instant, to: Instant, r: Row)
    requires Keyed(table) && r in table
    ensures RecordedIn(r, from, to) ==>
      (r in NetCreated(table, from, to) <==> r !in Changed(table, from, to))
    ensures !(r in Changed(table, from, to) && r in PureRetracts(table, from, to))
    ensures RetractedIn(r, from, to) ==> r in Changed(table, from, to) || r in PureRetracts(table, from, to)
  {
    InNetCreated(table, from, to, r);
    InChanged(table, from, to, r);
    IdInChanged(table, from, to, r);
  }

  // ---------------------------------------------------------- composition

  lemma WindowSplits(key: Row -> int, table: seq<Row>, whole: Row -> bool, first: Row -> bool, second: Row -> bool, b: Instant)
    requires forall r :: first(r) <==> whole(r) && key(r) < b
    requires forall r :: second(r) <==> whole(r) && key(r) >= b
    ensures SortBy(key, Filter(whole, table)) == SortBy(key, Filter(first, table)) + SortBy(key, Filter(second, table))
  {
    var below, above := (r: Row) => key(r) < b, (r: Row) => key(r) >= b;
    SortSplits(key, Filter(whole, table), b, below, above);
    FilterFilter(whole, below, first, table);
    FilterFilter(whole, above, second, table);
  }

  /** Consecutive windows: changes and retractions concatenate. */
  lemma ChangesCompose(table: seq<Row>, a: Instant, b: Instant, c: Instant)
    requires a < b < c
    ensures Changed(table, a, c) == Changed(table, a, b) + Changed(table, b, c)
    ensures PureRetracts(table, a, c) == PureRetracts(table, a, b) + PureRetracts(table, b, c)
  {
    WindowSplits(RetractedKey, table, (r: Row) => RetractedIn(r, a, c), (r: Row) => RetractedIn(r, a, b),
                 (r: Row) => RetractedIn(r, b, c), b);
    FilterConcat(IsReplaced, RetractedRows(table, a, b), RetractedRows(table, b, c));
    FilterConcat((r: Row) => !IsReplaced(r), RetractedRows(table, a, b), RetractedRows(table, b, c));
  }

  /** A fact replaced before it was recorded, split between the two windows. */
  predicate Early(r: Row, a: Instant, b: Instant, c: Instant) {
    RecordedIn(r, b, c) && RetractedIn(r, a, b) && IsReplaced(r)
  }

  lemma CreatedParts(table: seq<Row>, a: Instant, b: Instant, c: Instant)
    requires a < b < c
    ensures NetCreated(table, a, c)
         == Without(NetCreated(table, a, b), Ids(Changed(table, b, c)))
          + Without(CreatedRows(table, b, c), Ids(Changed(table, a, c)))
    ensures Ids(Changed(table, a, c)) == Ids(Changed(table, a, b)) + Ids(Changed(table, b, c))
  {
    WindowSplits(RecordedKey, table, (r: Row) => RecordedIn(r, a, c), (r: Row) => RecordedIn(r, a, b),
                 (r: Row) => RecordedIn(r, b, c), b);
    ChangesCompose(table, a, b, c);
    var all, early, late := Ids(Changed(table, a, c)), Ids(Changed(table, a, b)), Ids(Changed(table, b, c));
    assert all == early + late;
    FilterConcat((r: Row) => r.id !in all, CreatedRows(table, a, b), CreatedRows(table, b, c));
    FilterFilter((r: Row) => r.id !in early, (r: Row) => r.id !in late, (r: Row) => r.id !in all, CreatedRows(table, a, b));
  }

  /** The created bucket composes, once later changes are taken out of the first window, exactly when no
      fact was replaced in the first window and recorded only in the second. */
  lemma CreatesComposeIff(table: seq<Row>, a: Instant, b: Instant, c: Instant)
    requires a < b < c && Keyed(table)
    ensures NetCreated(table, a, c)
         == Without(NetCreated(table, a, b), Ids(Changed(table, b, c))) + NetCreated(table, b, c)
       <==> forall r :: r in table ==> !Early(r, a, b, c)
  {
    CreatedParts(table, a, b, c);
    if r :| r in table && Early(r, a, b, c) {
      InNetCreated(table, b, c, r);
      InNetCreated(table, a, c, r);
      IdInChanged(table, b, c, r);
      IdInChanged(table, a, c, r);
    } else {
      var rows := CreatedRows(table, b, c);
      var all, late := Ids(Changed(table, a, c)), Ids(Changed(table, b, c));
      forall i | 0 <= i < |rows| ensures rows[i].id !in all <==> rows[i].id !in late {
        InCreatedRows(table, b, c, rows[i]);
        IdInChanged(table, a, c, rows[i]);
        IdInChanged(table, b, c, rows[i]);
      }
      FilterAgree((r: Row) => r.id !in all, (r: Row) => r.id !in late, rows);
    }
  }

  /** A superseded fact is in no window's changed or retracted bucket if and only if it is not retracted too. */
  lemma SupersedeSilentIff(table: seq<Row>, r: Row)
    requires r in table && r.fact.status == Superseded
    ensures (forall from, to :: from < to ==> r !in Changed(table, from, to) && r !in PureRetracts(table, from, to))
       <==> r.fact.retractedAt.None?
  {
    if r.fact.retractedAt.Some? {
      var at := r.fact.retractedAt.value;
      InChanged(table, at, at + 1, r);
    } else {
      forall from, to | from < to ensures r !in Changed(table, from, to) && r !in PureRetracts(table, from, to) {
        InChanged(table, from, to, r);
      }
    }
  }

  /** Both writers of a supersede leave retractedAt as it is, so a superseded fact is silent in every store reached
      without a resolver's write to a fact that had been retracted meanwhile. */
  lemma SupersedeIsSilent(steps: seq<Lifecycle.Step>, table: seq<Row>, from: Instant, to: Instant, r: Row)
    requires Lifecycle.ValidRun(map[], steps) && Lifecycle.PromptRun(map[], steps)
    requires r in table && r.id in Lifecycle.Run(map[], steps) && r.fact == Lifecycle.Run(map[], steps)[r.id]
    requires r.fact.status == Superseded
    ensures r !in Changed(table, from, to) && r !in PureRetracts(table, from, to)
  {
    Lifecycle.TidyRunIff(map[], steps);
    Lifecycle.TidyAtEnd(map[], steps);
    InChanged(table, from, to, r);
  }

  // -------------------------------------------------------------- service

  function Befores(changed: seq<ChangedFact>): seq<Row> {
    seq(|changed|, i requires 0 <= i < |changed| => changed[i].before)
  }

  method DiffWindow(table: seq<Row>, from: Instant, to: Instant) returns (d: DiffResult)
    ensures d.BadWindow? <==> from >= to
    ensures d.Diff? ==>
      && d.created == NetCreated(table, from, to)
      && d.retracted == PureRetracts(table, from, to)
      && Befores(d.changed) == Changed(table, from, to)
      && (forall i :: 0 <= i < |d.changed| ==>
            d.changed[i].before.fact.supersededBy == Some(d.changed[i].replacedBy)
            && d.changed[i].after == Lookup(table, d.changed[i].replacedBy))
  {
    if from >= to {
      return BadWindow;
    }
    var changed, retracted, supersedees := Partition(RetractedRows(table, from, to));
    changed := Hydrate(table, changed);
    d := Diff(Without(CreatedRows(table, from, to), supersedees), retracted, changed);
  }

  /** Rows with a replacement are changes, the others pure retractions. */
  method Partition(rows: seq<Row>) returns (changed: seq<ChangedFact>, retracted: seq<Row>, supersedees: set<FactId>)
    ensures Befores(changed) == Filter(IsReplaced, rows)
    ensures retracted == Filter((r: Row) => !IsReplaced(r), rows)
    ensures supersedees == Ids(Befores(changed))
    ensures forall k :: 0 <= k < |changed| ==> changed[k].before.fact.supersededBy == Some(changed[k].replacedBy)
  {
    changed, retracted, supersedees := [], [], {};
    for i := 0 to |rows|
      invariant Befores(changed) == Filter(IsReplaced, rows[..i])
      invariant retracted == Filter((r: Row) => !IsReplaced(r), rows[..i])
      invariant supersedees == Ids(Befores(changed))
      invariant forall k :: 0 <= k < |changed| ==> changed[k].before.fact.supersededBy == Some(changed[k].replacedBy)
    {
      var f := rows[i];
      assert rows[..i+1] == rows[..i] + [f];
      FilterSnoc(IsReplaced, rows[..i], f);
      FilterSnoc((r: Row) => !IsReplaced(r), rows[..i], f);
      if f.fact.supersededBy.Some? {
        BeforesSnoc(changed, ChangedFact(f, f.fact.supersededBy.value, None));
        supersedees := supersedees + {f.id};
        changed := changed + [ChangedFact(f, f.fact.supersededBy.value, None)];
      } else {
        retracted := retracted + [f];
      }
    }
    assert rows[..|rows|] == rows;
  }

  lemma BeforesSnoc(changed: seq<ChangedFact>, c: ChangedFact)
    ensures Befores(changed + [c]) == Befores(changed) + [c.before]
    ensures Ids(Befores(changed) + [c.before]) == Ids(Befores(changed)) + {c.before.id}
  {
  }

  /** Fetch each replacement once, then attach it to every change that names it. */
  method Hydrate(table: seq<Row>, changed: seq<ChangedFact>) returns (out: seq<ChangedFact>)
    ensures |out| == |changed|
    ensures forall i :: 0 <= i < |out| ==> out[i] == changed[i].(after := Lookup(table, changed[i].replacedBy))
    ensures Befores(out) == Befores(changed)
  {
    var tails := Enumerate(set c | c in changed :: c.replacedBy);
    var fetched: map<FactId, Row> := map[];
    for i := 0 to |tails|
      invariant forall id :: id in fetched ==> Lookup(table, id) == Some(fetched[id])
      invariant forall id :: id in tails[..i] && Lookup(table, id).Some? ==> id in fetched
    {
      var row := Lookup(table, tails[i]);
      assert tails[..i+1] == tails[..i] + [tails[i]];
      if row.Some? {
        LookupFinds(table, tails[i]);
        fetched := fetched[row.value.id := row.value];
      }
    }
    assert tails[..|tails|] == tails;
    out := changed;
    for i := 0 to |changed|
      invariant |out| == |changed|
      invariant forall k :: 0 <= k < i ==> out[k] == changed[k].(after := Lookup(table, changed[k].replacedBy))
      invariant forall k :: i <= k < |changed| ==> out[k] == changed[k]
    {
      var id := changed[i].replacedBy;
      assert changed[i] in changed && id in Elems(tails);
      out := out[i := out[i].(after := if id in fetched then Some(fetched[id]) else None)];
    }
  }

  /** With one row per id, looking an id up finds its row, and nothing when there is none. */
  lemma {:induction false} LookupIs(table: seq<Row>, r: Row)
    requires Keyed(table)
    ensures r in table ==> Lookup(table, r.id) == Some(r)
    ensures (forall x :: x in table ==> x.id != r.id) ==> Lookup(table, r.id) == None
  {
    if table != [] {
      var rest := table[1..];
      assert Keyed(rest) && forall i :: 0 <= i < |rest| ==> rest[i] == table[i+1];
      LookupIs(rest, r);
      if r in table && table[0] != r {
        var i :| 0 <= i < |table| && table[i] == r;
        assert rest[i-1] == r && table[0].id != table[i].id;
      }
    }
  }

  lemma {:induction false} LookupFinds(table: seq<Row>, id: FactId)
    requires Lookup(table, id).Some?
    ensures Lookup(table, id).value in table && Lookup(table, id).value.id == id
  {
    if table[0].id != id {
      LookupFinds(table[1..], id);
    }
  }
}
