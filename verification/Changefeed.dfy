/** The changefeed consumer of one source table: inclusive fetch, sorted batch, bulk insert, then the cursor. */
module Changefeed {
  import opened Common
  import opened Ordering

  datatype Item = Item(op: string, recordId: string)
  datatype Change = Change(vs: nat, items: seq<Item>)
  datatype Event = Event(vs: nat, op: string, recordId: string)

  function Stamp(c: Change): int {
    c.vs
  }

  /** The database's log: positive, strictly increasing versionstamps. */
  ghost predicate WellStamped(log: seq<Change>) {
    && (forall i :: 0 <= i < |log| ==> log[i].vs > 0)
    && (forall i, j :: 0 <= i < j < |log| ==> log[i].vs < log[j].vs)
  }

  function ItemEvents(vs: nat, items: seq<Item>): seq<Event> {
    if items == [] then []
    else ItemEvents(vs, items[..|items|-1]) + [Event(vs, items[|items|-1].op, items[|items|-1].recordId)]
  }

  /** The audit events of a stretch of the log, in order. */
  function Events(changes: seq<Change>): seq<Event> {
    if changes == [] then []
    else Events(changes[..|changes|-1]) + ItemEvents(changes[|changes|-1].vs, changes[|changes|-1].items)
  }

  /** How many changes the cursor has passed. */
  function Passed(log: seq<Change>, cursor: nat): (p: nat)
    ensures p <= |log|
  {
    if log == [] then 0
    else if log[|log|-1].vs <= cursor then |log|
    else Passed(log[..|log|-1], cursor)
  }

  lemma {:induction false} PassedSplits(log: seq<Change>, cursor: nat)
    requires WellStamped(log)
    ensures forall i :: 0 <= i < |log| ==> (log[i].vs <= cursor <==> i < Passed(log, cursor))
  {
    if log != [] && log[|log|-1].vs > cursor {
      PassedSplits(log[..|log|-1], cursor);
    }
  }

  // ------------------------------------------------------------- the protocol

  /** One batch attempt: where it began, how long the log was then, and whether the cursor write made it. */
  datatype Tick = Tick(lo: nat, len: nat, committed: bool)

  datatype Feed = Feed(log: seq<Change>, cursor: nat, audit: seq<Event>, ticks: seq<Tick>)

  datatype Step = Append(change: Change) | Consume | ConsumeThenCrash

  function Hi(t: Tick, limit: nat): nat {
    if t.len < t.lo + limit then t.len else t.lo + limit
  }

  ghost predicate Enabled(f: Feed, step: Step) {
    match step
    case Append(change) => change.vs > 0 && forall i :: 0 <= i < |f.log| ==> f.log[i].vs < change.vs
    case Consume => true
    case ConsumeThenCrash => true
  }

  function Position(f: Feed): nat {
    Passed(f.log, f.cursor)
  }

  function Batch(f: Feed, limit: nat): seq<Change> {
    var p := Position(f);
    f.log[p..Hi(Tick(p, |f.log|, true), limit)]
  }

  /** The bulk insert, and the cursor write if the process lives to do it. */
  function Consumed(f: Feed, limit: nat, committed: bool): Feed
    requires limit >= 1
  {
    var batch := Batch(f, limit);
    if batch == [] then f
    else f.(audit := f.audit + Events(batch),
            cursor := if committed then batch[|batch|-1].vs else f.cursor,
            ticks := f.ticks + [Tick(Position(f), |f.log|, committed)])
  }

  function Apply(f: Feed, step: Step, limit: nat): Feed
    requires limit >= 1
  {
    match step
    case Append(change) => f.(log := f.log + [change])
    case Consume => Consumed(f, limit, true)
    case ConsumeThenCrash => Consumed(f, limit, false)
  }

  ghost predicate ValidRun(f: Feed, steps: seq<Step>, limit: nat)
    requires limit >= 1
    decreases |steps|
  {
    steps == [] || (Enabled(f, steps[0]) && ValidRun(Apply(f, steps[0], limit), steps[1..], limit))
  }

  function Run(f: Feed, steps: seq<Step>, limit: nat): Feed
    requires limit >= 1
    decreases |steps|
  {
    if steps == [] then f else Run(Apply(f, steps[0], limit), steps[1..], limit)
  }

  const EMPTY := Feed([], 0, [], [])

  /** Committed ticks tile the log up to `pos`; a crashed tick stands where the next one starts. */
  ghost predicate Tiled(ticks: seq<Tick>, pos: nat, len: nat, limit: nat)
    decreases |ticks|
  {
    if ticks == [] then pos == 0
    else
      var t, front := ticks[|ticks|-1], ticks[..|ticks|-1];
      && t.lo < Hi(t, limit) && t.len <= len
      && (if t.committed then pos == Hi(t, limit) else pos == t.lo)
      && Tiled(front, t.lo, t.len, limit)
  }

  function Emitted(log: seq<Change>, ticks: seq<Tick>, limit: nat): seq<Event> {
    if ticks == [] then []
    else
      var t := ticks[|ticks|-1];
      Emitted(log, ticks[..|ticks|-1], limit)
      + (if t.lo <= Hi(t, limit) <= |log| then Events(log[t.lo..Hi(t, limit)]) else [])
  }

  ghost predicate Inv(f: Feed, limit: nat) {
    && limit >= 1 && WellStamped(f.log)
    && Tiled(f.ticks, Position(f), |f.log|, limit)
    && f.audit == Emitted(f.log, f.ticks, limit)
  }

  /** The cursor stands on a stamp of the log, or on zero. */
  ghost predicate CursorOnLog(f: Feed) {
    f.cursor == if Position(f) == 0 then 0 else f.log[Position(f)-1].vs
  }

  ghost predicate Sound(f: Feed, limit: nat) {
    Inv(f, limit) && CursorOnLog(f)
  }

  // ---------------------------------------------------------------- keeping it

  lemma {:induction false} TiledGrows(ticks: seq<Tick>, pos: nat, len: nat, len2: nat, limit: nat)
    requires Tiled(ticks, pos, len, limit) && len <= len2
    ensures Tiled(ticks, pos, len2, limit)
  {
  }

  lemma {:induction false} EmittedGrows(log: seq<Change>, c: Change, ticks: seq<Tick>, pos: nat, limit: nat)
    requires Tiled(ticks, pos, |log|, limit)
    ensures Emitted(log + [c], ticks, limit) == Emitted(log, ticks, limit)
    decreases |ticks|
  {
    if ticks != [] {
      var t, front := ticks[|ticks|-1], ticks[..|ticks|-1];
      TiledGrows(front, t.lo, t.len, |log|, limit);
      EmittedGrows(log, c, front, t.lo, limit);
      SliceGrows(log, c, t.lo, Hi(t, limit));
    }
  }

  lemma SliceGrows(log: seq<Change>, c: Change, lo: nat, hi: nat)
    requires lo <= hi <= |log|
    ensures (log + [c])[lo..hi] == log[lo..hi]
  {
  }

  lemma PassedAppend(log: seq<Change>, c: Change, cursor: nat)
    requires c.vs > cursor
    ensures Passed(log + [c], cursor) == Passed(log, cursor)
  {
    assert (log + [c])[..|log|] == log;
  }

  lemma {:induction false} AppendStamps(f: Feed, c: Change)
    requires WellStamped(f.log) && CursorOnLog(f) && Enabled(f, Append(c))
    ensures WellStamped(f.log + [c]) && c.vs > f.cursor
  {
  }

  lemma {:induction false} AppendKeepsCursor(f: Feed, c: Change)
    requires CursorOnLog(f) && c.vs > f.cursor
    ensures Position(f.(log := f.log + [c])) == Position(f) && CursorOnLog(f.(log := f.log + [c]))
  {
    PassedAppend(f.log, c, f.cursor);
  }

  lemma {:induction false} AppendKeeps(f: Feed, c: Change, limit: nat)
    requires Sound(f, limit) && Enabled(f, Append(c))
    ensures Sound(Apply(f, Append(c), limit), limit)
  {
    AppendStamps(f, c);
    AppendKeepsCursor(f, c);
    TiledGrows(f.ticks, Position(f), |f.log|, |f.log| + 1, limit);
    EmittedGrows(f.log, c, f.ticks, Position(f), limit);
  }

  lemma PassedAt(log: seq<Change>, k: nat)
    requires WellStamped(log) && k < |log|
    ensures Passed(log, log[k].vs) == k + 1
  {
    PassedSplits(log, log[k].vs);
    var p := Passed(log, log[k].vs);
    assert k < p;
    if k + 1 < |log| {
      assert log[k+1].vs > log[k].vs;
    }
  }

  lemma ConsumePosition(f: Feed, limit: nat, committed: bool)
    requires limit >= 1 && WellStamped(f.log) && CursorOnLog(f)
    ensures Position(Consumed(f, limit, committed)) ==
      if committed then Min(|f.log|, Position(f) + limit) else Position(f)
    ensures CursorOnLog(Consumed(f, limit, committed))
  {
    var p, h := Position(f), Hi(Tick(Position(f), |f.log|, true), limit);
    if p < |f.log| && committed {
      assert Batch(f, limit)[|Batch(f, limit)|-1] == f.log[h-1];
      PassedAt(f.log, h - 1);
    }
  }

  lemma {:induction false} TiledSnoc(ticks: seq<Tick>, pos: nat, limit: nat, t: Tick)
    requires Tiled(ticks, pos, t.len, limit) && t.lo == pos < t.len && limit >= 1
    ensures Tiled(ticks + [t], if t.committed then Hi(t, limit) else pos, t.len, limit)
  {
    assert (ticks + [t])[..|ticks|] == ticks;
  }

  lemma {:induction false} EmittedSnoc(log: seq<Change>, ticks: seq<Tick>, limit: nat, t: Tick)
    requires t.lo <= Hi(t, limit) <= |log|
    ensures Emitted(log, ticks + [t], limit) == Emitted(log, ticks, limit) + Events(log[t.lo..Hi(t, limit)])
  {
    assert (ticks + [t])[..|ticks|] == ticks;
  }

  lemma {:induction false} ConsumedShape(f: Feed, limit: nat, committed: bool)
    requires limit >= 1 && Position(f) < |f.log|
    ensures
      var t := Tick(Position(f), |f.log|, committed);
      && t.lo <= Hi(t, limit) <= |f.log|
      && Consumed(f, limit, committed).audit == f.audit + Events(f.log[t.lo..Hi(t, limit)])
      && Consumed(f, limit, committed).ticks == f.ticks + [t]
  {
    assert Batch(f, limit) == f.log[Position(f)..Hi(Tick(Position(f), |f.log|, committed), limit)];
  }

  lemma {:induction false} ConsumeTiles(f: Feed, limit: nat, committed: bool)
    requires limit >= 1 && Position(f) < |f.log|
    requires Tiled(f.ticks, Position(f), |f.log|, limit) && f.audit == Emitted(f.log, f.ticks, limit)
    ensures
      var t := Tick(Position(f), |f.log|, committed);
      && Tiled(f.ticks + [t], if committed then Hi(t, limit) else Position(f), |f.log|, limit)
      && Consumed(f, limit, committed).audit == Emitted(f.log, f.ticks + [t], limit)
      && Consumed(f, limit, committed).ticks == f.ticks + [t]
  {
    var t := Tick(Position(f), |f.log|, committed);
    ConsumedShape(f, limit, committed);
    TiledSnoc(f.ticks, Position(f), limit, t);
    EmittedSnoc(f.log, f.ticks, limit, t);
  }

  lemma ConsumeKeeps(f: Feed, limit: nat, committed: bool)
    requires Sound(f, limit)
    ensures Sound(Consumed(f, limit, committed), limit)
    ensures Position(Consumed(f, limit, committed)) ==
      if committed then Min(|f.log|, Position(f) + limit) else Position(f)
  {
    ConsumePosition(f, limit, committed);
    if Position(f) < |f.log| {
      ConsumeTiles(f, limit, committed);
    } else {
      assert Batch(f, limit) == [];
    }
  }

  lemma StepKeeps(f: Feed, step: Step, limit: nat)
    requires Sound(f, limit) && Enabled(f, step)
    ensures Sound(Apply(f, step, limit), limit)
    ensures f.cursor <= Apply(f, step, limit).cursor && Position(f) <= Position(Apply(f, step, limit))
  {
    if step.Append? {
      AppendKeeps(f, step.change, limit);
      PassedAppend(f.log, step.change, f.cursor);
    } else {
      ConsumeKeeps(f, limit, step.Consume?);
    }
  }

  lemma {:induction false} RunKeeps(f: Feed, steps: seq<Step>, limit: nat)
    requires Sound(f, limit) && ValidRun(f, steps, limit)
    ensures Sound(Run(f, steps, limit), limit)
    ensures f.cursor <= Run(f, steps, limit).cursor
    decreases |steps|
  {
    if steps != [] {
      StepKeeps(f, steps[0], limit);
      RunKeeps(Apply(f, steps[0], limit), steps[1..], limit);
    }
  }

  // ----------------------------------------------------------------- theorems

  /** The events sent more than once: those of the ticks whose cursor write was missed. */
  function Repeats(log: seq<Change>, ticks: seq<Tick>, limit: nat): multiset<Event> {
    if ticks == [] then multiset{}
    else
      var t := ticks[|ticks|-1];
      Repeats(log, ticks[..|ticks|-1], limit)
      + (if !t.committed && t.lo <= Hi(t, limit) <= |log| then multiset(Events(log[t.lo..Hi(t, limit)])) else multiset{})
  }

  lemma {:induction false} EventsConcat(a: seq<Change>, b: seq<Change>)
    ensures Events(a + b) == Events(a) + Events(b)
  {
    if b == [] {
      assert a + b == a;
    } else {
      var front, last := b[..|b|-1], b[|b|-1];
      EventsConcat(a, front);
      Reassociate(a, front, [last]);
      EventsSnoc(a + front, last);
      Reassociate(Events(a), Events(front), ItemEvents(last.vs, last.items));
      assert b == front + [last];
      EventsSnoc(front, last);
    }
  }

  lemma {:induction false} EventsSnoc(a: seq<Change>, c: Change)
    ensures Events(a + [c]) == Events(a) + ItemEvents(c.vs, c.items)
  {
    assert (a + [c])[..|a|] == a;
  }

  lemma EventsSlice(log: seq<Change>, lo: nat, hi: nat)
    requires lo <= hi <= |log|
    ensures Events(log[..lo]) + Events(log[lo..hi]) == Events(log[..hi])
  {
    EventsConcat(log[..lo], log[lo..hi]);
    assert log[..lo] + log[lo..hi] == log[..hi];
  }

  lemma {:induction false} Accounting(log: seq<Change>, ticks: seq<Tick>, pos: nat, limit: nat)
    requires Tiled(ticks, pos, |log|, limit) && pos <= |log|
    ensures multiset(Emitted(log, ticks, limit)) == multiset(Events(log[..pos])) + Repeats(log, ticks, limit)
    decreases |ticks|
  {
    if ticks != [] {
      var t, front := ticks[|ticks|-1], ticks[..|ticks|-1];
      TiledGrows(front, t.lo, t.len, |log|, limit);
      Accounting(log, front, t.lo, limit);
      EventsSlice(log, t.lo, Hi(t, limit));
    }
  }

  /** After any interleaving of appends, ticks and crashes, the audit table holds each event of every change at or
      below the cursor once, plus once more for each crashed batch that carried it. Nothing is lost, and only the
      batches whose cursor write was missed are repeated. */
  lemma NoLossExactRepeats(steps: seq<Step>, limit: nat)
    requires limit >= 1 && ValidRun(EMPTY, steps, limit)
    ensures
      var f := Run(EMPTY, steps, limit);
      multiset(f.audit) == multiset(Events(f.log[..Position(f)])) + Repeats(f.log, f.ticks, limit)
  {
    RunKeeps(EMPTY, steps, limit);
    var f := Run(EMPTY, steps, limit);
    Accounting(f.log, f.ticks, Position(f), limit);
  }

  lemma {:induction false} CleanEmission(log: seq<Change>, ticks: seq<Tick>, pos: nat, limit: nat)
    requires Tiled(ticks, pos, |log|, limit) && pos <= |log|
    requires forall i :: 0 <= i < |ticks| ==> ticks[i].committed
    ensures Emitted(log, ticks, limit) == Events(log[..pos])
    decreases |ticks|
  {
    if ticks != [] {
      var t, front := ticks[|ticks|-1], ticks[..|ticks|-1];
      TiledGrows(front, t.lo, t.len, |log|, limit);
      CleanEmission(log, front, t.lo, limit);
      EventsSlice(log, t.lo, Hi(t, limit));
    }
  }

  lemma {:induction false} NoCrashNoGap(f: Feed, steps: seq<Step>, limit: nat)
    requires limit >= 1 && ConsumeThenCrash !in steps
    requires forall i :: 0 <= i < |f.ticks| ==> f.ticks[i].committed
    ensures forall i :: 0 <= i < |Run(f, steps, limit).ticks| ==> Run(f, steps, limit).ticks[i].committed
    decreases |steps|
  {
    if steps != [] {
      assert steps[0] in steps;
      NoCrashNoGap(Apply(f, steps[0], limit), steps[1..], limit);
    }
  }

  /** Without crashes the audit table is the log's own event sequence up to the cursor: each once, in order. */
  lemma CrashFreeIsExact(steps: seq<Step>, limit: nat)
    requires limit >= 1 && ValidRun(EMPTY, steps, limit) && ConsumeThenCrash !in steps
    ensures
      var f := Run(EMPTY, steps, limit);
      f.audit == Events(f.log[..Position(f)])
  {
    RunKeeps(EMPTY, steps, limit);
    NoCrashNoGap(EMPTY, steps, limit);
    var f := Run(EMPTY, steps, limit);
    CleanEmission(f.log, f.ticks, Position(f), limit);
  }

  /** The tick after a crash starts at the same change and covers at least the crashed batch. */
  lemma {:induction false} RetryCoversCrash(ticks: seq<Tick>, pos: nat, len: nat, limit: nat, k: nat)
    requires Tiled(ticks, pos, len, limit) && k + 1 < |ticks| && !ticks[k].committed
    ensures ticks[k+1].lo == ticks[k].lo && Hi(ticks[k+1], limit) >= Hi(ticks[k], limit)
    decreases |ticks|
  {
    var t, front := ticks[|ticks|-1], ticks[..|ticks|-1];
    if k + 1 < |front| {
      RetryCoversCrash(front, t.lo, t.len, limit, k);
    }
  }

  function Ticks(f: Feed, n: nat, limit: nat): Feed
    requires limit >= 1
  {
    if n == 0 then f else Consumed(Ticks(f, n - 1, limit), limit, true)
  }

  /** n quiet ticks advance by n batches ... */
  lemma {:induction false} Advance(f: Feed, n: nat, limit: nat, total: nat)
    requires Sound(f, limit) && total == n * limit
    ensures Sound(Ticks(f, n, limit), limit)
    ensures Position(Ticks(f, n, limit)) == Min(|f.log|, Position(f) + total)
    ensures |Ticks(f, n, limit).log| == |f.log|
  {
    if n > 0 {
      OneLess(n, limit);
      Advance(f, n - 1, limit, total - limit);
      NextStop(Ticks(f, n - 1, limit), limit);
    }
  }

  lemma OneLess(n: nat, limit: nat)
    requires n > 0
    ensures (n - 1) * limit == n * limit - limit && n * limit >= limit
  {
  }

  lemma NextStop(f: Feed, limit: nat)
    requires Sound(f, limit)
    ensures Sound(Consumed(f, limit, true), limit)
    ensures Position(Consumed(f, limit, true)) == Min(|f.log|, Position(f) + limit)
    ensures |Consumed(f, limit, true).log| == |f.log|
  {
    ConsumeKeeps(f, limit, true);
  }

  /** ... so k pending changes are gone exactly when n * limit >= k. */
  lemma Drain(f: Feed, n: nat, limit: nat)
    requires Sound(f, limit)
    ensures Position(Ticks(f, n, limit)) == |Ticks(f, n, limit).log| <==> n * limit >= |f.log| - Position(f)
  {
    Advance(f, n, limit, n * limit);
  }

  // ------------------------------------------------------------------ service

  /** What SHOW CHANGES ... SINCE returns: the boundary is inclusive, the order is the database's affair. */
  ghost predicate Answers(rows: seq<Change>, log: seq<Change>, since: nat) {
    multiset(rows) == multiset(Filter((c: Change) => c.vs >= since, log))
  }

  lemma {:induction false} FilterCount(p: Change -> bool, s: seq<Change>, x: Change)
    ensures multiset(Filter(p, s))[x] == if p(x) then multiset(s)[x] else 0
  {
    if s != [] {
      FilterCount(p, s[..|s|-1], x);
      assert s == s[..|s|-1] + [s[|s|-1]];
    }
  }

  /** The cursor has passed everything, or the last change and perhaps more are ahead of it. */
  lemma {:induction false} PassedLast(log: seq<Change>, cursor: nat)
    requires WellStamped(log) && log != []
    ensures
      var front := log[..|log|-1];
      if log[|log|-1].vs <= cursor then Passed(log, cursor) == |log| && Passed(front, cursor) == |front|
      else Passed(log, cursor) == Passed(front, cursor)
  {
    var front := log[..|log|-1];
    if log[|log|-1].vs <= cursor && front != [] {
      assert front[|front|-1].vs < log[|log|-1].vs;
    }
  }

  lemma {:induction false} FilterIsSuffix(log: seq<Change>, cursor: nat)
    requires WellStamped(log)
    ensures Filter((c: Change) => c.vs > cursor, log) == log[Passed(log, cursor)..]
  {
    if log != [] {
      var front, last := log[..|log|-1], log[|log|-1];
      FilterIsSuffix(front, cursor);
      PassedLast(log, cursor);
      assert log == front + [last];
    }
  }

  lemma KeptCount(rows: seq<Change>, log: seq<Change>, since: nat, x: Change)
    requires WellStamped(log) && Answers(rows, log, since)
    ensures multiset(Kept(rows, since))[x] == multiset(Filter((c: Change) => c.vs > since, log))[x]
  {
    var after, from := (c: Change) => c.vs > since, (c: Change) => c.vs >= since;
    FilterCount(after, log, x);
    FilterCount(from, log, x);
    FilterCount(after, rows, x);
    StampsPositive(log, x);
  }

  /** Drop what is at or below the cursor; a cold start keeps everything. */
  function Kept(rows: seq<Change>, since: nat): seq<Change> {
    if since > 0 then Filter((c: Change) => c.vs > since, rows) else rows
  }

  /** The kept rows, sorted, are the unconsumed log, in order. */
  lemma FetchIsPending(rows: seq<Change>, log: seq<Change>, since: nat)
    requires WellStamped(log) && Answers(rows, log, since)
    ensures SortBy(Stamp, Kept(rows, since)) == log[Passed(log, since)..]
  {
    FilterIsSuffix(log, since);
    var pending := Filter((c: Change) => c.vs > since, log);
    forall x: Change ensures multiset(Kept(rows, since))[x] == multiset(pending)[x] {
      KeptCount(rows, log, since, x);
    }
    assert multiset(Kept(rows, since)) == multiset(pending);
    SortRestores(Stamp, Kept(rows, since), pending);
  }

  lemma StampsPositive(log: seq<Change>, x: Change)
    requires WellStamped(log)
    ensures multiset(log)[x] > 0 ==> x.vs > 0
  {
    if multiset(log)[x] > 0 {
      assert x in log;
    }
  }

  lemma {:induction false} FirstOfPending(f: Feed, limit: nat, sorted: seq<Change>, batch: seq<Change>)
    requires sorted == f.log[Position(f)..] && limit >= 1
    requires batch == if |sorted| < limit then sorted else sorted[..limit]
    ensures Batch(f, limit) == batch
    ensures sorted != [] ==> batch != []
  {
  }

  lemma {:induction false} TickIs(f: Feed, limit: nat, committed: bool, batch: seq<Change>)
    requires limit >= 1 && batch == Batch(f, limit)
    ensures batch == [] ==> Consumed(f, limit, committed) == f
    ensures batch != [] ==>
      && Consumed(f, limit, committed).audit == f.audit + Events(batch)
      && Consumed(f, limit, committed).cursor == if committed then batch[|batch|-1].vs else f.cursor
  {
  }

  // ------------------------------------------------------- what the events say

  function ItemCount(changes: seq<Change>): nat {
    if changes == [] then 0 else ItemCount(changes[..|changes|-1]) + |changes[|changes|-1].items|
  }

  ghost predicate ReportsItem(out: seq<Event>, at: nat, c: Change, k: nat) {
    && k < |c.items| && at + k < |out|
    && out[at+k].vs == c.vs && out[at+k].op == c.items[k].op && out[at+k].recordId == c.items[k].recordId
  }

  /** One event per item: the k-th event of a change carries its stamp and its k-th item. */
  ghost predicate Reports(out: seq<Event>, at: nat, c: Change) {
    forall k: nat :: k < |c.items| ==> ReportsItem(out, at, c, k)
  }

  lemma {:induction false} ItemsReported(vs: nat, items: seq<Item>)
    ensures |ItemEvents(vs, items)| == |items| && Reports(ItemEvents(vs, items), 0, Change(vs, items))
  {
    if items != [] {
      var front, last, all := items[..|items|-1], items[|items|-1], ItemEvents(vs, items);
      ItemsReported(vs, front);
      assert all == ItemEvents(vs, front) + [Event(vs, last.op, last.recordId)];
      forall k: nat | k < |items| ensures ReportsItem(all, 0, Change(vs, items), k) {
        if k < |front| {
          assert ReportsItem(ItemEvents(vs, front), 0, Change(vs, front), k);
        }
      }
    }
  }

  lemma ReportsConcat(a: seq<Event>, b: seq<Event>, at: nat, c: Change)
    ensures Reports(a, at, c) ==> Reports(a + b, at, c)
    ensures Reports(b, 0, c) ==> Reports(a + b, |a|, c)
  {
    forall k: nat | k < |c.items|
      ensures ReportsItem(a, at, c, k) ==> ReportsItem(a + b, at, c, k)
      ensures ReportsItem(b, 0, c, k) ==> ReportsItem(a + b, |a|, c, k)
    {
    }
  }

  /** The events of the i-th change stand together, right behind those of the changes before it. */
  lemma {:induction false} ChangeReported(changes: seq<Change>, i: nat)
    requires i < |changes|
    ensures |Events(changes)| == ItemCount(changes) && Reports(Events(changes), ItemCount(changes[..i]), changes[i])
  {
    var n := |changes| - 1;
    ItemsReported(changes[n].vs, changes[n].items);
    EventsCounted(changes[..n]);
    ReportsConcat(Events(changes[..n]), ItemEvents(changes[n].vs, changes[n].items), ItemCount(changes[..i]), changes[i]);
    if i < n {
      ChangeReported(changes[..n], i);
      assert changes[..n][..i] == changes[..i];
    }
  }

  lemma {:induction false} EventsCounted(changes: seq<Change>)
    ensures |Events(changes)| == ItemCount(changes)
  {
    if changes != [] {
      EventsCounted(changes[..|changes|-1]);
      ItemsReported(changes[|changes|-1].vs, changes[|changes|-1].items);
    }
  }

  /** `e` is the event of some item of some change. */
  ghost predicate Happened(log: seq<Change>, e: Event) {
    exists i, j :: 0 <= i < |log| && 0 <= j < |log[i].items|
      && e == Event(log[i].vs, log[i].items[j].op, log[i].items[j].recordId)
  }

  lemma {:induction false} EventsHappened(changes: seq<Change>, e: Event)
    requires e in Events(changes)
    ensures Happened(changes, e)
  {
    var n := |changes| - 1;
    var c := changes[n];
    if e in Events(changes[..n]) {
      EventsHappened(changes[..n], e);
      assert changes[0..n] == changes[..n];
      HappenedInWhole(changes, 0, n, e);
    } else {
      ItemsReported(c.vs, c.items);
      var j: nat :| j < |c.items| && ItemEvents(c.vs, c.items)[j] == e;
      assert ReportsItem(ItemEvents(c.vs, c.items), 0, Change(c.vs, c.items), j);
      assert e == Event(c.vs, c.items[j].op, c.items[j].recordId);
    }
  }

  lemma HappenedInWhole(log: seq<Change>, lo: nat, hi: nat, e: Event)
    requires lo <= hi <= |log| && Happened(log[lo..hi], e)
    ensures Happened(log, e)
  {
    var part := log[lo..hi];
    var i, j :| 0 <= i < |part| && 0 <= j < |part[i].items|
      && e == Event(part[i].vs, part[i].items[j].op, part[i].items[j].recordId);
    assert log[lo + i] == part[i];
  }

  lemma {:induction false} EmittedHappened(log: seq<Change>, ticks: seq<Tick>, limit: nat, e: Event)
    requires e in Emitted(log, ticks, limit)
    ensures Happened(log, e)
  {
    var t, front := ticks[|ticks|-1], ticks[..|ticks|-1];
    if e in Emitted(log, front, limit) {
      EmittedHappened(log, front, limit, e);
    } else {
      EventsHappened(log[t.lo..Hi(t, limit)], e);
      HappenedInWhole(log, t.lo, Hi(t, limit), e);
    }
  }

  /** In every run, every item of every change the cursor has passed is in the audit table. */
  lemma NothingLost(steps: seq<Step>, limit: nat, i: nat, j: nat)
    requires limit >= 1 && ValidRun(EMPTY, steps, limit)
    requires i < Position(Run(EMPTY, steps, limit)) && j < |Run(EMPTY, steps, limit).log[i].items|
    ensures
      var f := Run(EMPTY, steps, limit);
      Event(f.log[i].vs, f.log[i].items[j].op, f.log[i].items[j].recordId) in f.audit
  {
    var f := Run(EMPTY, steps, limit);
    var passed := f.log[..Position(f)];
    NoLossExactRepeats(steps, limit);
    ChangeReported(passed, i);
    var e := Event(f.log[i].vs, f.log[i].items[j].op, f.log[i].items[j].recordId);
    assert passed[i] == f.log[i];
    assert ReportsItem(Events(passed), ItemCount(passed[..i]), passed[i], j);
    assert Events(passed)[ItemCount(passed[..i]) + j] == e;
    assert e in multiset(Events(passed));
    assert e in multiset(f.audit);
  }

  /** ... and nothing else is: every audit event comes from an item of the log. */
  lemma NothingInvented(steps: seq<Step>, limit: nat, e: Event)
    requires limit >= 1 && ValidRun(EMPTY, steps, limit) && e in Run(EMPTY, steps, limit).audit
    ensures Happened(Run(EMPTY, steps, limit).log, e)
  {
    RunKeeps(EMPTY, steps, limit);
    var f := Run(EMPTY, steps, limit);
    assert Sound(f, limit) && f.audit == Emitted(f.log, f.ticks, limit);
    EmittedHappened(f.log, f.ticks, limit, e);
  }

  class ChangefeedConsumer {
    var cursor: nat
    var audit: seq<Event>

    constructor ()
      ensures cursor == 0 && audit == []
    {
      cursor, audit := 0, [];
    }

    method BuildAuditEventBatch(changes: seq<Change>) returns (out: seq<Event>)
      ensures out == Events(changes)
      ensures |out| == ItemCount(changes)
      ensures forall i: nat :: i < |changes| ==> Reports(out, ItemCount(changes[..i]), changes[i])
    {
      out := [];
      for i := 0 to |changes|
        invariant out == Events(changes[..i])
      {
        var change := changes[i];
        assert changes[..i+1][..i] == changes[..i];
        for j := 0 to |change.items|
          invariant out == Events(changes[..i]) + ItemEvents(change.vs, change.items[..j])
        {
          var item := change.items[j];
          assert change.items[..j+1][..j] == change.items[..j];
          out := out + [Event(change.vs, item.op, item.recordId)];
        }
        assert change.items[..|change.items|] == change.items;
      }
      assert changes[..|changes|] == changes;
      EventsCounted(changes);
      forall i: nat | i < |changes| ensures Reports(out, ItemCount(changes[..i]), changes[i]) {
        ChangeReported(changes, i);
      }
    }

    /** One source of consumeForTenant; `crash` says whether the process dies between the insert and the cursor. */
    method ConsumeSource(rows: seq<Change>, limit: nat, crash: bool, ghost log: seq<Change>, ghost ticks: seq<Tick>)
      returns (consumed: nat, remaining: nat)
      requires limit >= 1 && WellStamped(log) && Answers(rows, log, cursor)
      modifies this
      ensures
        var after := Consumed(Feed(log, old(cursor), old(audit), ticks), limit, !crash);
        cursor == after.cursor && audit == after.audit
      ensures consumed == |Batch(Feed(log, old(cursor), old(audit), ticks), limit)|
      ensures consumed + remaining == |log| - Passed(log, old(cursor))
    {
      ghost var f := Feed(log, cursor, audit, ticks);
      FetchIsPending(rows, log, cursor);
      var sorted := SortBy(Stamp, Kept(rows, cursor));
      var batch := if |sorted| < limit then sorted else sorted[..limit];
      FirstOfPending(f, limit, sorted, batch);
      TickIs(f, limit, !crash, batch);
      if sorted == [] {
        return 0, 0;
      }
      remaining := |sorted| - |batch|;
      var events := BuildAuditEventBatch(batch);
      audit := audit + events;
      consumed := |batch|;
      if !crash {
        cursor := batch[|batch|-1].vs;
      }
    }
  }
}
