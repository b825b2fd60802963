/** Schema migrations: runs that may be cut off anywhere, retried, and restarted, over one tenant database. */
module Migrator {
  import opened Common
  import opened Ordering

  datatype Migration<T> = Migration(id: string, name: string, sql: seq<T>)

  /** A database seen through its statements: `exec` is what one statement does to the schema. */
  function Exec<T, S>(exec: (S, T) -> S, sql: seq<T>, s: S): S {
    if sql == [] then s else exec(Exec(exec, sql[..|sql|-1], s), sql[|sql|-1])
  }

  function ExecAll<T, S>(exec: (S, T) -> S, manifest: seq<Migration<T>>, s: S): S {
    if manifest == [] then s else ExecAll(exec, manifest[1..], Exec(exec, manifest[0].sql, s))
  }

  function Ids<T>(manifest: seq<Migration<T>>): (ids: seq<string>)
    ensures |ids| == |manifest|
  {
    seq(|manifest|, i requires 0 <= i < |manifest| => manifest[i].id)
  }

  /** IF NOT EXISTS / OVERWRITE: starting a migration over, after any part of it took effect, ends in the same schema. */
  ghost predicate Restartable<T, S(!new)>(exec: (S, T) -> S, sql: seq<T>) {
    forall k: nat, s: S :: k <= |sql| ==> Exec(exec, sql, Exec(exec, sql[..k], s)) == Exec(exec, sql, s)
  }

  ghost predicate AllRestartable<T, S(!new)>(exec: (S, T) -> S, manifest: seq<Migration<T>>) {
    forall i :: 0 <= i < |manifest| ==> Restartable(exec, manifest[i].sql)
  }

  // ------------------------------------------------------------- micro runs

  /** `ready`: the migration after the recorded ones has just been applied in full and not yet recorded. */
  datatype Db<S> = Db(recorded: seq<string>, schema: S, ready: bool)

  /** What can happen to the database, one call at a time, crashes included. */
  datatype Event = Attempt(done: nat) | Record | Cut

  predicate Possible<T, S>(manifest: seq<Migration<T>>, db: Db<S>, e: Event) {
    match e
    case Attempt(done) => |db.recorded| < |manifest| && done <= |manifest[|db.recorded|].sql|
    case Record => |db.recorded| < |manifest| && db.ready
    case Cut => true
  }

  function Happen<T, S>(exec: (S, T) -> S, manifest: seq<Migration<T>>, db: Db<S>, e: Event): Db<S>
    requires Possible(manifest, db, e)
  {
    match e
    case Attempt(done) =>
      var sql := manifest[|db.recorded|].sql;
      db.(schema := Exec(exec, sql[..done], db.schema), ready := done == |sql|)
    case Record => db.(recorded := db.recorded + [manifest[|db.recorded|].id], ready := false)
    case Cut => db.(ready := false)
  }

  predicate ValidHistory<T, S>(exec: (S, T) -> S, manifest: seq<Migration<T>>, db: Db<S>, events: seq<Event>)
    decreases |events|, 0
  {
    events == []
    || (ValidHistory(exec, manifest, db, events[..|events|-1])
        && Possible(manifest, Replay(exec, manifest, db, events[..|events|-1]), events[|events|-1]))
  }

  function Replay<T, S>(exec: (S, T) -> S, manifest: seq<Migration<T>>, db: Db<S>, events: seq<Event>): Db<S>
    requires ValidHistory(exec, manifest, db, events)
    decreases |events|, 1
  {
    if events == [] then db
    else Happen(exec, manifest, Replay(exec, manifest, db, events[..|events|-1]), events[|events|-1])
  }

  /** The schema that finishing the remaining migrations would give. */
  function Goal<T, S>(exec: (S, T) -> S, manifest: seq<Migration<T>>, db: Db<S>): S
    requires |db.recorded| <= |manifest|
  {
    ExecAll(exec, manifest[|db.recorded|..], db.schema)
  }

  /** The log is a prefix of the manifest, the goal is `goal`, and a ready migration is already in the schema. */
  ghost predicate OnTrack<T, S(!new)>(exec: (S, T) -> S, manifest: seq<Migration<T>>, db: Db<S>, goal: S) {
    && db.recorded <= Ids(manifest)
    && Goal(exec, manifest, db) == goal
    && (db.ready ==> |db.recorded| < |manifest| && ExecAll(exec, manifest[|db.recorded|+1..], db.schema) == goal)
  }

  lemma HappenOnTrack<T, S(!new)>(exec: (S, T) -> S, manifest: seq<Migration<T>>, db: Db<S>, e: Event, goal: S)
    requires AllRestartable(exec, manifest) && OnTrack(exec, manifest, db, goal) && Possible(manifest, db, e)
    ensures OnTrack(exec, manifest, Happen(exec, manifest, db, e), goal)
  {
    var n := |db.recorded|;
    if e.Attempt? {
      var sql := manifest[n].sql;
      assert Restartable(exec, sql);
      var after := Exec(exec, sql[..e.done], db.schema);
      assert Exec(exec, sql, after) == Exec(exec, sql, db.schema);
      assert manifest[n..][0] == manifest[n] && manifest[n..][1..] == manifest[n+1..];
      if e.done == |sql| {
        assert sql[..e.done] == sql;
      }
    }
  }

  lemma {:induction false} HistoryOnTrack<T, S(!new)>(exec: (S, T) -> S, manifest: seq<Migration<T>>, db: Db<S>, events: seq<Event>, goal: S)
    requires AllRestartable(exec, manifest) && OnTrack(exec, manifest, db, goal)
    requires ValidHistory(exec, manifest, db, events)
    ensures OnTrack(exec, manifest, Replay(exec, manifest, db, events), goal)
  {
    if events != [] {
      var front := events[..|events|-1];
      HistoryOnTrack(exec, manifest, db, front, goal);
      HappenOnTrack(exec, manifest, Replay(exec, manifest, db, front), events[|events|-1], goal);
    }
  }

  /** From an empty log, through any attempts, retries and crashes: the log is always a prefix of the manifest in
      order, and as soon as it is complete the schema is the one a single clean run gives. */
  lemma Convergence<T, S(!new)>(exec: (S, T) -> S, manifest: seq<Migration<T>>, s0: S, events: seq<Event>)
    requires AllRestartable(exec, manifest) && ValidHistory(exec, manifest, Db([], s0, false), events)
    ensures
      var db := Replay(exec, manifest, Db([], s0, false), events);
      && db.recorded <= Ids(manifest)
      && (|db.recorded| == |manifest| ==> db.recorded == Ids(manifest) && db.schema == ExecAll(exec, manifest, s0))
  {
    assert manifest[0..] == manifest;
    HistoryOnTrack(exec, manifest, Db([], s0, false), events, ExecAll(exec, manifest, s0));
    var db := Replay(exec, manifest, Db([], s0, false), events);
    if |db.recorded| == |manifest| {
      assert manifest[|manifest|..] == [];
    }
  }

  /** However often `m` is cut off and started over on any schema, recording it means it took effect once. */
  ghost predicate Converges<T, S(!new)>(exec: (S, T) -> S, m: Migration<T>) {
    forall s: S, events: seq<Event> ::
      ValidHistory(exec, [m], Db([], s, false), events) && |Replay(exec, [m], Db([], s, false), events).recorded| == 1
      ==> Replay(exec, [m], Db([], s, false), events).schema == Exec(exec, m.sql, s)
  }

  /** Cut after k statements, start over, record. */
  lemma {:induction false} CutAndRestart<T, S(!new)>(exec: (S, T) -> S, m: Migration<T>, k: nat, s: S)
    requires k <= |m.sql|
    ensures
      var events := [Attempt(k), Attempt(|m.sql|), Record];
      && ValidHistory(exec, [m], Db([], s, false), events)
      && Replay(exec, [m], Db([], s, false), events)
         == Db([m.id], Exec(exec, m.sql, Exec(exec, m.sql[..k], s)), false)
  {
    var start := Db([], s, false);
    var one, two, all := [Attempt(k)], [Attempt(k), Attempt(|m.sql|)], [Attempt(k), Attempt(|m.sql|), Record];
    assert one[..0] == [] && two[..1] == one && all[..2] == two;
    assert m.sql[..|m.sql|] == m.sql;
    assert ValidHistory(exec, [m], start, one);
    assert Replay(exec, [m], start, one) == start.(schema := Exec(exec, m.sql[..k], s), ready := k == |m.sql|);
    assert ValidHistory(exec, [m], start, two);
    assert Replay(exec, [m], start, two) == Db([], Exec(exec, m.sql, Exec(exec, m.sql[..k], s)), true);
  }

  /** A migration converges if and only if it can be started over after any part of it: nothing weaker is enough. */
  lemma {:induction false} ConvergesIff<T, S(!new)>(exec: (S, T) -> S, m: Migration<T>)
    ensures Converges(exec, m) <==> Restartable(exec, m.sql)
  {
    if Restartable(exec, m.sql) {
      forall s: S, events: seq<Event> |
        ValidHistory(exec, [m], Db([], s, false), events) && |Replay(exec, [m], Db([], s, false), events).recorded| == 1
        ensures Replay(exec, [m], Db([], s, false), events).schema == Exec(exec, m.sql, s)
      {
        Convergence(exec, [m], s, events);
        assert [m][1..] == [];
        assert ExecAll(exec, [m], s) == Exec(exec, m.sql, s);
      }
    } else {
      var k: nat, s: S :| k <= |m.sql| && Exec(exec, m.sql, Exec(exec, m.sql[..k], s)) != Exec(exec, m.sql, s);
      CutAndRestart(exec, m, k, s);
    }
  }

  /** Two statements on a schema that is a number. */
  function Toy(s: int, t: bool): int {
    if t then (if s == 0 then 1 else if s == 1 then 3 else s) else (if s == 1 then 2 else s)
  }

  /** Idempotence of a migration as a whole is not enough once a cut can fall between two statements. */
  lemma WholeIdempotenceIsNotEnough()
    ensures forall s :: Exec(Toy, [true, false], Exec(Toy, [true, false], s)) == Exec(Toy, [true, false], s)
    ensures Exec(Toy, [true, false], Exec(Toy, [true, false][..1], 0)) != Exec(Toy, [true, false], 0)
    ensures !Restartable(Toy, [true, false])
  {
    var sql := [true, false];
    assert sql[..1] == [true] && [true][..0] == [];
    forall s ensures Exec(Toy, sql, s) == Toy(Toy(s, true), false) && Exec(Toy, sql[..1], s) == Toy(s, true) {
      assert Exec(Toy, [true], s) == Toy(s, true);
    }
  }

  // ------------------------------------------------------------ the service

  /** How a query ended: fine, with a retriable conflict, with another error, or with the process dying;
      `done` statements had taken effect by then. */
  datatype Reply = Ok | Conflict(done: nat) | Error(done: nat) | Crash(done: nat)

  datatype MigrateResult = Settled(applied: seq<string>, already: seq<string>) | Interrupted

  const MAX_ATTEMPTS := 5

  // ---------------------------------------------------------- when a run settles

  /** From call on: c conflicts, and then success. */
  ghost predicate SucceedsAfter(replies: nat -> Reply, call: nat, c: nat) {
    (forall k: nat :: call <= k < call + c ==> replies(k).Conflict?) && replies(call + c).Ok?
  }

  /** A migration gets through after at most four conflicts, and then its log row does, at the first attempt. */
  ghost predicate OneThrough(replies: nat -> Reply, call: nat, c: nat) {
    c <= 4 && SucceedsAfter(replies, call, c) && replies(call + c + 1).Ok?
  }

  /** So do n migrations, one after the other. */
  ghost predicate GetThrough(replies: nat -> Reply, call: nat, n: nat)
    decreases n
  {
    n == 0 || exists c: nat :: OneThrough(replies, call, c) && GetThrough(replies, call + c + 2, n - 1)
  }

  lemma SucceedsOnce(replies: nat -> Reply, call: nat, c: nat, d: nat)
    requires SucceedsAfter(replies, call, c) && SucceedsAfter(replies, call, d)
    ensures c == d
  {
  }

  lemma {:induction false} ThroughOrNot(replies: nat -> Reply, call: nat, n: nat, c: nat)
    requires n > 0 && c <= 4 && SucceedsAfter(replies, call, c)
    ensures GetThrough(replies, call, n) <==> replies(call + c + 1).Ok? && GetThrough(replies, call + c + 2, n - 1)
  {
    if replies(call + c + 1).Ok? {
      assert OneThrough(replies, call, c);
    }
    if GetThrough(replies, call, n) {
      var d: nat :| OneThrough(replies, call, d) && GetThrough(replies, call + d + 2, n - 1);
      SucceedsOnce(replies, call, c, d);
    }
  }

  lemma {:induction false} StuckHere(replies: nat -> Reply, call: nat, n: nat)
    requires n > 0 && forall c: nat :: !OneThrough(replies, call, c)
    ensures !GetThrough(replies, call, n)
  {
  }

  /** A healthy database is always migrated in full. */
  lemma {:induction false} AllOkGetsThrough(replies: nat -> Reply, call: nat, n: nat)
    requires forall k: nat :: replies(k).Ok?
    ensures GetThrough(replies, call, n)
    decreases n
  {
    if n > 0 {
      AllOkGetsThrough(replies, call + 2, n - 1);
      assert OneThrough(replies, call, 0);
    }
  }

  class SchemaMigrator<T, S(!new)> {
    const exec: (S, T) -> S
    var recorded: seq<string>
    var schema: S

    constructor (exec: (S, T) -> S, recorded: seq<string>, schema: S)
      ensures this.exec == exec && this.recorded == recorded && this.schema == schema
    {
      this.exec, this.recorded, this.schema := exec, recorded, schema;
    }

    ghost predicate Recounts(manifest: seq<Migration<T>>, start: Db<S>, events: seq<Event>, ready: bool)
      reads this
    {
      ValidHistory(exec, manifest, start, events) && Replay(exec, manifest, start, events) == Db(recorded, schema, ready)
    }

    /** Send the next migration, and again on a read conflict, at most five times. `replies(k)` answers the k-th call. */
    method ApplyWithRetry(manifest: seq<Migration<T>>, replies: nat -> Reply, call: nat,
                          ghost start: Db<S>, ghost before: seq<Event>)
      returns (ok: bool, next: nat, ghost events: seq<Event>)
      requires |recorded| < |manifest| && Recounts(manifest, start, before, false)
      modifies this`schema
      ensures Recounts(manifest, start, events, ok)
      ensures |events| <= |before| + MAX_ATTEMPTS + 1
      ensures ok <==> exists c: nat :: c <= 4 && SucceedsAfter(replies, call, c)
      ensures ok ==> next > call && next - call - 1 <= 4 && SucceedsAfter(replies, call, next - call - 1)
    {
      var m := manifest[|recorded|];
      var attempts := 0;
      next, events := call, before;
      ghost var ready := false;
      while attempts < MAX_ATTEMPTS
        invariant 0 <= attempts <= MAX_ATTEMPTS
        invariant Recounts(manifest, start, events, ready)
        invariant |events| == |before| + attempts && next == call + attempts
        invariant forall k: nat :: call <= k < next ==> replies(k).Conflict?
      {
        var reply := replies(next);
        next := next + 1;
        var done := if reply.Ok? then |m.sql| else Min(reply.done, |m.sql|);
        ghost var e := Attempt(done);
        assert (events + [e])[..|events|] == events;
        schema := Exec(exec, m.sql[..done], schema);
        events := events + [e];
        ready := done == |m.sql|;
        assert Recounts(manifest, start, events, ready);
        if reply.Ok? {
          assert SucceedsAfter(replies, call, attempts);
          return true, next, events;
        }
        if reply.Crash? || reply.Error? {
          assert forall c: nat :: SucceedsAfter(replies, call, c) ==> c != attempts && !(c > attempts);
          attempts := attempts + 1;
          break;
        }
        attempts := attempts + 1;
      }
      ok := false;
      assert (events + [Cut])[..|events|] == events;
      events := events + [Cut];
    }

    /** Record the migration just applied; the row may be there even when the reply is not. */
    method CreateRow(manifest: seq<Migration<T>>, reply: Reply, ghost start: Db<S>, ghost before: seq<Event>)
      returns (ok: bool, ghost events: seq<Event>)
      requires |recorded| < |manifest| && Recounts(manifest, start, before, true)
      modifies this`recorded
      ensures Recounts(manifest, start, events, false)
      ensures recorded == old(recorded) || recorded == old(recorded) + [manifest[|old(recorded)|].id]
      ensures ok <==> reply.Ok?
      ensures ok ==> recorded == old(recorded) + [manifest[|old(recorded)|].id]
    {
      ok := reply.Ok?;
      if reply.Ok? || reply.done > 0 {
        assert (before + [Record])[..|before|] == before;
        recorded := recorded + [manifest[|recorded|].id];
        events := before + [Record];
      } else {
        assert (before + [Cut])[..|before|] == before;
        events := before + [Cut];
      }
    }

    /** One turn of the loop over pending migrations. */
    method ApplyNext(manifest: seq<Migration<T>>, replies: nat -> Reply, call: nat, ghost left: nat,
                     ghost start: Db<S>, ghost before: seq<Event>)
      returns (ok: bool, next: nat, ghost events: seq<Event>)
      requires |recorded| < |manifest| && recorded <= Ids(manifest) && Recounts(manifest, start, before, false)
      requires left > 0
      modifies this
      ensures Recounts(manifest, start, events, false)
      ensures old(recorded) <= recorded <= Ids(manifest) && |recorded| <= |old(recorded)| + 1
      ensures ok ==> |recorded| == |old(recorded)| + 1
      ensures GetThrough(replies, call, left) <==> ok && GetThrough(replies, next, left - 1)
    {
      ok, next, events := ApplyWithRetry(manifest, replies, call, start, before);
      if !ok {
        StuckHere(replies, call, left);
        return;
      }
      ghost var c: nat := next - call - 1;
      ok, events := CreateRow(manifest, replies(next), start, events);
      next := next + 1;
      ThroughOrNot(replies, call, left, c);
    }

    /** One call of migrate. Whatever the replies, the database only goes through events of a history; a run that
        settles has recorded everything; a run on a complete log changes nothing. */
    method Migrate(manifest: seq<Migration<T>>, replies: nat -> Reply) returns (r: MigrateResult, ghost events: seq<Event>)
      requires Distinct(Ids(manifest)) && recorded <= Ids(manifest)
      modifies this
      ensures ValidHistory(exec, manifest, Db(old(recorded), old(schema), false), events)
      ensures Replay(exec, manifest, Db(old(recorded), old(schema), false), events) == Db(recorded, schema, false)
      ensures old(recorded) <= recorded <= Ids(manifest)
      ensures r.Settled? <==>
        replies(0).Ok? && replies(1).Ok? && GetThrough(replies, 2, |manifest| - |old(recorded)|)
      ensures r.Settled? ==> recorded == Ids(manifest) && r.applied == Ids(manifest)[|old(recorded)|..] && r.already == old(recorded)
      ensures old(recorded) == Ids(manifest) ==> recorded == old(recorded) && schema == old(schema)
    {
      ghost var start := Db(recorded, schema, false);
      events := [];
      if !replies(0).Ok? || !replies(1).Ok? {
        return Interrupted, events;
      }
      var applied := recorded;
      var pending := Filter((m: Migration<T>) => m.id !in applied, manifest);
      PendingIsSuffix(manifest, applied);
      var ok;
      ok, events := ApplyPending(manifest, pending, replies, 2, start, events);
      if !ok {
        return Interrupted, events;
      }
      assert Ids(manifest[|applied|..]) == Ids(manifest)[|applied|..];
      r := Settled(Ids(pending), applied);
    }

    /** The loop over pending migrations: it goes through to the end, or stops where one does not get through. */
    method ApplyPending(manifest: seq<Migration<T>>, pending: seq<Migration<T>>, replies: nat -> Reply, first: nat,
                        ghost start: Db<S>, ghost before: seq<Event>)
      returns (ok: bool, ghost events: seq<Event>)
      requires recorded <= Ids(manifest) && |recorded| + |pending| == |manifest| && Recounts(manifest, start, before, false)
      modifies this
      ensures Recounts(manifest, start, events, false)
      ensures old(recorded) <= recorded <= Ids(manifest)
      ensures ok <==> GetThrough(replies, first, |pending|)
      ensures ok ==> recorded == Ids(manifest)
      ensures pending == [] ==> recorded == old(recorded) && schema == old(schema)
    {
      var call := first;
      events := before;
      for i := 0 to |pending|
        invariant |recorded| == |old(recorded)| + i && old(recorded) <= recorded <= Ids(manifest)
        invariant Recounts(manifest, start, events, false)
        invariant i == 0 ==> schema == old(schema)
        invariant GetThrough(replies, first, |pending|) <==> GetThrough(replies, call, |pending| - i)
      {
        ok, call, events := ApplyNext(manifest, replies, call, |pending| - i, start, events);
        if !ok {
          return;
        }
      }
      ok := true;
    }
  }

  /** With a log that is a prefix of the manifest, what is pending is exactly the rest, in order. */
  lemma {:induction false} PendingIsSuffix<T>(manifest: seq<Migration<T>>, applied: seq<string>)
    requires Distinct(Ids(manifest)) && applied <= Ids(manifest)
    ensures Filter((m: Migration<T>) => m.id !in applied, manifest) == manifest[|applied|..]
  {
    var p := (m: Migration<T>) => m.id !in applied;
    var done, rest := manifest[..|applied|], manifest[|applied|..];
    assert manifest == done + rest;
    FilterConcat(p, done, rest);
    forall i | 0 <= i < |done| ensures !p(done[i]) {
      assert done[i].id == Ids(manifest)[i] == applied[i];
    }
    forall i | 0 <= i < |rest| ensures p(rest[i]) {
      assert rest[i].id == Ids(manifest)[|applied| + i];
    }
    FilterNone(p, done);
    FilterWhole(p, rest);
  }

  lemma {:induction false} FilterNone<T>(p: T -> bool, s: seq<T>)
    requires forall i :: 0 <= i < |s| ==> !p(s[i])
    ensures Filter(p, s) == []
  {
    if s != [] {
      FilterNone(p, s[..|s|-1]);
    }
  }

  lemma {:induction false} FilterWhole<T>(p: T -> bool, s: seq<T>)
    requires forall i :: 0 <= i < |s| ==> p(s[i])
    ensures Filter(p, s) == s
  {
    if s != [] {
      FilterWhole(p, s[..|s|-1]);
      assert s == s[..|s|-1] + [s[|s|-1]];
    }
  }
}
