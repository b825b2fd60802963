/** What each step of the pool protocol does, read off the states before and after it alone. */
module PoolLaws {
  import opened Common
  import opened ConnectionPool
  import opened PoolProtocol
  import opened PoolSafety
  import opened PoolLiveness
  import opened PoolProvision

  // ----------------------------------------------- the schema comes first

  /** Nothing happens to the schema, and no callback starts. */
  ghost predicate Steady(s: State, t: State) {
    && |t.phase| == |s.phase| && t.known == s.known && t.migrated == s.migrated && t.dropped == s.dropped
    && t.queue == s.queue
    && forall r: Req :: r < |s.phase| && t.phase[r] == Running ==> s.phase[r] == Running
  }

  lemma ReleaseIsSteady(c: Config, s: State, q: Req, end: Phase)
    requires q < |s.phase| == |c.reqs| && q in s.held && HeadsWait(s) && end != Running
    ensures Steady(s, Release(c, s, q, end))
  {
    var p := PoolOf(c, q);
    assert Get(s, p).waiters != [] ==> s.phase[Get(s, p).waiters[0]] == Waiting;
  }

  /** The releaser is through, and the longest waiter, if any, has its connection. */
  lemma ReleaseEnds(c: Config, s: State, q: Req, end: Phase)
    requires q < |s.phase| == |c.reqs| && q in s.held && HeadsWait(s) && s.phase[q] != Waiting
    ensures
      var t, p := Release(c, s, q, end), PoolOf(c, q);
      var waiters := Get(s, p).waiters;
      && |t.phase| == |s.phase| && t.phase[q] == end
      && (waiters == [] ==> Get(t, p).idle == Get(s, p).idle + [s.held[q]] && t.held == s.held - {q})
      && (waiters != [] ==> Get(t, p).idle == Get(s, p).idle && Get(t, p).waiters == waiters[1..]
                            && t.held == (s.held - {q})[waiters[0] := s.held[q]])
  {
  }

  /** The head of the queue is over: `learned` says whether its migration was applied, `ok` whether its callback starts. */
  ghost predicate Settles(c: Config, s: State, t: State, learned: bool, ok: bool)
    requires s.queue != [] && s.queue[0] < |s.phase| == |c.reqs|
  {
    var owner := s.queue[0];
    && |t.phase| == |s.phase| && t.queue == s.queue[1..] && t.dropped == s.dropped
    && t.known == (if learned then s.known + {c.reqs[owner].db} else s.known)
    && t.migrated == (if learned then s.migrated + [c.reqs[owner].db] else s.migrated)
    && (t.phase[owner] == Running <==> ok)
    && (forall r: Req :: r < |s.phase| && r != owner && t.phase[r] == Running ==> s.phase[r] == Running)
  }

  lemma FailSettles(c: Config, s: State, mid: State, learned: bool)
    requires s.queue != [] && s.queue[0] < |s.phase| == |c.reqs| && HeadsWait(mid)
    requires Settles(c, s, mid, learned, true) && s.queue[0] in mid.held
    ensures Settles(c, s, Release(c, mid, s.queue[0], Failed), learned, false)
  {
    ReleaseIsSteady(c, mid, s.queue[0], Failed);
    ReleaseEnds(c, mid, s.queue[0], Failed);
  }

  lemma SettleSchema(c: Config, s: State, how: Settling)
    requires HeadsWait(s) && Sane(c, s) && Enabled(c, s, JobSettles(how))
    ensures Settles(c, s, Next(c, s, JobSettles(how)), how != Aborted, how == Applied)
  {
    var owner := s.queue[0];
    if how == AppliedThenFailed {
      var mid := Dequeue(Learn(s, c.reqs[owner].db));
      HeadsStillWait(s, mid);
      FailSettles(c, s, mid, true);
    } else if how == Aborted {
      HeadsStillWait(s, Dequeue(s));
      FailSettles(c, s, Dequeue(s), false);
    }
  }

  /** A drop forgets the database and ends; any other request goes on if its database is known and queues up if not. */
  lemma EnterSchema(c: Config, s: State, q: Req)
    requires HeadsWait(s) && Sane(c, s) && Enabled(c, s, Enter(q))
    ensures
      var t, db := Next(c, s, Enter(q)), c.reqs[q].db;
      && |t.phase| == |s.phase| && t.migrated == s.migrated
      && (c.reqs[q].kind == DropDatabase ==>
            t.known == s.known - {db} && t.dropped == s.dropped + [db] && t.phase[q] == Done && t.queue == s.queue)
      && (c.reqs[q].kind != DropDatabase ==>
            && t.known == s.known && t.dropped == s.dropped
            && t.phase[q] == (if db in s.known then Running else Queued)
            && t.queue == (if db in s.known then s.queue else s.queue + [q]))
      && (forall r: Req :: r < |s.phase| && r != q && t.phase[r] == Running ==> s.phase[r] == Running)
  {
    if c.reqs[q].kind == DropDatabase {
      HeadsStillWait(s, Forget(s, c.reqs[q].db));
      ReleaseIsSteady(c, Forget(s, c.reqs[q].db), q, Done);
      ReleaseEnds(c, Forget(s, c.reqs[q].db), q, Done);
    }
  }

  /** The head of the queue migrates, unless its database has become known meanwhile. */
  lemma TurnSchema(c: Config, s: State)
    requires Sane(c, s) && Enabled(c, s, JobTurn)
    ensures
      var t, owner := Next(c, s, JobTurn), s.queue[0];
      && t.known == s.known && t.migrated == s.migrated && t.dropped == s.dropped
      && t.phase == s.phase[owner := if c.reqs[owner].db in s.known then Running else Migrating]
      && t.queue == (if c.reqs[owner].db in s.known then s.queue[1..] else s.queue)
  {
  }

  lemma TakeIsSteady(c: Config, s: State, r: Req)
    requires Sane(c, s) && Enabled(c, s, Acquire(r))
    ensures Steady(s, Next(c, s, Acquire(r)))
  {
  }

  lemma MoveIsSteady(c: Config, s: State, step: Step)
    requires Sane(c, s) && Enabled(c, s, step) && (step.TimeOut? || step.SignIn?)
    ensures Steady(s, Next(c, s, step))
  {
  }

  lemma OtherSchema(c: Config, s: State, step: Step)
    requires HeadsWait(s) && Sane(c, s) && Enabled(c, s, step) && !step.Enter? && !step.JobTurn? && !step.JobSettles?
    ensures Steady(s, Next(c, s, step))
  {
    match step
    case Acquire(r) => TakeIsSteady(c, s, r);
    case TimeOut(_) => MoveIsSteady(c, s, step);
    case SignIn(_, _) => MoveIsSteady(c, s, step);
    case Finish(q) => ReleaseIsSteady(c, s, q, Done);
    case Break(q) => ReleaseIsSteady(c, s, q, Failed);
  }

  /** A callback starts only on a database known to be migrated. */
  lemma CallbackNeedsSchema(c: Config, s: State, step: Step, r: Req)
    requires Inv(c, s) && Sane(c, s) && Enabled(c, s, step) && r < |s.phase|
    ensures |Next(c, s, step).phase| == |s.phase|
    ensures Next(c, s, step).phase[r] == Running && s.phase[r] != Running ==> c.reqs[r].db in Next(c, s, step).known
  {
    BookHeadsWait(c, s);
    if step.Enter? {
      EnterSchema(c, s, step.r);
    } else if step.JobTurn? {
      TurnSchema(c, s);
    } else if step.JobSettles? {
      SettleSchema(c, s, step.how);
    } else {
      OtherSchema(c, s, step);
    }
  }

  /** How a step may change what is known. */
  ghost predicate KnownMoves(c: Config, s: State, step: Step, t: State, db: string)
    requires |s.phase| == |c.reqs| && Enabled(c, s, step)
  {
    var learns := (step == JobSettles(Applied) || step == JobSettles(AppliedThenFailed))
      && s.phase[s.queue[0]] == Migrating && c.reqs[s.queue[0]].db == db;
    var forgets := step.Enter? && c.reqs[step.r].kind == DropDatabase && c.reqs[step.r].db == db;
    && (learns ==> db in t.known && t.migrated == s.migrated + [db])
    && (forgets ==> db !in t.known && t.dropped == s.dropped + [db])
    && (!learns && !forgets ==> (db in t.known <==> db in s.known))
    && (db in s.migrated ==> db in t.migrated)
  }

  lemma SettleMoves(c: Config, s: State, how: Settling, db: string)
    requires HeadsWait(s) && Sane(c, s) && Enabled(c, s, JobSettles(how))
    ensures KnownMoves(c, s, JobSettles(how), Next(c, s, JobSettles(how)), db)
  {
    SettleSchema(c, s, how);
  }

  lemma EnterMoves(c: Config, s: State, q: Req, db: string)
    requires HeadsWait(s) && Sane(c, s) && Enabled(c, s, Enter(q))
    ensures KnownMoves(c, s, Enter(q), Next(c, s, Enter(q)), db)
  {
    EnterSchema(c, s, q);
  }

  lemma OtherMoves(c: Config, s: State, step: Step, db: string)
    requires HeadsWait(s) && Sane(c, s) && Enabled(c, s, step) && !step.Enter? && !step.JobSettles?
    ensures KnownMoves(c, s, step, Next(c, s, step), db)
  {
    if step.JobTurn? {
      TurnSchema(c, s);
    } else {
      OtherSchema(c, s, step);
    }
  }

  /** A database becomes known exactly when the migration running on it at the head of the queue has been applied, and
      becomes unknown exactly when it is dropped. */
  lemma KnownChanges(c: Config, s: State, step: Step, db: string)
    requires Inv(c, s) && Sane(c, s) && Enabled(c, s, step)
    ensures KnownMoves(c, s, step, Next(c, s, step), db)
  {
    BookHeadsWait(c, s);
    match step
    case Enter(q) => EnterMoves(c, s, q, db);
    case JobSettles(how) => SettleMoves(c, s, how, db);
    case Acquire(_) => OtherMoves(c, s, step, db);
    case TimeOut(_) => OtherMoves(c, s, step, db);
    case SignIn(_, _) => OtherMoves(c, s, step, db);
    case JobTurn => OtherMoves(c, s, step, db);
    case Finish(_) => OtherMoves(c, s, step, db);
    case Break(_) => OtherMoves(c, s, step, db);
  }

  /** Known databases have been migrated, and so has the database of every callback under way. */
  ghost predicate Grounded(c: Config, s: State) {
    && |s.phase| == |c.reqs|
    && (forall db :: db in s.known ==> db in s.migrated)
    && (forall r: Req :: r < |s.phase| && s.phase[r] == Running ==> c.reqs[r].db in s.migrated)
  }

  lemma StepGrounds(c: Config, s: State, step: Step)
    requires Inv(c, s) && Sane(c, s) && Enabled(c, s, step) && Grounded(c, s)
    ensures Grounded(c, Next(c, s, step))
  {
    var t := Next(c, s, step);
    forall db | db in t.known ensures db in t.migrated {
      KnownChanges(c, s, step, db);
    }
    StepKeepsInv(c, s, step);
    forall r: Req | r < |t.phase| && t.phase[r] == Running ensures c.reqs[r].db in t.migrated {
      CallbackNeedsSchema(c, s, step, r);
      KnownChanges(c, s, step, c.reqs[r].db);
    }
  }

  lemma {:induction false} RunGrounds(c: Config, s: State, steps: seq<Step>)
    requires Inv(c, s) && ValidRun(c, s, steps) && Grounded(c, s)
    ensures Grounded(c, Run(c, s, steps))
    decreases |steps|
  {
    if steps != [] {
      StepKeepsInv(c, s, steps[0]);
      StepGrounds(c, s, steps[0]);
      RunGrounds(c, Next(c, s, steps[0]), steps[1..]);
    }
  }

  /** In every run, no callback is under way on a database that was never migrated. */
  lemma NoCallbackUnmigrated(c: Config, steps: seq<Step>, r: Req)
    requires ValidRun(c, Init(c), steps) && r < |c.reqs|
    ensures |Run(c, Init(c), steps).phase| == |c.reqs|
    ensures Run(c, Init(c), steps).phase[r] == Running ==> c.reqs[r].db in Run(c, Init(c), steps).migrated
  {
    InitInv(c);
    RunGrounds(c, Init(c), steps);
  }

  /** Where each request can go next: nothing but its own phase, and its place in the queue, decides. */
  lemma StepsAvailable(c: Config, s: State, r: Req)
    requires |s.phase| == |c.reqs| && r < |s.phase|
    ensures Enabled(c, s, Acquire(r)) <==> s.phase[r] == Fresh
    ensures Enabled(c, s, TimeOut(r)) <==> s.phase[r] == Waiting
    ensures forall rebuilt :: Enabled(c, s, SignIn(r, rebuilt)) <==> s.phase[r] == Signing
    ensures Enabled(c, s, Enter(r)) <==> s.phase[r] == Entering
    ensures Enabled(c, s, Finish(r)) <==> s.phase[r] == Running
    ensures Enabled(c, s, Break(r)) <==> s.phase[r] == Signing || s.phase[r] == Entering || s.phase[r] == Running
    ensures s.queue != [] && s.queue[0] == r ==>
      && (Enabled(c, s, JobTurn) <==> s.phase[r] == Queued)
      && forall how :: Enabled(c, s, JobSettles(how)) <==> s.phase[r] == Migrating
  {
  }

  // -------------------------------------------------- who gets which connection

  /** An idle connection is taken from the front; otherwise the request joins the end of the queue. */
  lemma AcquireTakes(c: Config, s: State, r: Req)
    requires Inv(c, s) && Sane(c, s) && Enabled(c, s, Acquire(r))
    ensures
      var t, p := Next(c, s, Acquire(r)), if c.reqs[r].kind == ScopedCompany then Scoped else Root;
      && |t.phase| == |s.phase|
      && (Get(s, p).idle != [] ==>
            && t.held == s.held[r := Get(s, p).idle[0]] && Get(t, p).idle == Get(s, p).idle[1..]
            && t.phase == s.phase[r := if c.reqs[r].kind == Company then Signing else Entering])
      && (Get(s, p).idle == [] ==>
            t.held == s.held && Get(t, p).waiters == Get(s, p).waiters + [r] && t.phase == s.phase[r := Waiting])
  {
  }

  /** A request that ends gives its connection to the longest waiter of its pool, or back to the end of the idle list. */
  lemma EndingReleases(c: Config, s: State, step: Step)
    requires Inv(c, s) && Sane(c, s) && Enabled(c, s, step) && (step.Finish? || step.Break?)
    ensures step.r in s.held && |Next(c, s, step).phase| == |s.phase|
    ensures
      var t, p := Next(c, s, step), if c.reqs[step.r].kind == ScopedCompany then Scoped else Root;
      var waiters := Get(s, p).waiters;
      && t.phase[step.r] == (if step.Finish? then Done else Failed)
      && (waiters == [] ==> Get(t, p).idle == Get(s, p).idle + [s.held[step.r]] && step.r !in t.held)
      && (waiters != [] ==> Get(t, p).waiters == waiters[1..] && waiters[0] in t.held && t.held[waiters[0]] == s.held[step.r])
  {
    BookHeadsWait(c, s);
    BookRow(c, s, step.r);
    ReleaseEnds(c, s, step.r, if step.Finish? then Done else Failed);
  }

  /** Signing in keeps the connection, or puts a brand new one in its slot. */
  lemma SignInSwaps(c: Config, s: State, r: Req, rebuilt: bool)
    requires Inv(c, s) && Sane(c, s) && Enabled(c, s, SignIn(r, rebuilt))
    ensures
      var t := Next(c, s, SignIn(r, rebuilt));
      && t.phase == s.phase[r := Entering] && t.held.Keys == s.held.Keys
      && (forall q :: q in s.held && q != r ==> t.held[q] == s.held[q])
      && (if rebuilt then t.held[r] !in s.held.Values && t.held[r] !in s.root.idle + s.scoped.idle
          else t.held[r] == s.held[r])
  {
    BookRow(c, s, r);
  }
}
