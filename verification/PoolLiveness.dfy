/** Runs of the pool protocol: safety in every state, no deadlock, bounded length, nothing leaked at the end. */
module PoolLiveness {
  import opened Common
  import opened ConnectionPool
  import opened PoolProtocol
  import opened PoolSafety

  ghost predicate ValidRun(c: Config, s: State, steps: seq<Step>)
    decreases |steps|
  {
    steps == []
    || (Sane(c, s) && Enabled(c, s, steps[0]) && ValidRun(c, Next(c, s, steps[0]), steps[1..]))
  }

  ghost function Run(c: Config, s: State, steps: seq<Step>): State
    requires ValidRun(c, s, steps)
    decreases |steps|
  {
    if steps == [] then s else Run(c, Next(c, s, steps[0]), steps[1..])
  }

  lemma InitBook(c: Config)
    ensures Book(c, Init(c))
  {
    var s := Init(c);
    var none: set<Req> := {};
    assert Elems(s.queue) == none && s.held.Keys == none;
    assert forall p :: Elems(Get(s, p).waiters) == none && Elems(Get(s, p).arrivals) == none;
    assert Those(s.phase, IsWaiting) == none && Those(s.phase, IsInQueue) == none && Those(s.phase, Holding) == none;
  }

  lemma InitConserved(c: Config)
    ensures Conserved(c, Init(c))
  {
    var s := Init(c);
    assert s.held.Keys == {};
    assert HeldFrom(c, s, Root) == {} && HeldFrom(c, s, Scoped) == {};
    assert forall i :: 0 <= i < |Idle(s)| ==> Idle(s)[i] == i;
  }

  lemma InitInv(c: Config)
    ensures Inv(c, Init(c))
  {
    InitBook(c);
    InitConserved(c);
  }

  lemma {:induction false} RunInv(c: Config, s: State, steps: seq<Step>)
    requires Inv(c, s) && ValidRun(c, s, steps)
    ensures Inv(c, Run(c, s, steps))
    decreases |steps|
  {
    if steps != [] {
      StepKeepsInv(c, s, steps[0]);
      RunInv(c, Next(c, s, steps[0]), steps[1..]);
    }
  }

  lemma SlotsCounted(c: Config, s: State)
    requires Conserved(c, s)
    ensures forall p :: |Get(s, p).idle| + |HeldFrom(c, s, p)| == Size(c, p)
  {
    forall p ensures |Get(s, p).idle| + |HeldFrom(c, s, p)| == Size(c, p) {
      assert Counted(c, s, p);
    }
  }

  lemma QueuesInOrder(s: State)
    requires Pools(s)
    ensures forall p :: Get(s, p).idle == [] || Get(s, p).waiters == []
    ensures forall p :: Surviving(Get(s, p)) == Get(s, p).served + Get(s, p).waiters
  {
  }

  lemma OneAtATime(c: Config, s: State)
    requires OneMigration(c, s) && |s.phase| == |c.reqs|
    ensures forall q: Req, r: Req :: q < |s.phase| && r < |s.phase| && s.phase[q] == s.phase[r] == Migrating ==> q == r
    ensures forall r: Req :: r < |s.phase| && r < |c.reqs| && s.phase[r] == Migrating ==> c.reqs[r].db !in s.known
  {
  }

  /** What the invariant says of one state: slots are conserved per pool, no connection has two owners, waiters wait
      only for an exhausted pool and are served in order, and at most one request is migrating, an unknown database. */
  ghost predicate Safe(c: Config, s: State) {
    && (forall p :: |Get(s, p).idle| + |HeldFrom(c, s, p)| == Size(c, p))
    && Owned(Idle(s), s.held, s.nextConn)
    && (forall p :: Get(s, p).idle == [] || Get(s, p).waiters == [])
    && (forall p :: Surviving(Get(s, p)) == Get(s, p).served + Get(s, p).waiters)
    && (forall q: Req, r: Req :: q < |s.phase| && r < |s.phase| && s.phase[q] == s.phase[r] == Migrating ==> q == r)
    && (forall r: Req :: r < |s.phase| && r < |c.reqs| && s.phase[r] == Migrating ==> c.reqs[r].db !in s.known)
    && Ledger(s)
  }

  lemma InvIsSafe(c: Config, s: State)
    requires Inv(c, s)
    ensures Safe(c, s)
  {
    SlotsCounted(c, s);
    QueuesInOrder(s);
    OneAtATime(c, s);
  }

  lemma Safety(c: Config, steps: seq<Step>)
    requires ValidRun(c, Init(c), steps)
    ensures Safe(c, Run(c, Init(c), steps))
  {
    InitInv(c);
    RunInv(c, Init(c), steps);
    InvIsSafe(c, Run(c, Init(c), steps));
  }

  // ----------------------------------------------------------- termination

  function Rank(ph: Phase): nat {
    match ph
    case Fresh => 7
    case Waiting => 6
    case Signing => 5
    case Entering => 4
    case Queued => 3
    case Migrating => 2
    case Running => 1
    case Done => 0
    case Failed => 0
  }

  function Total(phase: seq<Phase>): nat {
    if phase == [] then 0 else Total(phase[..|phase|-1]) + Rank(phase[|phase|-1])
  }

  lemma {:induction false} TotalMoved(phase: seq<Phase>, r: Req, ph: Phase)
    requires r < |phase|
    ensures Total(phase[r := ph]) == Total(phase) - Rank(phase[r]) + Rank(ph)
  {
    var n := |phase| - 1;
    if r == n {
      assert phase[r := ph][..n] == phase[..n];
    } else {
      TotalMoved(phase[..n], r, ph);
      assert phase[r := ph][..n] == phase[..n][r := ph];
    }
  }

  lemma {:induction false} TotalBound(phase: seq<Phase>)
    ensures Total(phase) <= 7 * |phase|
  {
    if phase != [] {
      TotalBound(phase[..|phase|-1]);
    }
  }

  lemma HeadWaits(c: Config, s: State, p: PoolName)
    requires Book(c, s) && Get(s, p).waiters != []
    ensures Get(s, p).waiters[0] < |s.phase| && s.phase[Get(s, p).waiters[0]] == Waiting
  {
    assert Get(s, p).waiters[0] in Elems(Get(s, p).waiters);
    assert Get(s, p).waiters[0] in Those(s.phase, IsWaiting);
  }

  /** One request ends and another, if any, goes from waiting to its first phase. */
  lemma {:induction false} HandOffTotal(phase: seq<Phase>, r: Req, end: Phase, w: Req, first: Phase)
    requires r < |phase| && w < |phase| && r != w && Holding(phase[r]) && Finished(end)
    requires phase[w] == Waiting && Holding(first)
    ensures Total(phase[r := end]) < Total(phase)
    ensures Total(phase[r := end][w := first]) < Total(phase)
  {
    TotalMoved(phase, r, end);
    TotalMoved(phase[r := end], w, first);
  }

  lemma ReleaseTotal(c: Config, s: State, r: Req, end: Phase)
    requires Book(c, s) && Sane(c, s) && r < |s.phase| && Holding(s.phase[r]) && end in {Done, Failed}
    ensures Total(Release(c, s, r, end).phase) < Total(s.phase)
  {
    var waiters := Get(s, PoolOf(c, r)).waiters;
    if waiters != [] {
      HeadWaits(c, s, PoolOf(c, r));
      HandOffTotal(s.phase, r, end, waiters[0], FirstPhase(c, waiters[0]));
    } else {
      TotalMoved(s.phase, r, end);
    }
  }

  lemma EnterDescends(c: Config, s: State, r: Req)
    requires Book(c, s) && Sane(c, s) && Enabled(c, s, Enter(r))
    ensures Total(Next(c, s, Enter(r)).phase) < Total(s.phase)
  {
    var db := c.reqs[r].db;
    if c.reqs[r].kind == DropDatabase {
      SameBook(c, s, Forget(s, db));
      ReleaseTotal(c, Forget(s, db), r, Done);
    } else {
      TotalMoved(s.phase, r, if db in s.known then Running else Queued);
    }
  }

  lemma AcquireDescends(c: Config, s: State, r: Req)
    requires Sane(c, s) && Enabled(c, s, Acquire(r))
    ensures Total(Next(c, s, Acquire(r)).phase) < Total(s.phase)
  {
    TotalMoved(s.phase, r, if Get(s, PoolOf(c, r)).idle != [] then FirstPhase(c, r) else Waiting);
  }

  lemma TurnDescends(c: Config, s: State)
    requires Sane(c, s) && Enabled(c, s, JobTurn)
    ensures Total(Next(c, s, JobTurn).phase) < Total(s.phase)
  {
    TotalMoved(s.phase, s.queue[0], if c.reqs[s.queue[0]].db in s.known then Running else Migrating);
  }

  lemma FailDescends(c: Config, s: State, r: Req)
    requires Book(c, s) && r < |s.phase| && s.phase[r] == Running
    ensures Sane(c, s) && Total(Release(c, s, r, Failed).phase) < Total(s.phase)
  {
    BookIsSane(c, s);
    ReleaseTotal(c, s, r, Failed);
  }

  lemma SettleDescends(c: Config, s: State, how: Settling)
    requires Book(c, s) && Distinct(s.queue) && Sane(c, s) && Enabled(c, s, JobSettles(how))
    ensures Total(Next(c, s, JobSettles(how)).phase) < Total(s.phase)
  {
    var owner := s.queue[0];
    TotalMoved(s.phase, owner, Running);
    DequeueBook(c, s);
    if how == Aborted {
      FailDescends(c, Dequeue(s), owner);
    } else if how == AppliedThenFailed {
      SameBook(c, Dequeue(s), Dequeue(Learn(s, c.reqs[owner].db)));
      FailDescends(c, Dequeue(Learn(s, c.reqs[owner].db)), owner);
    }
  }

  /** Every step, timeouts included, brings some request closer to its end and none further away. */
  lemma StepDescends(c: Config, s: State, step: Step)
    requires Book(c, s) && Distinct(s.queue) && Sane(c, s) && Enabled(c, s, step)
    ensures Total(Next(c, s, step).phase) < Total(s.phase)
  {
    match step
    case Acquire(r) => AcquireDescends(c, s, r);
    case TimeOut(r) => TotalMoved(s.phase, r, Failed);
    case SignIn(r, _) => TotalMoved(s.phase, r, Entering);
    case Enter(r) => EnterDescends(c, s, r);
    case JobTurn => TurnDescends(c, s);
    case JobSettles(how) => SettleDescends(c, s, how);
    case Finish(r) => ReleaseTotal(c, s, r, Done);
    case Break(r) => ReleaseTotal(c, s, r, Failed);
  }

  lemma {:induction false} RunDescends(c: Config, s: State, steps: seq<Step>)
    requires Inv(c, s) && ValidRun(c, s, steps)
    ensures |steps| + Total(Run(c, s, steps).phase) <= Total(s.phase)
    decreases |steps|
  {
    if steps != [] {
      StepKeepsInv(c, s, steps[0]);
      StepDescends(c, s, steps[0]);
      RunDescends(c, Next(c, s, steps[0]), steps[1..]);
    }
  }

  /** No run has more than seven steps per request. */
  lemma RunsEnd(c: Config, steps: seq<Step>)
    requires ValidRun(c, Init(c), steps)
    ensures |steps| <= 7 * |c.reqs|
  {
    InitInv(c);
    RunDescends(c, Init(c), steps);
    TotalBound(Init(c).phase);
  }

  // ---------------------------------------------------------- no deadlock

  predicate Finished(ph: Phase) {
    ph == Done || ph == Failed
  }

  /** A pool that some request uses has at least one connection. */
  ghost predicate Provisioned(c: Config) {
    forall r: Req :: r < |c.reqs| ==> Size(c, PoolOf(c, r)) >= 1
  }

  /** The head of the schema queue can always move. */
  lemma HeadMoves(c: Config, s: State) returns (step: Step)
    requires Inv(c, s) && s.queue != []
    ensures !step.TimeOut? && Enabled(c, s, step)
  {
    var h := s.queue[0];
    assert h in Elems(s.queue) && h in Those(s.phase, IsInQueue);
    step := if s.phase[h] == Queued then JobTurn else JobSettles(Applied);
  }

  lemma HolderMoves(c: Config, s: State, r: Req) returns (step: Step)
    requires Inv(c, s) && r in s.held
    ensures !step.TimeOut? && Enabled(c, s, step)
  {
    assert r in Those(s.phase, Holding);
    if IsInQueue(s.phase[r]) {
      assert r in Those(s.phase, IsInQueue) && r in Elems(s.queue);
      step := HeadMoves(c, s);
    } else {
      step := if s.phase[r] == Signing then SignIn(r, false) else if s.phase[r] == Entering then Enter(r) else Finish(r);
    }
  }

  /** A waiting request implies a holder in its pool. */
  lemma WaiterHasHolder(c: Config, s: State, r: Req) returns (h: Req)
    requires Inv(c, s) && r < |s.phase| && s.phase[r] == Waiting && Size(c, PoolOf(c, r)) >= 1
    ensures h in s.held
  {
    var p := PoolOf(c, r);
    BookRow(c, s, r);
    assert r in Get(s, p).waiters;
    assert Get(s, p).idle == [];
    assert Counted(c, s, p);
    assert HeldFrom(c, s, p) != {};
    h :| h in HeldFrom(c, s, p);
  }

  /** Deadlock freedom: while any request is unfinished, some step other than a timeout is enabled. */
  lemma NeverStuck(c: Config, steps: seq<Step>, r: Req) returns (step: Step)
    requires ValidRun(c, Init(c), steps) && Provisioned(c)
    requires r < |Run(c, Init(c), steps).phase| && !Finished(Run(c, Init(c), steps).phase[r])
    ensures |Run(c, Init(c), steps).phase| == |c.reqs|
    ensures !step.TimeOut? && Enabled(c, Run(c, Init(c), steps), step)
  {
    InitInv(c);
    RunInv(c, Init(c), steps);
    var s := Run(c, Init(c), steps);
    if s.phase[r] == Fresh {
      step := Acquire(r);
    } else if s.phase[r] == Waiting {
      var h := WaiterHasHolder(c, s, r);
      step := HolderMoves(c, s, h);
    } else {
      BookRow(c, s, r);
      step := HolderMoves(c, s, r);
    }
  }

  /** When no step other than a timeout is left, all requests are done and every connection is idle again. */
  lemma NothingLeaks(c: Config, steps: seq<Step>)
    requires ValidRun(c, Init(c), steps) && Provisioned(c)
    requires |Run(c, Init(c), steps).phase| == |c.reqs|
    requires forall step: Step :: Enabled(c, Run(c, Init(c), steps), step) ==> step.TimeOut?
    ensures
      var s := Run(c, Init(c), steps);
      && (forall r: Req :: r < |s.phase| ==> Finished(s.phase[r]))
      && (forall p :: |Get(s, p).idle| == Size(c, p) && Get(s, p).waiters == [])
      && s.queue == []
  {
    InitInv(c);
    RunInv(c, Init(c), steps);
    var s := Run(c, Init(c), steps);
    forall r: Req | r < |s.phase| ensures Finished(s.phase[r]) {
      if !Finished(s.phase[r]) {
        var _ := NeverStuck(c, steps, r);
      }
    }
    AllIdle(c, s);
  }

  lemma AllIdle(c: Config, s: State)
    requires Book(c, s) && Counted(c, s, Root) && Counted(c, s, Scoped)
    requires forall r: Req :: r < |s.phase| ==> Finished(s.phase[r])
    ensures forall p :: |Get(s, p).idle| == Size(c, p) && Get(s, p).waiters == []
    ensures s.queue == []
  {
    assert Those(s.phase, Holding) == {} && Those(s.phase, IsWaiting) == {} && Those(s.phase, IsInQueue) == {};
    EmptySeq(s.queue);
    EmptySeq(Get(s, Root).waiters);
    EmptySeq(Get(s, Scoped).waiters);
    assert HeldFrom(c, s, Root) == {} && HeldFrom(c, s, Scoped) == {};
  }

  lemma EmptySeq(a: seq<Req>)
    ensures Elems(a) == {} <==> a == []
  {
    if a != [] {
      assert a[0] in Elems(a);
    }
  }
}
