/** Deadlock freedom holds exactly of configurations whose pools are not empty. */
module PoolProvision {
  import opened Common
  import opened ConnectionPool
  import opened PoolProtocol
  import opened PoolSafety
  import opened PoolLiveness

  predicate Idling(ph: Phase) {
    ph == Fresh || ph == Waiting
  }

  /** Nobody ever holds a connection of an empty pool. */
  lemma NeverHeld(c: Config, s: State, r: Req)
    requires Inv(c, s) && r < |c.reqs| && Size(c, PoolOf(c, r)) == 0
    ensures |s.phase| == |c.reqs| && !Holding(s.phase[r])
  {
    BookRow(c, s, r);
    assert Counted(c, s, PoolOf(c, r));
    assert r !in HeldFrom(c, s, PoolOf(c, r));
  }

  ghost predicate HeadsWait(s: State) {
    forall p :: Get(s, p).waiters != [] ==> Get(s, p).waiters[0] < |s.phase| && s.phase[Get(s, p).waiters[0]] == Waiting
  }

  lemma BookHeadsWait(c: Config, s: State)
    requires Book(c, s)
    ensures HeadsWait(s)
  {
    forall p | Get(s, p).waiters != []
      ensures Get(s, p).waiters[0] < |s.phase| && s.phase[Get(s, p).waiters[0]] == Waiting
    {
      HeadWaits(c, s, p);
    }
  }

  lemma HeadsStillWait(s: State, t: State)
    requires HeadsWait(s) && t.root == s.root && t.scoped == s.scoped && |t.phase| == |s.phase|
    requires forall w: Req :: w < |s.phase| && s.phase[w] == Waiting ==> t.phase[w] == Waiting
    ensures HeadsWait(t)
  {
    forall p | Get(t, p).waiters != []
      ensures Get(t, p).waiters[0] < |t.phase| && t.phase[Get(t, p).waiters[0]] == Waiting
    {
      assert Get(t, p) == Get(s, p);
    }
  }

  /** What somebody else's step can do to a request that holds nothing. */
  predicate Drifts(before: Phase, after: Phase) {
    after == before || (before == Waiting && Holding(after))
  }

  lemma ReleaseByAnother(c: Config, s: State, q: Req, end: Phase, r: Req)
    requires q < |s.phase| == |c.reqs| && q in s.held && HeadsWait(s) && r < |s.phase| && r != q
    ensures |Release(c, s, q, end).phase| == |s.phase|
    ensures Drifts(s.phase[r], Release(c, s, q, end).phase[r])
  {
    var p := PoolOf(c, q);
    assert Get(s, p).waiters != [] ==> s.phase[Get(s, p).waiters[0]] == Waiting;
  }

  lemma QueueHeadHolds(c: Config, s: State)
    requires Book(c, s) && s.queue != []
    ensures s.queue[0] < |s.phase| && IsInQueue(s.phase[s.queue[0]])
  {
    assert s.queue[0] in Elems(s.queue);
    assert s.queue[0] in Those(s.phase, IsInQueue);
  }

  lemma SettleByAnother(c: Config, s: State, how: Settling, r: Req)
    requires HeadsWait(s) && Sane(c, s) && Enabled(c, s, JobSettles(how)) && r < |s.phase| && r != s.queue[0]
    ensures |Next(c, s, JobSettles(how)).phase| == |s.phase|
    ensures Drifts(s.phase[r], Next(c, s, JobSettles(how)).phase[r])
  {
    var owner := s.queue[0];
    if how == AppliedThenFailed {
      HeadsStillWait(s, Dequeue(Learn(s, c.reqs[owner].db)));
      ReleaseByAnother(c, Dequeue(Learn(s, c.reqs[owner].db)), owner, Failed, r);
    } else if how == Aborted {
      HeadsStillWait(s, Dequeue(s));
      ReleaseByAnother(c, Dequeue(s), owner, Failed, r);
    }
  }

  lemma EnterByAnother(c: Config, s: State, q: Req, r: Req)
    requires HeadsWait(s) && Sane(c, s) && Enabled(c, s, Enter(q)) && r < |s.phase| && r != q
    ensures |Next(c, s, Enter(q)).phase| == |s.phase|
    ensures Drifts(s.phase[r], Next(c, s, Enter(q)).phase[r])
  {
    if c.reqs[q].kind == DropDatabase {
      HeadsStillWait(s, Forget(s, c.reqs[q].db));
      ReleaseByAnother(c, Forget(s, c.reqs[q].db), q, Done, r);
    }
  }

  lemma UnheldStep(c: Config, s: State, step: Step, r: Req)
    requires Book(c, s) && Sane(c, s) && Enabled(c, s, step) && r < |s.phase| && !Holding(s.phase[r])
    ensures |Next(c, s, step).phase| == |s.phase|
    ensures
      var ph := Next(c, s, step).phase[r];
      Drifts(s.phase[r], ph) || (step == Acquire(r) && (ph == Waiting || Holding(ph))) || (step == TimeOut(r) && ph == Failed)
  {
    BookHeadsWait(c, s);
    match step
    case Acquire(q) =>
    case TimeOut(q) =>
    case SignIn(q, _) =>
    case Enter(q) => EnterByAnother(c, s, q, r);
    case JobTurn => QueueHeadHolds(c, s);
    case JobSettles(how) =>
      QueueHeadHolds(c, s);
      SettleByAnother(c, s, how, r);
    case Finish(q) => ReleaseByAnother(c, s, q, Done, r);
    case Break(q) => ReleaseByAnother(c, s, q, Failed, r);
  }

  ghost predicate Starving(s: State, r: Req, timedOut: bool) {
    r < |s.phase| && (Idling(s.phase[r]) || (timedOut && s.phase[r] == Failed))
  }

  lemma {:induction false} StarvingRun(c: Config, s: State, steps: seq<Step>, r: Req, before: bool)
    requires Inv(c, s) && ValidRun(c, s, steps) && r < |c.reqs| && Size(c, PoolOf(c, r)) == 0
    requires Starving(s, r, before)
    ensures Starving(Run(c, s, steps), r, before || TimeOut(r) in steps)
    decreases |steps|
  {
    if steps != [] {
      var next := Next(c, s, steps[0]);
      StepKeepsInv(c, s, steps[0]);
      NeverHeld(c, s, r);
      NeverHeld(c, next, r);
      UnheldStep(c, s, steps[0], r);
      StarvingRun(c, next, steps[1..], r, before || steps[0] == TimeOut(r));
    }
  }

  /** In every run, a request to an empty pool never gets further than waiting: it can only time out. */
  lemma EmptyPoolStarves(c: Config, steps: seq<Step>, r: Req)
    requires ValidRun(c, Init(c), steps) && r < |c.reqs| && Size(c, PoolOf(c, r)) == 0
    ensures
      var s := Run(c, Init(c), steps);
      r < |s.phase| && (s.phase[r] in {Fresh, Waiting} || (s.phase[r] == Failed && TimeOut(r) in steps))
  {
    InitInv(c);
    StarvingRun(c, Init(c), steps, r, false);
  }

  // ------------------------------------------------------------- exactly when

  /** Some step other than a timeout is enabled. */
  ghost predicate CanMove(c: Config, s: State) {
    |s.phase| == |c.reqs| && exists step: Step :: !step.TimeOut? && Enabled(c, s, step)
  }

  ghost predicate AllFinished(s: State) {
    forall r: Req :: r < |s.phase| ==> Finished(s.phase[r])
  }

  ghost predicate DeadlockFree(c: Config) {
    forall steps: seq<Step> :: ValidRun(c, Init(c), steps) ==>
      AllFinished(Run(c, Init(c), steps)) || CanMove(c, Run(c, Init(c), steps))
  }

  /** From any state, go on without timeouts until nothing else is left; the run ends because every step descends. */
  lemma {:induction false} RunOut(c: Config, s: State) returns (steps: seq<Step>)
    requires Inv(c, s)
    ensures ValidRun(c, s, steps) && !CanMove(c, Run(c, s, steps))
    ensures forall step :: step in steps ==> !step.TimeOut?
    decreases Total(s.phase)
  {
    steps := [];
    if CanMove(c, s) {
      var step: Step :| !step.TimeOut? && Enabled(c, s, step);
      StepKeepsInv(c, s, step);
      StepDescends(c, s, step);
      var rest := RunOut(c, Next(c, s, step));
      steps := [step] + rest;
      assert steps[1..] == rest;
    }
  }

  lemma ProvisionedIsFree(c: Config, steps: seq<Step>)
    requires Provisioned(c) && ValidRun(c, Init(c), steps)
    ensures AllFinished(Run(c, Init(c), steps)) || CanMove(c, Run(c, Init(c), steps))
  {
    var s := Run(c, Init(c), steps);
    if r: Req :| r < |s.phase| && !Finished(s.phase[r]) {
      var step := NeverStuck(c, steps, r);
    }
  }

  /** Every run can go on without timeouts until all requests are finished, if and only if every pool in use has a
      connection. */
  lemma DeadlockFreeIff(c: Config)
    ensures DeadlockFree(c) <==> Provisioned(c)
  {
    if Provisioned(c) {
      forall steps: seq<Step> | ValidRun(c, Init(c), steps)
        ensures AllFinished(Run(c, Init(c), steps)) || CanMove(c, Run(c, Init(c), steps))
      {
        ProvisionedIsFree(c, steps);
      }
    } else {
      var r: Req :| r < |c.reqs| && Size(c, PoolOf(c, r)) == 0;
      InitInv(c);
      var steps := RunOut(c, Init(c));
      EmptyPoolStarves(c, steps, r);
      assert !AllFinished(Run(c, Init(c), steps));
    }
  }
}
