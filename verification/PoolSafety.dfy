/** Every step keeps the pool invariant. */
module PoolSafety {
  import opened Common
  import opened Ordering
  import opened ConnectionPool
  import opened PoolProtocol

  // ------------------------------------------------------- one request moves

  function Adjust(a: set<Req>, r: Req, keep: bool): set<Req> {
    if keep then a + {r} else a - {r}
  }

  lemma ThoseMoved(phase: seq<Phase>, q: Phase -> bool, r: Req, ph: Phase)
    requires r < |phase|
    ensures Those(phase[r := ph], q) == Adjust(Those(phase, q), r, q(ph))
  {
  }

  /** The book stays balanced when one request changes phase and the lists follow. */
  lemma BookMoved(c: Config, s: State, t: State, r: Req, ph: Phase)
    requires Book(c, s) && r < |s.phase| && t.phase == s.phase[r := ph] && ph != Fresh
    requires forall p :: Elems(Get(t, p).waiters) == Adjust(Elems(Get(s, p).waiters), r, ph == Waiting && PoolOf(c, r) == p)
    requires forall p :: Elems(Get(t, p).arrivals) <= Elems(Get(s, p).arrivals) + {r}
    requires Elems(t.queue) == Adjust(Elems(s.queue), r, IsInQueue(ph))
    requires t.held.Keys == Adjust(s.held.Keys, r, Holding(ph))
    ensures Book(c, t)
  {
    ThoseMoved(s.phase, IsWaiting, r, ph);
    ThoseMoved(s.phase, IsFresh, r, ph);
    ThoseMoved(s.phase, IsInQueue, r, ph);
    ThoseMoved(s.phase, Holding, r, ph);
  }

  /** Membership of one request, read off the book. */
  lemma BookRow(c: Config, s: State, r: Req)
    requires Book(c, s) && r < |s.phase|
    ensures r in s.held <==> Holding(s.phase[r])
    ensures r in Elems(s.queue) <==> IsInQueue(s.phase[r])
    ensures forall p :: r in Elems(Get(s, p).waiters) <==> s.phase[r] == Waiting && PoolOf(c, r) == p
    ensures s.phase[r] == Fresh ==> forall p :: r !in Elems(Get(s, p).arrivals)
  {
    assert r in Those(s.phase, Holding) <==> Holding(s.phase[r]);
    assert r in Those(s.phase, IsInQueue) <==> IsInQueue(s.phase[r]);
    assert r in Those(s.phase, IsWaiting) <==> IsWaiting(s.phase[r]);
    assert r in Those(s.phase, IsFresh) <==> IsFresh(s.phase[r]);
    assert forall p :: r in From(c, p) <==> PoolOf(c, r) == p;
  }

  lemma TakeBook(c: Config, s: State, r: Req)
    requires Book(c, s) && r < |s.phase| && s.phase[r] == Fresh && Get(s, PoolOf(c, r)).idle != []
    ensures Book(c, Take(c, s, r))
  {
    BookRow(c, s, r);
    BookMoved(c, s, Take(c, s, r), r, FirstPhase(c, r));
  }

  lemma WaitBook(c: Config, s: State, r: Req)
    requires Book(c, s) && r < |s.phase| && s.phase[r] == Fresh && Get(s, PoolOf(c, r)).idle == []
    ensures Book(c, Wait(c, s, r))
  {
    BookRow(c, s, r);
    var pool := Get(s, PoolOf(c, r));
    assert Elems(pool.waiters + [r]) == Elems(pool.waiters) + {r};
    assert Elems(pool.arrivals + [r]) == Elems(pool.arrivals) + {r};
    BookMoved(c, s, Wait(c, s, r), r, Waiting);
  }

  lemma GiveUpBook(c: Config, s: State, r: Req)
    requires Book(c, s) && r < |s.phase| && s.phase[r] == Waiting
    ensures Book(c, GiveUp(c, s, r))
  {
    BookRow(c, s, r);
    var pool := Get(s, PoolOf(c, r));
    forall x ensures x in Elems(TimedOut(pool, r).waiters) <==> x in Elems(pool.waiters) - {r} {
      DropElems(pool.waiters, r, x);
    }
    assert Elems(TimedOut(pool, r).waiters) == Elems(pool.waiters) - {r};
    BookMoved(c, s, GiveUp(c, s, r), r, Failed);
  }

  lemma LeaveBook(c: Config, s: State, r: Req, end: Phase)
    requires Book(c, s) && r < |s.phase| && Holding(s.phase[r]) && !IsInQueue(s.phase[r]) && end in {Done, Failed}
    ensures Book(c, Leaving(s, r, end))
  {
    BookRow(c, s, r);
    BookMoved(c, s, Leaving(s, r, end), r, end);
  }

  lemma HandOffBook(c: Config, s: State, p: PoolName, conn: Conn)
    requires Book(c, s) && PoolInv(Get(s, p)) && Get(s, p).waiters != []
    ensures Get(s, p).waiters[0] < |s.phase|
    ensures
      var w := Get(s, p).waiters[0];
      Book(c, Moved(Put(s, p, Released(Get(s, p), conn)), w, FirstPhase(c, w)).(held := s.held[w := conn]))
  {
    var pool := Get(s, p);
    var w, rest := pool.waiters[0], pool.waiters[1..];
    WaitersDistinct(pool);
    assert w !in rest && pool.waiters == [w] + rest;
    assert Elems(rest) == Elems(pool.waiters) - {w} && w in Elems(pool.waiters);
    assert w in Those(s.phase, IsWaiting) * From(c, p);
    BookRow(c, s, w);
    BookMoved(c, s, Moved(Put(s, p, Released(pool, conn)), w, FirstPhase(c, w)).(held := s.held[w := conn]), w, FirstPhase(c, w));
  }

  /** A request that is on its way out, its connection not yet passed on. */
  function Leaving(s: State, r: Req, end: Phase): State
    requires r < |s.phase|
  {
    Moved(s, r, end).(held := s.held - {r})
  }

  lemma PassOnBook(c: Config, s: State, r: Req, end: Phase)
    requires r < |s.phase| == |c.reqs| && r in s.held && Book(c, Leaving(s, r, end)) && Get(s, PoolOf(c, r)).waiters != []
    requires PoolInv(Get(s, PoolOf(c, r)))
    ensures Get(s, PoolOf(c, r)).waiters[0] < |s.phase| && Book(c, Release(c, s, r, end))
  {
    HandOffBook(c, Leaving(s, r, end), PoolOf(c, r), s.held[r]);
  }

  lemma PutBackBook(c: Config, s: State, r: Req, end: Phase)
    requires r < |s.phase| == |c.reqs| && r in s.held && Book(c, Leaving(s, r, end)) && Get(s, PoolOf(c, r)).waiters == []
    ensures Book(c, Release(c, s, r, end))
  {
    SameBook(c, Leaving(s, r, end), Release(c, s, r, end));
  }

  lemma ReleaseBook(c: Config, s: State, r: Req, end: Phase)
    requires Book(c, s) && Sane(c, s) && Pools(s)
    requires r < |s.phase| && Holding(s.phase[r]) && !IsInQueue(s.phase[r]) && end in {Done, Failed}
    ensures Book(c, Release(c, s, r, end))
  {
    LeaveBook(c, s, r, end);
    if Get(s, PoolOf(c, r)).waiters != [] {
      PassOnBook(c, s, r, end);
    } else {
      PutBackBook(c, s, r, end);
    }
  }

  lemma SameBook(c: Config, s: State, t: State)
    requires Book(c, s) && t.phase == s.phase && t.queue == s.queue && t.held.Keys == s.held.Keys
    requires forall p :: Get(t, p).waiters == Get(s, p).waiters && Get(t, p).arrivals == Get(s, p).arrivals
    ensures Book(c, t)
  {
  }

  lemma EnqueueBook(c: Config, s: State, r: Req)
    requires Book(c, s) && r < |s.phase| && s.phase[r] == Entering
    ensures Book(c, Enqueue(s, r))
  {
    BookRow(c, s, r);
    assert Elems(s.queue + [r]) == Elems(s.queue) + {r};
    BookMoved(c, s, Enqueue(s, r), r, Queued);
  }

  lemma DequeueBook(c: Config, s: State)
    requires Book(c, s) && s.queue != [] && Distinct(s.queue)
    ensures s.queue[0] < |s.phase| && Holding(s.phase[s.queue[0]]) && Book(c, Dequeue(s))
  {
    var h, rest := s.queue[0], s.queue[1..];
    assert h in Elems(s.queue) && h in Those(s.phase, IsInQueue);
    assert h !in rest && s.queue == [h] + rest;
    assert Elems(rest) == Elems(s.queue) - {h};
    BookRow(c, s, h);
    BookMoved(c, s, Dequeue(s), h, Running);
  }

  lemma StayBook(c: Config, s: State, r: Req, ph: Phase)
    requires Book(c, s) && r < |s.phase| && Holding(s.phase[r]) && Holding(ph) && IsInQueue(ph) == IsInQueue(s.phase[r])
    ensures Book(c, Moved(s, r, ph))
  {
    BookRow(c, s, r);
    BookMoved(c, s, Moved(s, r, ph), r, ph);
  }

  // ------------------------------------------------------------ conservation

  lemma OwnedTake(idle: seq<Conn>, held: map<Req, Conn>, bound: Conn, k: nat, r: Req)
    requires Owned(idle, held, bound) && k < |idle| && r !in held
    ensures Owned(idle[..k] + idle[k+1..], held[r := idle[k]], bound)
  {
    var rest := idle[..k] + idle[k+1..];
    forall i | 0 <= i < |rest| ensures rest[i] in idle && rest[i] != idle[k] {
      assert rest[i] == if i < k then idle[i] else idle[i+1];
    }
  }

  lemma OwnedFree(idle: seq<Conn>, held: map<Req, Conn>, bound: Conn, k: nat, r: Req)
    requires Owned(idle, held, bound) && k <= |idle| && r in held
    ensures Owned(idle[..k] + [held[r]] + idle[k..], held - {r}, bound)
  {
    var more := idle[..k] + [held[r]] + idle[k..];
    forall i | 0 <= i < |more| ensures i != k ==> more[i] in idle {
      if i != k {
        assert more[i] == if i < k then idle[i] else idle[i-1];
      }
    }
  }

  lemma OwnedPass(idle: seq<Conn>, held: map<Req, Conn>, bound: Conn, r: Req, w: Req)
    requires Owned(idle, held, bound) && r in held && w !in held
    ensures Owned(idle, (held - {r})[w := held[r]], bound)
  {
  }

  lemma TakeOwned(c: Config, s: State, r: Req)
    requires Owned(Idle(s), s.held, s.nextConn) && r < |s.phase| == |c.reqs| && r !in s.held && Get(s, PoolOf(c, r)).idle != []
    ensures Owned(Idle(Take(c, s, r)), Take(c, s, r).held, Take(c, s, r).nextConn)
  {
    var k := if PoolOf(c, r) == Root then 0 else |s.root.idle|;
    OwnedTake(Idle(s), s.held, s.nextConn, k, r);
    assert Idle(Take(c, s, r)) == Idle(s)[..k] + Idle(s)[k+1..];
  }

  lemma FreeOwned(c: Config, s: State, r: Req, end: Phase)
    requires Owned(Idle(s), s.held, s.nextConn) && r < |s.phase| == |c.reqs| && r in s.held
    requires Get(s, PoolOf(c, r)).waiters == []
    ensures Owned(Idle(Release(c, s, r, end)), Release(c, s, r, end).held, Release(c, s, r, end).nextConn)
  {
    var k := if PoolOf(c, r) == Root then |s.root.idle| else |Idle(s)|;
    OwnedFree(Idle(s), s.held, s.nextConn, k, r);
    assert Idle(Release(c, s, r, end)) == Idle(s)[..k] + [s.held[r]] + Idle(s)[k..];
  }

  lemma HandOffOwned(c: Config, s: State, r: Req, end: Phase)
    requires Owned(Idle(s), s.held, s.nextConn) && r < |s.phase| == |c.reqs| && r in s.held
    requires Get(s, PoolOf(c, r)).waiters != []
    requires Get(s, PoolOf(c, r)).waiters[0] < |s.phase| && Get(s, PoolOf(c, r)).waiters[0] !in s.held
    ensures Owned(Idle(Release(c, s, r, end)), Release(c, s, r, end).held, Release(c, s, r, end).nextConn)
  {
    OwnedPass(Idle(s), s.held, s.nextConn, r, Get(s, PoolOf(c, r)).waiters[0]);
    assert Idle(Release(c, s, r, end)) == Idle(s);
  }

  /** Slots move between one pool's idle list and its holders; the other pool does not notice. */
  lemma CountedMoved(c: Config, s: State, t: State, p: PoolName, gone: set<Req>, come: set<Req>)
    requires Counted(c, s, p) && gone <= HeldFrom(c, s, p) && come <= From(c, p) && come !! s.held.Keys
    requires t.held.Keys == s.held.Keys - gone + come
    requires |Get(t, p).idle| + |come| == |Get(s, p).idle| + |gone|
    ensures Counted(c, t, p)
  {
    var before, after := HeldFrom(c, s, p), HeldFrom(c, t, p);
    assert after == (before - gone) + come;
    assert (before - gone) !! come;
  }

  lemma CountedOther(c: Config, s: State, t: State, p: PoolName, q: PoolName, gone: set<Req>, come: set<Req>)
    requires Counted(c, s, q) && p != q && gone <= From(c, p) && come <= From(c, p)
    requires t.held.Keys == s.held.Keys - gone + come && Get(t, q).idle == Get(s, q).idle
    ensures Counted(c, t, q)
  {
    assert From(c, p) !! From(c, q);
    assert HeldFrom(c, t, q) == HeldFrom(c, s, q);
  }

  lemma CountedBoth(c: Config, s: State, t: State, p: PoolName, gone: set<Req>, come: set<Req>)
    requires Counted(c, s, Root) && Counted(c, s, Scoped)
    requires gone <= HeldFrom(c, s, p) && come <= From(c, p) && come !! s.held.Keys
    requires t.held.Keys == s.held.Keys - gone + come
    requires |Get(t, p).idle| + |come| == |Get(s, p).idle| + |gone|
    requires Get(t, Other(p)).idle == Get(s, Other(p)).idle
    ensures Counted(c, t, Root) && Counted(c, t, Scoped)
  {
    CountedMoved(c, s, t, p, gone, come);
    CountedOther(c, s, t, p, Other(p), gone, come);
  }

  function Other(p: PoolName): PoolName {
    if p == Root then Scoped else Root
  }

  lemma TakeConserved(c: Config, s: State, r: Req)
    requires Conserved(c, s) && r < |s.phase| == |c.reqs| && r !in s.held && Get(s, PoolOf(c, r)).idle != []
    ensures Conserved(c, Take(c, s, r))
  {
    TakeOwned(c, s, r);
    TakeCounted(c, s, r);
  }

  lemma TakeCounted(c: Config, s: State, r: Req)
    requires Counted(c, s, Root) && Counted(c, s, Scoped)
    requires r < |s.phase| == |c.reqs| && r !in s.held && Get(s, PoolOf(c, r)).idle != []
    ensures Counted(c, Take(c, s, r), Root) && Counted(c, Take(c, s, r), Scoped)
  {
    var t := Take(c, s, r);
    var none: set<Req> := {};
    assert t.held.Keys == s.held.Keys - none + {r};
    assert r in From(c, PoolOf(c, r));
    CountedBoth(c, s, t, PoolOf(c, r), none, {r});
  }

  lemma FreeConserved(c: Config, s: State, r: Req, end: Phase)
    requires Conserved(c, s) && r < |s.phase| == |c.reqs| && r in s.held && Get(s, PoolOf(c, r)).waiters == []
    ensures Conserved(c, Release(c, s, r, end))
  {
    FreeOwned(c, s, r, end);
    CountedBoth(c, s, Release(c, s, r, end), PoolOf(c, r), {r}, {});
  }

  lemma HandOffConserved(c: Config, s: State, r: Req, end: Phase, w: Req)
    requires Conserved(c, s) && r < |s.phase| == |c.reqs| && r in s.held
    requires Get(s, PoolOf(c, r)).waiters != [] && w == Get(s, PoolOf(c, r)).waiters[0]
    requires w in From(c, PoolOf(c, r)) && w !in s.held
    ensures Conserved(c, Release(c, s, r, end))
  {
    HandOffOwned(c, s, r, end);
    CountedBoth(c, s, Release(c, s, r, end), PoolOf(c, r), {r}, {w});
  }

  lemma ReleaseConserved(c: Config, s: State, r: Req, end: Phase)
    requires Conserved(c, s) && Book(c, s) && Sane(c, s) && r < |s.phase| && Holding(s.phase[r])
    ensures Conserved(c, Release(c, s, r, end))
  {
    var pool := Get(s, PoolOf(c, r));
    if pool.waiters == [] {
      FreeConserved(c, s, r, end);
    } else {
      var w := pool.waiters[0];
      assert w in Elems(pool.waiters);
      assert w in Those(s.phase, IsWaiting);
      BookRow(c, s, w);
      HandOffConserved(c, s, r, end, w);
    }
  }

  lemma RebuildConserved(c: Config, s: State, r: Req)
    requires Conserved(c, s) && r in s.held
    ensures Conserved(c, Rebuild(s, r))
  {
    var t := Rebuild(s, r);
    assert t.held.Keys == s.held.Keys;
    assert Idle(t) == Idle(s);
  }

  /** Conservation looks only at the idle lists and at who holds what. */
  lemma SameConserved(c: Config, s: State, t: State)
    requires Conserved(c, s) && t.held == s.held && t.nextConn == s.nextConn
    requires t.root.idle == s.root.idle && t.scoped.idle == s.scoped.idle
    ensures Conserved(c, t)
  {
    assert Idle(t) == Idle(s);
  }

  // -------------------------------------------------------------- every step

  ghost predicate Migrations(c: Config, s: State) {
    OneMigration(c, s) && Distinct(s.queue) && Ledger(s)
  }

  /** Nobody starts a migration and the queue stands still. */
  lemma SameMigration(c: Config, s: State, t: State)
    requires Migrations(c, s)
    requires t.queue == s.queue && t.known == s.known && t.migrated == s.migrated && t.dropped == s.dropped
    requires |t.phase| == |s.phase| == |c.reqs|
    requires forall r: Req :: r < |s.phase| && t.phase[r] == Migrating ==> s.phase[r] == Migrating
    ensures Migrations(c, t)
  {
  }

  lemma ReleaseMigrations(c: Config, s: State, r: Req, end: Phase)
    requires Migrations(c, s) && Sane(c, s) && r < |s.phase| && Holding(s.phase[r]) && end in {Done, Failed}
    ensures Migrations(c, Release(c, s, r, end))
  {
    SameMigration(c, s, Release(c, s, r, end));
  }

  lemma AcquireMigrations(c: Config, s: State, r: Req)
    requires Migrations(c, s) && Sane(c, s) && Enabled(c, s, Acquire(r))
    ensures Migrations(c, Next(c, s, Acquire(r)))
  {
    SameMigration(c, s, Next(c, s, Acquire(r)));
  }

  lemma ReleasePools(c: Config, s: State, r: Req, end: Phase)
    requires Pools(s) && Sane(c, s) && r < |s.phase| && Holding(s.phase[r])
    ensures Pools(Release(c, s, r, end))
  {
    ReleaseKeepsInv(Get(s, PoolOf(c, r)), s.held[r]);
  }

  lemma ReleaseKeeps(c: Config, s: State, r: Req, end: Phase)
    requires Inv(c, s) && r < |s.phase| && Holding(s.phase[r]) && !IsInQueue(s.phase[r]) && end in {Done, Failed}
    ensures Sane(c, s) && Inv(c, Release(c, s, r, end))
  {
    BookIsSane(c, s);
    ReleaseBook(c, s, r, end);
    ReleaseConserved(c, s, r, end);
    ReleasePools(c, s, r, end);
    ReleaseMigrations(c, s, r, end);
  }

  lemma AcquirePools(c: Config, s: State, r: Req)
    requires Pools(s) && Sane(c, s) && Enabled(c, s, Acquire(r)) && r !in Get(s, PoolOf(c, r)).arrivals
    ensures Pools(Next(c, s, Acquire(r)))
  {
    AcquireKeepsInv(Get(s, PoolOf(c, r)), r);
  }

  lemma AcquireKeeps(c: Config, s: State, r: Req)
    requires Inv(c, s) && Sane(c, s) && Enabled(c, s, Acquire(r))
    ensures Inv(c, Next(c, s, Acquire(r)))
  {
    BookRow(c, s, r);
    AcquirePools(c, s, r);
    AcquireMigrations(c, s, r);
    if Get(s, PoolOf(c, r)).idle != [] {
      TakeBook(c, s, r);
      TakeConserved(c, s, r);
    } else {
      WaitBook(c, s, r);
      WaitConserved(c, s, r);
    }
  }

  lemma WaitConserved(c: Config, s: State, r: Req)
    requires Conserved(c, s) && r < |s.phase| == |c.reqs| && Get(s, PoolOf(c, r)).idle == []
    ensures Conserved(c, Wait(c, s, r))
  {
    SameConserved(c, s, Wait(c, s, r));
  }

  lemma GiveUpPools(c: Config, s: State, r: Req)
    requires Pools(s) && r < |s.phase| == |c.reqs| && r in Get(s, PoolOf(c, r)).waiters
    ensures Pools(GiveUp(c, s, r))
  {
    TimeOutKeepsInv(Get(s, PoolOf(c, r)), r);
  }

  lemma GiveUpMigrations(c: Config, s: State, r: Req)
    requires Migrations(c, s) && r < |s.phase| == |c.reqs|
    ensures Migrations(c, GiveUp(c, s, r))
  {
    SameMigration(c, s, GiveUp(c, s, r));
  }

  lemma GiveUpKeeps(c: Config, s: State, r: Req)
    requires Inv(c, s) && Sane(c, s) && Enabled(c, s, TimeOut(r))
    ensures Inv(c, Next(c, s, TimeOut(r)))
  {
    BookRow(c, s, r);
    GiveUpBook(c, s, r);
    GiveUpPools(c, s, r);
    GiveUpMigrations(c, s, r);
    GiveUpConserved(c, s, r);
  }

  lemma GiveUpConserved(c: Config, s: State, r: Req)
    requires Conserved(c, s) && r < |s.phase| == |c.reqs|
    ensures Conserved(c, GiveUp(c, s, r))
  {
    SameConserved(c, s, GiveUp(c, s, r));
  }

  /** A step that leaves both pools and every connection where they are. */
  lemma Quiet(c: Config, s: State, t: State)
    requires Pools(s) && Conserved(c, s)
    requires t.root == s.root && t.scoped == s.scoped && t.held == s.held && t.nextConn == s.nextConn
    ensures Pools(t) && Conserved(c, t)
  {
    SameConserved(c, s, t);
  }

  /** A holder moves on outside the queue. */
  lemma StayKeeps(c: Config, s: State, r: Req, ph: Phase)
    requires Inv(c, s) && r < |s.phase| && Holding(s.phase[r]) && !IsInQueue(s.phase[r]) && ph in {Entering, Running}
    ensures Inv(c, Moved(s, r, ph))
  {
    StayBook(c, s, r, ph);
    Quiet(c, s, Moved(s, r, ph));
    SameMigration(c, s, Moved(s, r, ph));
  }

  lemma RebuildKeeps(c: Config, s: State, r: Req)
    requires Inv(c, s) && r in s.held
    ensures Inv(c, Rebuild(s, r))
  {
    RebuildConserved(c, s, r);
    SameBook(c, s, Rebuild(s, r));
    SameMigration(c, s, Rebuild(s, r));
  }

  lemma SignInKeeps(c: Config, s: State, r: Req, rebuilt: bool)
    requires Inv(c, s) && Sane(c, s) && Enabled(c, s, SignIn(r, rebuilt))
    ensures Inv(c, Next(c, s, SignIn(r, rebuilt)))
  {
    if rebuilt {
      RebuildKeeps(c, s, r);
      StayKeeps(c, Rebuild(s, r), r, Entering);
    } else {
      StayKeeps(c, s, r, Entering);
    }
  }

  lemma ForgetKeeps(c: Config, s: State, db: string)
    requires Inv(c, s)
    ensures Inv(c, Forget(s, db))
  {
    SameBook(c, s, Forget(s, db));
    Quiet(c, s, Forget(s, db));
    ForgetMigrations(c, s, db);
  }

  lemma ForgetMigrations(c: Config, s: State, db: string)
    requires Migrations(c, s)
    ensures Migrations(c, Forget(s, db))
  {
  }

  lemma EnqueueMigrations(c: Config, s: State, r: Req)
    requires Migrations(c, s) && r < |s.phase| && r !in s.queue
    ensures Migrations(c, Enqueue(s, r))
  {
  }

  lemma EnterKeeps(c: Config, s: State, r: Req)
    requires Inv(c, s) && Sane(c, s) && Enabled(c, s, Enter(r))
    ensures Inv(c, Next(c, s, Enter(r)))
  {
    if c.reqs[r].kind == DropDatabase {
      ForgetKeeps(c, s, c.reqs[r].db);
      ReleaseKeeps(c, Forget(s, c.reqs[r].db), r, Done);
    } else if c.reqs[r].db in s.known {
      StayKeeps(c, s, r, Running);
    } else {
      BookRow(c, s, r);
      EnqueueBook(c, s, r);
      Quiet(c, s, Enqueue(s, r));
      EnqueueMigrations(c, s, r);
    }
  }

  /** Once the head has left, nobody is migrating. */
  lemma DequeueMigrations(c: Config, s: State)
    requires OneMigration(c, s) && Distinct(s.queue) && s.queue != [] && s.queue[0] < |s.phase| == |c.reqs|
    ensures Distinct(Dequeue(s).queue) && forall ph :: ph in Dequeue(s).phase ==> ph != Migrating
  {
    var t := Dequeue(s);
    forall r: Req | r < |t.phase| ensures t.phase[r] != Migrating {
      assert r != s.queue[0] ==> t.phase[r] == s.phase[r];
    }
  }

  /** The head job ends without having applied anything. */
  lemma DequeueKeeps(c: Config, s: State)
    requires Inv(c, s) && s.queue != []
    ensures s.queue[0] < |s.phase| && Inv(c, Dequeue(s))
  {
    DequeueBook(c, s);
    Quiet(c, s, Dequeue(s));
    DequeueMigrations(c, s);
    assert Ledger(Dequeue(s));
    NoneMigrating(c, Dequeue(s));
  }

  lemma NoneMigrating(c: Config, s: State)
    requires forall ph :: ph in s.phase ==> ph != Migrating
    ensures OneMigration(c, s)
  {
    forall r: Req | r < |s.phase| ensures s.phase[r] != Migrating {
      assert s.phase[r] in s.phase;
    }
  }

  lemma StartMigrations(c: Config, s: State)
    requires Migrations(c, s) && s.queue != [] && s.queue[0] < |s.phase| == |c.reqs|
    requires s.phase[s.queue[0]] == Queued && c.reqs[s.queue[0]].db !in s.known
    ensures Migrations(c, Moved(s, s.queue[0], Migrating))
  {
  }

  lemma JobTurnKeeps(c: Config, s: State)
    requires Inv(c, s) && Sane(c, s) && Enabled(c, s, JobTurn)
    ensures Inv(c, Next(c, s, JobTurn))
  {
    var head := s.queue[0];
    if c.reqs[head].db in s.known {
      DequeueKeeps(c, s);
    } else {
      StayBook(c, s, head, Migrating);
      Quiet(c, s, Moved(s, head, Migrating));
      StartMigrations(c, s);
    }
  }

  lemma LearnLedger(s: State, t: State, db: string)
    requires Ledger(s) && db !in s.known
    requires t.known == s.known + {db} && t.migrated == s.migrated + [db] && t.dropped == s.dropped
    ensures Ledger(t)
  {
  }

  /** A job that applied its migration: the database becomes known and the owner leaves the queue. */
  lemma AppliedKeeps(c: Config, s: State)
    requires Inv(c, s) && Enabled(c, s, JobSettles(Applied))
    ensures Inv(c, Dequeue(Learn(s, c.reqs[s.queue[0]].db)))
  {
    var db := c.reqs[s.queue[0]].db;
    var t, u := Dequeue(s), Dequeue(Learn(s, db));
    DequeueBook(c, s);
    SameBook(c, t, u);
    Quiet(c, s, u);
    LearnLedger(s, u, db);
    DequeueMigrations(c, s);
    NoneMigrating(c, u);
  }

  lemma FailKeeps(c: Config, s: State, r: Req)
    requires Inv(c, s) && r < |s.phase| && s.phase[r] == Running
    ensures Sane(c, s) && Inv(c, Release(c, s, r, Failed))
  {
    ReleaseKeeps(c, s, r, Failed);
  }

  lemma JobSettlesKeeps(c: Config, s: State, how: Settling)
    requires Inv(c, s) && Sane(c, s) && Enabled(c, s, JobSettles(how))
    ensures Inv(c, Next(c, s, JobSettles(how)))
  {
    var owner := s.queue[0];
    match how
    case Applied =>
      AppliedKeeps(c, s);
    case AppliedThenFailed =>
      AppliedKeeps(c, s);
      FailKeeps(c, Dequeue(Learn(s, c.reqs[owner].db)), owner);
    case Aborted =>
      DequeueKeeps(c, s);
      FailKeeps(c, Dequeue(s), owner);
  }

  lemma StepKeepsInv(c: Config, s: State, step: Step)
    requires Inv(c, s) && Enabled(c, s, step)
    ensures Sane(c, s) && Inv(c, Next(c, s, step))
  {
    BookIsSane(c, s);
    match step
    case Acquire(r) => AcquireKeeps(c, s, r);
    case TimeOut(r) => GiveUpKeeps(c, s, r);
    case SignIn(r, rebuilt) => SignInKeeps(c, s, r, rebuilt);
    case Enter(r) => EnterKeeps(c, s, r);
    case JobTurn => JobTurnKeeps(c, s);
    case JobSettles(how) => JobSettlesKeeps(c, s, how);
    case Finish(r) => ReleaseKeeps(c, s, r, Done);
    case Break(r) => ReleaseKeeps(c, s, r, Failed);
  }
}
