/** Tenant-scoped requests over the two pools, the serialized schema queue and the dedicated migrator connection. */
module PoolProtocol {
  import opened Common
  import opened ConnectionPool

  datatype PoolName = Root | Scoped
  datatype Kind = Company | ScopedCompany | DropDatabase
  datatype Request = Request(kind: Kind, db: string)
  datatype Config = Config(reqs: seq<Request>, rootSize: nat, scopedSize: nat)

  /** Where a request stands. From Signing to Running it holds one pooled connection. */
  datatype Phase = Fresh | Waiting | Signing | Entering | Queued | Migrating | Running | Done | Failed

  /** `queue` is the promise chain: requests whose schema job has not settled. `migrated` and `dropped` are history. */
  datatype State = State(root: Pool, scoped: Pool, phase: seq<Phase>, held: map<Req, Conn>, queue: seq<Req>,
                         known: set<string>, nextConn: Conn, migrated: seq<string>, dropped: seq<string>)

  /** How a migration ends; the password sync after knownDatabases.add can still throw. */
  datatype Settling = Applied | AppliedThenFailed | Aborted

  datatype Step =
    | Acquire(r: Req)
    | TimeOut(r: Req)
    | SignIn(r: Req, rebuilt: bool)
    | Enter(r: Req)
    | JobTurn
    | JobSettles(how: Settling)
    | Finish(r: Req)
    | Break(r: Req)

  predicate Holding(ph: Phase) {
    ph == Signing || ph == Entering || ph == Queued || ph == Migrating || ph == Running
  }

  function PoolOf(c: Config, r: Req): PoolName
    requires r < |c.reqs|
  {
    if c.reqs[r].kind == ScopedCompany then Scoped else Root
  }

  /** Only withCompany tests the session of the connection it was given. */
  function FirstPhase(c: Config, r: Req): Phase
    requires r < |c.reqs|
  {
    if c.reqs[r].kind == Company then Signing else Entering
  }

  function Get(s: State, p: PoolName): Pool {
    if p == Root then s.root else s.scoped
  }

  function Put(s: State, p: PoolName, pool: Pool): State {
    if p == Root then s.(root := pool) else s.(scoped := pool)
  }

  function Size(c: Config, p: PoolName): nat {
    if p == Root then c.rootSize else c.scopedSize
  }

  function Init(c: Config): State {
    State(Pool(seq(c.rootSize, i => i), [], [], [], {}),
          Pool(seq(c.scopedSize, i => c.rootSize + i), [], [], [], {}),
          seq(|c.reqs|, i => Fresh), map[], [], {}, c.rootSize + c.scopedSize, [], [])
  }

  // ------------------------------------------------------------ invariant

  /** The requests whose phase satisfies `q`. */
  function Those(phase: seq<Phase>, q: Phase -> bool): set<Req> {
    set r: Req | r < |phase| && q(phase[r])
  }

  function From(c: Config, p: PoolName): set<Req> {
    set r: Req | r < |c.reqs| && PoolOf(c, r) == p
  }

  predicate IsFresh(ph: Phase) { ph == Fresh }
  predicate IsWaiting(ph: Phase) { ph == Waiting }
  predicate IsInQueue(ph: Phase) { ph == Queued || ph == Migrating }

  /** The lists and the phases tell the same story about every request. */
  ghost predicate Book(c: Config, s: State) {
    && |s.phase| == |c.reqs|
    && (forall p :: Elems(Get(s, p).waiters) == Those(s.phase, IsWaiting) * From(c, p))
    && (forall p :: Elems(Get(s, p).arrivals) !! Those(s.phase, IsFresh))
    && Elems(s.queue) == Those(s.phase, IsInQueue)
    && s.held.Keys == Those(s.phase, Holding)
  }

  /** Only the head of the queue migrates, and never a database already known. */
  ghost predicate OneMigration(c: Config, s: State) {
    forall r: Req :: r < |s.phase| && r < |c.reqs| && s.phase[r] == Migrating ==>
      s.queue != [] && s.queue[0] == r && c.reqs[r].db !in s.known
  }

  ghost predicate Pools(s: State) {
    PoolInv(s.root) && PoolInv(s.scoped)
  }

  ghost predicate Control(c: Config, s: State) {
    Book(c, s) && OneMigration(c, s) && Distinct(s.queue) && Pools(s)
  }

  function HeldFrom(c: Config, s: State, p: PoolName): set<Req> {
    s.held.Keys * From(c, p)
  }

  function Idle(s: State): seq<Conn> {
    s.root.idle + s.scoped.idle
  }

  /** Every connection is idle once or held once. */
  ghost predicate Owned(idle: seq<Conn>, held: map<Req, Conn>, bound: Conn) {
    && Distinct(idle)
    && (forall i :: 0 <= i < |idle| ==> idle[i] < bound)
    && (forall r :: r in held ==> held[r] !in idle && held[r] < bound)
    && (forall q, r :: q in held && r in held && q != r ==> held[q] != held[r])
  }

  /** The pool still has all its slots. */
  ghost predicate Counted(c: Config, s: State, p: PoolName) {
    |Get(s, p).idle| + |HeldFrom(c, s, p)| == Size(c, p)
  }

  ghost predicate Conserved(c: Config, s: State) {
    Counted(c, s, Root) && Counted(c, s, Scoped) && Owned(Idle(s), s.held, s.nextConn)
  }

  /** A database is migrated again only after it was dropped. */
  ghost predicate Ledger(s: State) {
    forall db: string :: multiset(s.migrated)[db] <= multiset(s.dropped)[db] + (if db in s.known then 1 else 0)
  }

  ghost predicate Inv(c: Config, s: State) {
    Control(c, s) && Conserved(c, s) && Ledger(s)
  }

  // ---------------------------------------------------------------- steps

  predicate Enabled(c: Config, s: State, step: Step)
    requires |s.phase| == |c.reqs|
  {
    match step
    case Acquire(r) => r < |s.phase| && s.phase[r] == Fresh
    case TimeOut(r) => r < |s.phase| && s.phase[r] == Waiting
    case SignIn(r, _) => r < |s.phase| && s.phase[r] == Signing
    case Enter(r) => r < |s.phase| && s.phase[r] == Entering
    case JobTurn => s.queue != [] && s.queue[0] < |s.phase| && s.phase[s.queue[0]] == Queued
    case JobSettles(_) => s.queue != [] && s.queue[0] < |s.phase| && s.phase[s.queue[0]] == Migrating
    case Finish(r) => r < |s.phase| && s.phase[r] == Running
    case Break(r) => r < |s.phase| && s.phase[r] in {Signing, Entering, Running}
  }

  function Moved(s: State, r: Req, ph: Phase): State
    requires r < |s.phase|
  {
    s.(phase := s.phase[r := ph])
  }

  function Take(c: Config, s: State, r: Req): State
    requires r < |s.phase| == |c.reqs| && Get(s, PoolOf(c, r)).idle != []
  {
    var pool := Get(s, PoolOf(c, r));
    Moved(Put(s, PoolOf(c, r), Acquired(pool, r)), r, FirstPhase(c, r)).(held := s.held[r := pool.idle[0]])
  }

  function Wait(c: Config, s: State, r: Req): State
    requires r < |s.phase| == |c.reqs|
  {
    Moved(Put(s, PoolOf(c, r), Acquired(Get(s, PoolOf(c, r)), r)), r, Waiting)
  }

  function GiveUp(c: Config, s: State, r: Req): State
    requires r < |s.phase| == |c.reqs|
  {
    Moved(Put(s, PoolOf(c, r), TimedOut(Get(s, PoolOf(c, r)), r)), r, Failed)
  }

  /** ensureRootSession replaces a dead connection by a new one in the same slot. */
  function Rebuild(s: State, r: Req): State {
    s.(held := s.held[r := s.nextConn], nextConn := s.nextConn + 1)
  }

  /** The finally block: the connection goes to the first waiter, or back to idle. */
  function Release(c: Config, s: State, r: Req, end: Phase): State
    requires r < |s.phase| == |c.reqs| && r in s.held
    requires Get(s, PoolOf(c, r)).waiters != [] ==> Get(s, PoolOf(c, r)).waiters[0] < |s.phase|
  {
    var p := PoolOf(c, r);
    var pool := Get(s, p);
    var freed := Moved(Put(s, p, Released(pool, s.held[r])), r, end).(held := s.held - {r});
    if pool.waiters == [] then freed
    else
      var w := pool.waiters[0];
      Moved(freed, w, FirstPhase(c, w)).(held := freed.held[w := s.held[r]])
  }

  function Enqueue(s: State, r: Req): State
    requires r < |s.phase|
  {
    Moved(s, r, Queued).(queue := s.queue + [r])
  }

  /** The head job is over and its owner goes on to its callback. */
  function Dequeue(s: State): State
    requires s.queue != [] && s.queue[0] < |s.phase|
  {
    Moved(s, s.queue[0], Running).(queue := s.queue[1..])
  }

  function Learn(s: State, db: string): State {
    s.(known := s.known + {db}, migrated := s.migrated + [db])
  }

  function Forget(s: State, db: string): State {
    s.(known := s.known - {db}, dropped := s.dropped + [db])
  }

  /** What Next needs to be well defined. */
  ghost predicate Sane(c: Config, s: State) {
    && |s.phase| == |c.reqs|
    && (s.root.waiters != [] ==> s.root.waiters[0] < |s.phase|)
    && (s.scoped.waiters != [] ==> s.scoped.waiters[0] < |s.phase|)
    && (forall r: Req :: r < |s.phase| && Holding(s.phase[r]) ==> r in s.held)
  }

  lemma BookIsSane(c: Config, s: State)
    requires Book(c, s)
    ensures Sane(c, s)
  {
    assert s.root.waiters != [] ==> s.root.waiters[0] in Elems(Get(s, Root).waiters);
    assert s.scoped.waiters != [] ==> s.scoped.waiters[0] in Elems(Get(s, Scoped).waiters);
    forall r: Req | r < |s.phase| && Holding(s.phase[r]) ensures r in s.held {
      assert r in Those(s.phase, Holding);
    }
  }

  ghost function Next(c: Config, s: State, step: Step): State
    requires Sane(c, s) && Enabled(c, s, step)
  {
    match step
    case Acquire(r) => if Get(s, PoolOf(c, r)).idle != [] then Take(c, s, r) else Wait(c, s, r)
    case TimeOut(r) => GiveUp(c, s, r)
    case SignIn(r, rebuilt) => Moved(if rebuilt then Rebuild(s, r) else s, r, Entering)
    case Enter(r) =>
      var db := c.reqs[r].db;
      if c.reqs[r].kind == DropDatabase then Release(c, Forget(s, db), r, Done)
      else if db in s.known then Moved(s, r, Running)
      else Enqueue(s, r)
    case JobTurn =>
      if c.reqs[s.queue[0]].db in s.known then Dequeue(s) else Moved(s, s.queue[0], Migrating)
    case JobSettles(how) =>
      var owner := s.queue[0];
      (match how
       case Applied => Dequeue(Learn(s, c.reqs[owner].db))
       case AppliedThenFailed => Release(c, Dequeue(Learn(s, c.reqs[owner].db)), owner, Failed)
       case Aborted => Release(c, Dequeue(s), owner, Failed))
    case Finish(r) => Release(c, s, r, Done)
    case Break(r) => Release(c, s, r, Failed)
  }
}
