/** Why the migrator has its own connection. */
module PoolJam {
  import opened ConnectionPool
  import opened PoolProtocol
  import opened PoolLiveness

  /** The rule without a dedicated connection: a migration would first take an idle one from the root pool. */
  predicate EnabledIfShared(c: Config, s: State, step: Step)
    requires |s.phase| == |c.reqs|
  {
    && Enabled(c, s, step)
    && (step == JobTurn && s.queue[0] < |c.reqs| && c.reqs[s.queue[0]].db !in s.known ==> s.root.idle != [])
  }

  /** As many requests for one fresh tenant as there are connections. */
  function FanOut(n: nat, db: string): Config {
    Config(seq(n, i => Request(Company, db)), n, 0)
  }

  function FirstHeld(k: nat): map<Req, Conn> {
    if k == 0 then map[] else FirstHeld(k - 1)[k - 1 := k - 1]
  }

  lemma {:induction false} FirstHeldKeys(k: nat)
    ensures forall r: Req :: r in FirstHeld(k) <==> r < k
  {
    if k > 0 {
      FirstHeldKeys(k - 1);
    }
  }

  /** The first k requests hold a connection and await the migration. */
  function Jam(n: nat, db: string, k: nat): State
    requires k <= n
  {
    Init(FanOut(n, db)).(
      root := Pool(seq(n - k, i => k + i), [], [], [], {}),
      phase := seq(n, i => if i < k then Queued else Fresh),
      held := FirstHeld(k),
      queue := seq(k, i => i))
  }

  /** Request k has its connection but has not asked for the schema yet. */
  function HalfJam(n: nat, db: string, k: nat, ph: Phase): State
    requires k < n
  {
    Jam(n, db, k + 1).(phase := Jam(n, db, k).phase[k := ph], queue := Jam(n, db, k).queue)
  }

  lemma JamSane(n: nat, db: string, s: State)
    requires |s.phase| == n && s.root.waiters == [] && s.scoped.waiters == []
    requires forall r: Req :: r < |s.phase| && Holding(s.phase[r]) ==> r in s.held
    ensures Sane(FanOut(n, db), s)
  {
  }

  lemma JamAcquire(n: nat, db: string, k: nat)
    requires k < n
    ensures Sane(FanOut(n, db), Jam(n, db, k)) && Enabled(FanOut(n, db), Jam(n, db, k), Acquire(k))
    ensures Next(FanOut(n, db), Jam(n, db, k), Acquire(k)) == HalfJam(n, db, k, Signing)
  {
    FirstHeldKeys(k);
    var s := Jam(n, db, k);
    JamSane(n, db, s);
    assert s.root.idle[0] == k;
    assert s.root.idle[1..] == Jam(n, db, k + 1).root.idle;
  }

  lemma JamSignIn(n: nat, db: string, k: nat)
    requires k < n
    ensures Sane(FanOut(n, db), HalfJam(n, db, k, Signing)) && Enabled(FanOut(n, db), HalfJam(n, db, k, Signing), SignIn(k, false))
    ensures Next(FanOut(n, db), HalfJam(n, db, k, Signing), SignIn(k, false)) == HalfJam(n, db, k, Entering)
  {
    FirstHeldKeys(k + 1);
    JamSane(n, db, HalfJam(n, db, k, Signing));
  }

  lemma JamEnter(n: nat, db: string, k: nat)
    requires k < n
    ensures Sane(FanOut(n, db), HalfJam(n, db, k, Entering)) && Enabled(FanOut(n, db), HalfJam(n, db, k, Entering), Enter(k))
    ensures Next(FanOut(n, db), HalfJam(n, db, k, Entering), Enter(k)) == Jam(n, db, k + 1)
  {
    FirstHeldKeys(k + 1);
    JamSane(n, db, HalfJam(n, db, k, Entering));
    assert Jam(n, db, k).phase[k := Entering][k := Queued] == Jam(n, db, k + 1).phase;
    assert Jam(n, db, k).queue + [k] == Jam(n, db, k + 1).queue;
  }

  lemma {:induction false} JamRun(n: nat, db: string, k: nat) returns (steps: seq<Step>)
    requires k <= n
    ensures ValidRun(FanOut(n, db), Jam(n, db, k), steps)
    ensures Run(FanOut(n, db), Jam(n, db, k), steps) == Jam(n, db, n)
    ensures forall step :: step in steps ==> step != JobTurn
    decreases n - k
  {
    if k == n {
      steps := [];
    } else {
      var rest := JamRun(n, db, k + 1);
      var c := FanOut(n, db);
      JamEnter(n, db, k);
      Prepend(c, HalfJam(n, db, k, Entering), Enter(k), rest);
      JamSignIn(n, db, k);
      Prepend(c, HalfJam(n, db, k, Signing), SignIn(k, false), [Enter(k)] + rest);
      JamAcquire(n, db, k);
      Prepend(c, Jam(n, db, k), Acquire(k), [SignIn(k, false)] + ([Enter(k)] + rest));
      steps := [Acquire(k)] + ([SignIn(k, false)] + ([Enter(k)] + rest));
    }
  }

  lemma Prepend(c: Config, s: State, step: Step, rest: seq<Step>)
    requires Sane(c, s) && Enabled(c, s, step) && ValidRun(c, Next(c, s, step), rest)
    ensures ValidRun(c, s, [step] + rest)
    ensures Run(c, s, [step] + rest) == Run(c, Next(c, s, step), rest)
  {
    assert ([step] + rest)[1..] == rest;
  }

  /** For every pool size, the shared design reaches a state with all requests unfinished and no step at all,
      while the dedicated connection still has its next job to run there. */
  lemma SharedMigratorDeadlocks(n: nat, db: string) returns (steps: seq<Step>)
    requires n >= 1
    ensures
      var c := FanOut(n, db);
      && ValidRun(c, Init(c), steps) && JobTurn !in steps
      && var s := Run(c, Init(c), steps);
      && |s.phase| == |c.reqs|
      && (forall r: Req :: r < n ==> !Finished(s.phase[r]))
      && (forall step: Step :: !EnabledIfShared(c, s, step))
      && Enabled(c, s, JobTurn)
  {
    var c := FanOut(n, db);
    var start := Jam(n, db, 0);
    assert start.root.idle == Init(c).root.idle && start.phase == Init(c).phase;
    assert start.held == Init(c).held && start.queue == Init(c).queue;
    assert start == Init(c);
    steps := JamRun(n, db, 0);
    var s := Jam(n, db, n);
    assert s.root.idle == [];
    assert forall r: Req :: r < n ==> s.phase[r] == Queued;
  }
}
