/** mapWithLimit: workers that share one cursor, in every interleaving. */
module ParallelMap {
  import opened Common

  datatype Worker = Ready | Busy(item: nat) | Stopped

  /** `claims` records the indices handed out, in order. */
  datatype State<R> = State(cursor: nat, workers: seq<Worker>, out: seq<Option<R>>, claims: seq<nat>)

  datatype Step = Claim(w: nat) | Settle(w: nat)

  function Cap(concurrency: int, n: nat): nat {
    Max(1, Min(concurrency, if n == 0 then 1 else n))
  }

  function Init<R>(n: nat, concurrency: int): State<R> {
    State(0, seq(Cap(concurrency, n), i => Ready), seq(n, i => None), [])
  }

  predicate Enabled<R>(s: State<R>, step: Step) {
    && step.w < |s.workers|
    && (if step.Claim? then s.workers[step.w] == Ready else s.workers[step.w].Busy?)
  }

  /** `outcome(i)` is what calling fn on item i yields: a value, or None when it throws. */
  function Next<R>(s: State<R>, step: Step, outcome: nat -> Option<R>): State<R>
    requires Enabled(s, step)
  {
    match step
    case Claim(w) =>
      var i := s.cursor;
      if i >= |s.out| then s.(cursor := i + 1, workers := s.workers[w := Stopped])
      else s.(cursor := i + 1, workers := s.workers[w := Busy(i)], claims := s.claims + [i])
    case Settle(w) =>
      var i := s.workers[w].item;
      s.(workers := s.workers[w := Ready], out := if i < |s.out| then s.out[i := outcome(i)] else s.out)
  }

  ghost predicate ValidRun<R>(s: State<R>, steps: seq<Step>, outcome: nat -> Option<R>)
    decreases |steps|
  {
    steps == [] || (Enabled(s, steps[0]) && ValidRun(Next(s, steps[0], outcome), steps[1..], outcome))
  }

  ghost function Run<R>(s: State<R>, steps: seq<Step>, outcome: nat -> Option<R>): State<R>
    requires ValidRun(s, steps, outcome)
    decreases |steps|
  {
    if steps == [] then s else Run(Next(s, steps[0], outcome), steps[1..], outcome)
  }

  ghost predicate InFlight(workers: seq<Worker>, i: nat) {
    exists w :: 0 <= w < |workers| && workers[w] == Busy(i)
  }

  /** Indices are claimed in order, once each; a claimed slot is in flight or final; an unclaimed one is untouched. */
  ghost predicate Inv<R>(s: State<R>, n: nat, cap: nat, outcome: nat -> Option<R>) {
    && |s.workers| == cap && |s.out| == n
    && s.claims == seq(Min(s.cursor, n), i => i)
    && (forall w :: 0 <= w < cap && s.workers[w].Busy? ==> s.workers[w].item < Min(s.cursor, n))
    && (forall v, w :: 0 <= v < w < cap && s.workers[v].Busy? ==> s.workers[v] != s.workers[w])
    && (forall w :: 0 <= w < cap && s.workers[w] == Stopped ==> s.cursor >= n)
    && (forall i: nat :: i < n ==>
          if i < s.cursor then s.out[i] == outcome(i) || InFlight(s.workers, i) else s.out[i] == None)
  }

  lemma StillInFlight(workers: seq<Worker>, w: nat, x: Worker, i: nat)
    requires w < |workers| && InFlight(workers, i) && workers[w] != Busy(i)
    ensures InFlight(workers[w := x], i)
  {
    var v :| 0 <= v < |workers| && workers[v] == Busy(i);
    assert workers[w := x][v] == Busy(i);
  }

  lemma ClaimKeeps<R>(s: State<R>, w: nat, n: nat, cap: nat, outcome: nat -> Option<R>)
    requires Inv(s, n, cap, outcome) && Enabled(s, Claim(w))
    ensures Inv(Next(s, Claim(w), outcome), n, cap, outcome)
  {
    var t := Next(s, Claim(w), outcome);
    assert t.workers[w] == if s.cursor >= n then Stopped else Busy(s.cursor);
    forall i: nat | i < n
      ensures if i < t.cursor then t.out[i] == outcome(i) || InFlight(t.workers, i) else t.out[i] == None
    {
      if i < s.cursor && InFlight(s.workers, i) {
        StillInFlight(s.workers, w, t.workers[w], i);
      } else if i == s.cursor {
        assert InFlight(t.workers, i);
      }
    }
  }

  lemma SettleKeeps<R>(s: State<R>, w: nat, n: nat, cap: nat, outcome: nat -> Option<R>)
    requires Inv(s, n, cap, outcome) && Enabled(s, Settle(w))
    ensures Inv(Next(s, Settle(w), outcome), n, cap, outcome)
  {
    var t, k := Next(s, Settle(w), outcome), s.workers[w].item;
    forall i: nat | i < n
      ensures if i < t.cursor then t.out[i] == outcome(i) || InFlight(t.workers, i) else t.out[i] == None
    {
      if i != k && i < s.cursor && InFlight(s.workers, i) {
        StillInFlight(s.workers, w, Ready, i);
      }
    }
  }

  lemma StepKeeps<R>(s: State<R>, step: Step, n: nat, cap: nat, outcome: nat -> Option<R>)
    requires Inv(s, n, cap, outcome) && Enabled(s, step)
    ensures Inv(Next(s, step, outcome), n, cap, outcome)
  {
    match step
    case Claim(w) => ClaimKeeps(s, w, n, cap, outcome);
    case Settle(w) => SettleKeeps(s, w, n, cap, outcome);
  }

  function Rank(w: Worker): nat {
    match w case Ready => 1 case Busy(_) => 2 case Stopped => 0
  }

  function Total(workers: seq<Worker>): nat {
    if workers == [] then 0 else Total(workers[..|workers|-1]) + Rank(workers[|workers|-1])
  }

  lemma {:induction false} TotalMoved(workers: seq<Worker>, w: nat, x: Worker)
    requires w < |workers|
    ensures Total(workers[w := x]) == Total(workers) - Rank(workers[w]) + Rank(x)
  {
    var n := |workers| - 1;
    if w == n {
      assert workers[w := x][..n] == workers[..n];
    } else {
      TotalMoved(workers[..n], w, x);
      assert workers[w := x][..n] == workers[..n][w := x];
    }
  }

  function Work<R>(s: State<R>): nat {
    2 * Max(0, |s.out| - s.cursor) + Total(s.workers)
  }

  lemma StepDescends<R>(s: State<R>, step: Step, outcome: nat -> Option<R>)
    requires Enabled(s, step)
    ensures Work(Next(s, step, outcome)) < Work(s)
  {
    TotalMoved(s.workers, step.w, Next(s, step, outcome).workers[step.w]);
  }

  lemma {:induction false} RunKeeps<R>(s: State<R>, steps: seq<Step>, n: nat, cap: nat, outcome: nat -> Option<R>)
    requires Inv(s, n, cap, outcome) && ValidRun(s, steps, outcome)
    ensures Inv(Run(s, steps, outcome), n, cap, outcome)
    ensures |steps| + Work(Run(s, steps, outcome)) <= Work(s)
    decreases |steps|
  {
    if steps != [] {
      StepKeeps(s, steps[0], n, cap, outcome);
      StepDescends(s, steps[0], outcome);
      RunKeeps(Next(s, steps[0], outcome), steps[1..], n, cap, outcome);
    }
  }

  lemma {:induction false} ReadyTotal(k: nat)
    ensures Total(seq(k, i => Ready)) == k
  {
    if k > 0 {
      ReadyTotal(k - 1);
      assert seq(k, i => Ready)[..k-1] == seq(k - 1, i => Ready);
    }
  }

  /** Every interleaving: indices are claimed 0, 1, 2, ... without repetition, no more calls are in flight than there
      are workers, no two on the same item, and the run has at most 2n + cap steps. */
  lemma Interleavings<R>(n: nat, concurrency: int, steps: seq<Step>, outcome: nat -> Option<R>)
    requires ValidRun(Init<R>(n, concurrency), steps, outcome)
    ensures
      var s := Run(Init<R>(n, concurrency), steps, outcome);
      && Inv(s, n, Cap(concurrency, n), outcome)
      && |steps| <= 2 * n + Cap(concurrency, n)
  {
    RunKeeps(Init<R>(n, concurrency), steps, n, Cap(concurrency, n), outcome);
    ReadyTotal(Cap(concurrency, n));
  }

  /** When no worker can move, the result is the sequential map: slot i holds the outcome of item i, null where the
      call threw. */
  /** How many items are being worked on. */
  function BusyCount(workers: seq<Worker>): nat {
    if workers == [] then 0
    else BusyCount(workers[..|workers|-1]) + if workers[|workers|-1].Busy? then 1 else 0
  }

  lemma {:induction false} BusyAtMost(workers: seq<Worker>)
    ensures BusyCount(workers) <= |workers|
  {
    if workers != [] {
      BusyAtMost(workers[..|workers|-1]);
    }
  }

  /** At no time are more calls in flight than the concurrency asked for, or one if less than one was asked for, nor
      more than there are items; and as many workers as that start. */
  lemma InFlightBound<R>(n: nat, concurrency: int, steps: seq<Step>, outcome: nat -> Option<R>)
    requires ValidRun(Init<R>(n, concurrency), steps, outcome)
    ensures
      var workers := Run(Init<R>(n, concurrency), steps, outcome).workers;
      && (concurrency >= 1 ==> BusyCount(workers) <= concurrency)
      && (concurrency < 1 ==> BusyCount(workers) <= 1)
      && (n > 0 ==> BusyCount(workers) <= n)
      && (1 <= concurrency <= n ==> |workers| == concurrency)
      && (1 <= n <= concurrency ==> |workers| == n)
  {
    Interleavings(n, concurrency, steps, outcome);
    BusyAtMost(Run(Init<R>(n, concurrency), steps, outcome).workers);
  }

  lemma EqualsSequentialMap<R>(n: nat, concurrency: int, steps: seq<Step>, outcome: nat -> Option<R>)
    requires ValidRun(Init<R>(n, concurrency), steps, outcome)
    requires forall step: Step :: !Enabled(Run(Init<R>(n, concurrency), steps, outcome), step)
    ensures Run(Init<R>(n, concurrency), steps, outcome).out == seq(n, i requires 0 <= i => outcome(i))
    ensures Run(Init<R>(n, concurrency), steps, outcome).claims == seq(n, i => i)
  {
    Interleavings(n, concurrency, steps, outcome);
    var s := Run(Init<R>(n, concurrency), steps, outcome);
    forall w: nat | w < |s.workers| ensures s.workers[w] == Stopped {
      assert !Enabled(s, Claim(w)) && !Enabled(s, Settle(w));
    }
    assert s.workers[0] == Stopped;
  }
}
