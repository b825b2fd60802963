/** Whole runs of the fact store: what every step keeps, when retractions are final, and which writes move past reads. */
module Lifecycle {
  import opened Common
  import opened FactModel

  datatype Step =
    | Insert(id: FactId, fact: Fact)
    | Contest(ids: set<FactId>)
    | Displace(loser: FactId, winner: FactId)
    | Supersede(loser: FactId, winner: FactId)
    | Retract(root: FactId, actor: string, reason: string, now: Instant)
    | Compact(ids: set<FactId>)

  predicate Unlinked(f: Fact) {
    && f.retractedAt.None? && f.retractedBy.None? && f.retractionReason.None?
    && f.supersededBy.None? && f.priorValidUntil.None?
  }

  /**
   * When the code takes the step. The ingest function selects and writes in one query. The dreams resolver and the
   * compactor write to facts they selected earlier, whatever has become of them since, as long as the rows exist.
   */
  predicate Enabled(rows: Rows, step: Step) {
    match step
    case Insert(id, fact) => id !in rows && fact.status in {Active, Competing} && Unlinked(fact)
    case Contest(ids) => forall id :: id in ids ==> id in rows && rows[id].status == Active
    case Displace(l, w) => l in rows && w in rows && l != w && rows[l].status == Active
    case Supersede(l, w) => l in rows && w in rows && l != w
    case Retract(root, _, _, _) => root in rows && rows[root].retractedAt.None?
    case Compact(ids) => ids <= rows.Keys
  }

  ghost function Apply(rows: Rows, step: Step): Rows
    requires Enabled(rows, step)
  {
    match step
    case Insert(id, fact) => rows[id := fact]
    case Contest(ids) => map id | id in rows :: if id in ids then rows[id].(status := Competing) else rows[id]
    case Displace(l, w) => rows[l := DisplacePatch(rows[l], w, rows[w])]
    case Supersede(l, w) => rows[l := SupersedePatch(rows[l], w, rows[w])]
    case Retract(root, actor, reason, now) => RetractRows(rows, root, actor, reason, now)
    case Compact(ids) => map id | id in rows :: if id in ids then CompactPatch(rows[id]) else rows[id]
  }

  ghost predicate ValidRun(rows: Rows, steps: seq<Step>)
    decreases |steps|
  {
    steps == [] || (Enabled(rows, steps[0]) && ValidRun(Apply(rows, steps[0]), steps[1..]))
  }

  ghost function Run(rows: Rows, steps: seq<Step>): Rows
    requires ValidRun(rows, steps)
    decreases |steps|
  {
    if steps == [] then rows else Run(Apply(rows, steps[0]), steps[1..])
  }

  // ------------------------------------------------------------ invariant

  ghost predicate FactInv(f: Fact) {
    && (f.status in {Active, Competing} ==> Unlinked(f))
    && (f.status == Superseded ==> f.validUntil.Some?)
    && (f.status == Retracted ==> f.retractedAt.Some?)
    && (f.validUntil.None? ==> f.priorValidUntil.None?)
  }

  ghost predicate StoreInv(rows: Rows) {
    forall id :: id in rows ==> FactInv(rows[id])
  }

  /** A retract, fact by fact. */
  lemma RetractRow(rows: Rows, root: FactId, actor: string, reason: string, now: Instant, id: FactId)
    requires root in rows && rows[root].retractedAt.None? && id in rows
    ensures RetractRows(rows, root, actor, reason, now).Keys == rows.Keys
    ensures RetractRows(rows, root, actor, reason, now)[id] ==
      if id == root then RootPatch(rows[id], now, actor, reason)
      else if id in Derived(rows, root) then CascadePatch(rows[id], now, reason)
      else if Revivable(rows[id], root) then RevivePatch(rows[id])
      else rows[id]
  {
  }

  lemma StepKeepsInv(rows: Rows, step: Step)
    requires StoreInv(rows) && Enabled(rows, step)
    ensures StoreInv(Apply(rows, step))
    ensures rows.Keys <= Apply(rows, step).Keys
  {
    var after := Apply(rows, step);
    if step.Retract? {
      forall id | id in after ensures FactInv(after[id]) {
        RetractRow(rows, step.root, step.actor, step.reason, step.now, id);
      }
    }
  }

  lemma {:induction false} RunKeepsInv(rows: Rows, steps: seq<Step>)
    requires StoreInv(rows) && ValidRun(rows, steps)
    ensures StoreInv(Run(rows, steps))
    decreases |steps|
  {
    if steps != [] {
      StepKeepsInv(rows, steps[0]);
      RunKeepsInv(Apply(rows, steps[0]), steps[1..]);
    }
  }

  lemma DerivedHasParent(rows: Rows, root: FactId, id: FactId) returns (parent: FactId)
    requires id in Derived(rows, root)
    ensures ChildOf(rows, parent, id)
  {
    var path :| DerivationPath(rows, root, path) && path[|path|-1] == id;
    parent := if |path| == 1 then root else path[|path|-2];
  }

  // ------------------------------------------------- when retractions are final

  /** Superseded facts are not retracted. */
  ghost predicate Tidy(rows: Rows) {
    forall id :: id in rows && rows[id].status == Superseded ==> rows[id].retractedAt.None?
  }

  /** A resolver's write finds its loser unretracted. */
  predicate Prompt(rows: Rows, step: Step)
    requires Enabled(rows, step)
  {
    step.Supersede? ==> rows[step.loser].retractedAt.None?
  }

  lemma TidyStepIff(rows: Rows, step: Step)
    requires StoreInv(rows) && Tidy(rows) && Enabled(rows, step)
    ensures Tidy(Apply(rows, step)) <==> Prompt(rows, step)
  {
    var after := Apply(rows, step);
    if step.Retract? {
      forall id | id in rows ensures after[id].status == Superseded ==> after[id] == rows[id] {
        RetractRow(rows, step.root, step.actor, step.reason, step.now, id);
      }
      RetractRow(rows, step.root, step.actor, step.reason, step.now, step.root);
    } else if step.Supersede? {
      assert after[step.loser].retractedAt == rows[step.loser].retractedAt;
    } else if step.Displace? {
      assert FactInv(rows[step.loser]);
    }
  }

  ghost predicate PromptRun(rows: Rows, steps: seq<Step>)
    requires ValidRun(rows, steps)
    decreases |steps|
  {
    steps == [] || (Prompt(rows, steps[0]) && PromptRun(Apply(rows, steps[0]), steps[1..]))
  }

  /** Every store the run passes through is tidy. */
  ghost predicate TidyThroughout(rows: Rows, steps: seq<Step>)
    requires ValidRun(rows, steps)
    decreases |steps|
  {
    Tidy(rows) && (steps == [] || TidyThroughout(Apply(rows, steps[0]), steps[1..]))
  }

  /** Superseded facts stay unretracted throughout a run if and only if no resolver's write comes too late. */
  lemma {:induction false} TidyRunIff(rows: Rows, steps: seq<Step>)
    requires StoreInv(rows) && Tidy(rows) && ValidRun(rows, steps)
    ensures TidyThroughout(rows, steps) <==> PromptRun(rows, steps)
    decreases |steps|
  {
    if steps != [] {
      StepKeepsInv(rows, steps[0]);
      TidyStepIff(rows, steps[0]);
      if Prompt(rows, steps[0]) {
        TidyRunIff(Apply(rows, steps[0]), steps[1..]);
      }
    }
  }

  lemma {:induction false} TidyAtEnd(rows: Rows, steps: seq<Step>)
    requires ValidRun(rows, steps) && TidyThroughout(rows, steps)
    ensures Tidy(Run(rows, steps))
    decreases |steps|
  {
    if steps != [] {
      TidyAtEnd(Apply(rows, steps[0]), steps[1..]);
    }
  }

  ghost predicate Revived(rows: Rows, root: FactId, id: FactId) {
    id in rows && id != root && id !in Derived(rows, root) && Revivable(rows[id], root)
  }

  /** Every retraction stands after the write, at its instant. */
  ghost predicate RetractionsStand(rows: Rows, after: Rows) {
    forall id :: id in rows && rows[id].retractedAt.Some? ==> id in after && after[id].retractedAt == rows[id].retractedAt
  }

  /** The write revives a retracted fact: only a retract can, of the fact's recorded winner. */
  ghost predicate Resurrects(rows: Rows, step: Step) {
    step.Retract? && exists id :: Revived(rows, step.root, id) && rows[id].retractedAt.Some?
  }

  lemma RetractStandsIff(rows: Rows, step: Step, id: FactId)
    requires step.Retract? && Enabled(rows, step) && id in rows && rows[id].retractedAt.Some?
    ensures id in Apply(rows, step)
    ensures Apply(rows, step)[id].retractedAt == rows[id].retractedAt <==> !Revived(rows, step.root, id)
  {
    RetractRow(rows, step.root, step.actor, step.reason, step.now, id);
    if id in Derived(rows, step.root) {
      var _ := DerivedHasParent(rows, step.root, id);
    }
  }

  /** In any store, a write leaves all retractions standing if and only if it revives no retracted fact. */
  lemma RetractionsStandIff(rows: Rows, step: Step)
    requires Enabled(rows, step)
    ensures RetractionsStand(rows, Apply(rows, step)) <==> !Resurrects(rows, step)
  {
    if step.Retract? {
      forall id | id in rows && rows[id].retractedAt.Some?
        ensures id in Apply(rows, step)
        ensures Apply(rows, step)[id].retractedAt == rows[id].retractedAt <==> !Revived(rows, step.root, id)
      {
        RetractStandsIff(rows, step, id);
      }
    }
  }

  ghost predicate FinalRun(rows: Rows, steps: seq<Step>)
    requires ValidRun(rows, steps)
    decreases |steps|
  {
    steps == [] || (!Resurrects(rows, steps[0]) && FinalRun(Apply(rows, steps[0]), steps[1..]))
  }

  /** Every write of the run leaves all retractions standing. */
  ghost predicate StandThroughout(rows: Rows, steps: seq<Step>)
    requires ValidRun(rows, steps)
    decreases |steps|
  {
    steps == []
    || (RetractionsStand(rows, Apply(rows, steps[0])) && StandThroughout(Apply(rows, steps[0]), steps[1..]))
  }

  lemma {:induction false} FinalRunIff(rows: Rows, steps: seq<Step>)
    requires ValidRun(rows, steps)
    ensures StandThroughout(rows, steps) <==> FinalRun(rows, steps)
    decreases |steps|
  {
    if steps != [] {
      RetractionsStandIff(rows, steps[0]);
      FinalRunIff(Apply(rows, steps[0]), steps[1..]);
    }
  }

  lemma {:induction false} RetractionIsFinal(rows: Rows, steps: seq<Step>, id: FactId, at: Instant)
    requires ValidRun(rows, steps) && FinalRun(rows, steps)
    requires id in rows && rows[id].retractedAt == Some(at)
    ensures id in Run(rows, steps) && Run(rows, steps)[id].retractedAt == Some(at)
    decreases |steps|
  {
    if steps != [] {
      RetractionsStandIff(rows, steps[0]);
      RetractionIsFinal(Apply(rows, steps[0]), steps[1..], id, at);
    }
  }

  /** Runs without late writes are among them. */
  lemma {:induction false} PromptRunIsFinal(rows: Rows, steps: seq<Step>)
    requires StoreInv(rows) && Tidy(rows) && ValidRun(rows, steps) && PromptRun(rows, steps)
    ensures FinalRun(rows, steps)
    decreases |steps|
  {
    if steps != [] {
      StepKeepsInv(rows, steps[0]);
      TidyStepIff(rows, steps[0]);
      PromptRunIsFinal(Apply(rows, steps[0]), steps[1..]);
    }
  }

  /** No retract that could come next revives a retracted fact. */
  ghost predicate Settled(rows: Rows) {
    forall step: Step :: step.Retract? && Enabled(rows, step) ==> !Resurrects(rows, step)
  }

  /** A write of the resolver endangers a retraction if and only if it finds its loser retracted and its winner not. */
  lemma LateSupersedeIff(rows: Rows, l: FactId, w: FactId)
    requires Tidy(rows) && Enabled(rows, Supersede(l, w))
    ensures Settled(Apply(rows, Supersede(l, w))) <==> rows[l].retractedAt.None? || rows[w].retractedAt.Some?
  {
    var after := Apply(rows, Supersede(l, w));
    if rows[l].retractedAt.Some? && rows[w].retractedAt.None? {
      var step := Retract(w, "op", "typo", 0);
      NotDerived(after, w, l);
      assert Enabled(after, step) && Revived(after, w, l);
    }
  }

  lemma NotDerived(rows: Rows, root: FactId, id: FactId)
    requires id in rows && rows[id].retractedAt.Some?
    ensures id !in Derived(rows, root)
  {
    if id in Derived(rows, root) {
      var _ := DerivedHasParent(rows, root, id);
    }
  }

  /** ... and then retracting the winner brings the loser back, unretracted. */
  lemma LateSupersedeResurrects(rows: Rows, l: FactId, w: FactId, actor: string, reason: string, now: Instant)
    requires Enabled(rows, Supersede(l, w)) && rows[l].retractedAt.Some? && rows[w].retractedAt.None?
    ensures
      var after := RetractRows(Apply(rows, Supersede(l, w)), w, actor, reason, now);
      l in after && after[l].status == Active && after[l].retractedAt.None?
  {
    var mid := Apply(rows, Supersede(l, w));
    NotDerived(mid, w, l);
    RetractRow(mid, w, actor, reason, now, l);
  }

  /** After a retract, no read at or after `now` returns the root or its derivatives, through any run that revives no
      retracted fact. */
  lemma RetractedStayHidden(rows: Rows, root: FactId, actor: string, reason: string, now: Instant,
                            later: seq<Step>, id: FactId, entity: string, t: Instant)
    requires Enabled(rows, Retract(root, actor, reason, now))
    requires ValidRun(RetractRows(rows, root, actor, reason, now), later)
    requires FinalRun(RetractRows(rows, root, actor, reason, now), later)
    requires id == root || id in Derived(rows, root)
    requires t >= now
    ensures id !in ReadAsOf(Run(RetractRows(rows, root, actor, reason, now), later), entity, t)
  {
    RetractRow(rows, root, actor, reason, now, id);
    RetractionIsFinal(RetractRows(rows, root, actor, reason, now), later, id, now);
  }

  // --------------------------------------------- exactly which writes move the past

  function Start(f: Fact): Instant {
    Max(f.recordedAt, f.validFrom)
  }

  function Capped(x: Option<Instant>, now: Instant): Instant {
    if x.None? then now else Min(now, x.value)
  }

  /** Retracted at `retracted` and valid to `until`, f is shown by reads before `now` from Start(f) up to this instant. */
  function ShownUpTo(f: Fact, retracted: Option<Instant>, until: Option<Instant>, now: Instant): Instant {
    Max(Start(f), Min(Capped(retracted, now), Capped(until, now)))
  }

  function Shown(f: Fact, now: Instant): Instant {
    ShownUpTo(f, f.retractedAt, f.validUntil, now)
  }

  lemma ShownBefore(f: Fact, t: Instant, now: Instant)
    requires t < now
    ensures VisibleAt(f, t) <==> Start(f) <= t < Shown(f, now)
  {
  }

  /** No write moves where a row starts to be shown. */
  predicate SameLine(f: Fact, g: Fact) {
    f.entityId == g.entityId && f.recordedAt == g.recordedAt && f.validFrom == g.validFrom
  }

  ghost predicate SameLines(rows: Rows, after: Rows) {
    rows.Keys == after.Keys && forall id :: id in rows ==> SameLine(rows[id], after[id])
  }

  lemma RowKeepsShowing(f: Fact, g: Fact, t: Instant, now: Instant)
    requires SameLine(f, g) && t < now && VisibleAt(f, t) && Shown(f, now) <= Shown(g, now)
    ensures VisibleAt(g, t)
  {
    ShownBefore(f, t, now);
    ShownBefore(g, t, now);
  }

  lemma RowStopsShowing(f: Fact, g: Fact, now: Instant) returns (t: Instant)
    requires SameLine(f, g) && Shown(f, now) > Shown(g, now)
    ensures t < now && VisibleAt(f, t) && !VisibleAt(g, t)
  {
    t := Shown(g, now);
    ShownBefore(f, t, now);
    ShownBefore(g, t, now);
  }

  /** Nothing disappears from any read before `now`. */
  ghost predicate PastKept(rows: Rows, after: Rows, now: Instant) {
    forall entity, t :: t < now ==> ReadAsOf(rows, entity, t) <= ReadAsOf(after, entity, t)
  }

  /** History is replayed, never rewritten: every read before `now` is what it was. */
  ghost predicate PastFrozen(rows: Rows, after: Rows, now: Instant) {
    forall entity, t :: t < now ==> ReadAsOf(rows, entity, t) == ReadAsOf(after, entity, t)
  }

  ghost predicate EndsNotLowered(rows: Rows, after: Rows, now: Instant)
    requires rows.Keys == after.Keys
  {
    forall id :: id in rows ==> Shown(rows[id], now) <= Shown(after[id], now)
  }

  lemma KeptIff(rows: Rows, after: Rows, now: Instant)
    requires SameLines(rows, after)
    ensures PastKept(rows, after, now) <==> EndsNotLowered(rows, after, now)
  {
    if EndsNotLowered(rows, after, now) {
      forall entity, t | t < now ensures ReadAsOf(rows, entity, t) <= ReadAsOf(after, entity, t) {
        forall id | id in ReadAsOf(rows, entity, t) ensures id in ReadAsOf(after, entity, t) {
          RowKeepsShowing(rows[id], after[id], t, now);
        }
      }
    } else {
      var id :| id in rows && Shown(rows[id], now) > Shown(after[id], now);
      var t := RowStopsShowing(rows[id], after[id], now);
      assert id in ReadAsOf(rows, rows[id].entityId, t) && id !in ReadAsOf(after, rows[id].entityId, t);
    }
  }

  lemma FrozenIsKeptBothWays(rows: Rows, after: Rows, now: Instant)
    ensures PastFrozen(rows, after, now) <==> PastKept(rows, after, now) && PastKept(after, rows, now)
  {
  }

  lemma FrozenIff(rows: Rows, after: Rows, now: Instant)
    requires SameLines(rows, after)
    ensures PastFrozen(rows, after, now) <==> EndsNotLowered(rows, after, now) && EndsNotLowered(after, rows, now)
  {
    KeptIff(rows, after, now);
    KeptIff(after, rows, now);
    FrozenIsKeptBothWays(rows, after, now);
  }

  // ------------------------------------------------------------ write by write

  /** The facts a retract of `root` writes to. */
  ghost predicate Touched(rows: Rows, root: FactId, id: FactId) {
    id in rows && (id == root || id in Derived(rows, root) || Revivable(rows[id], root))
  }

  /** How far reads before `now` show a fact that a retract at `now` touches: root and derivatives end there, a revived
      fact is no longer retracted and gets its remembered end back. */
  ghost function ShownAfterRetract(rows: Rows, root: FactId, id: FactId, now: Instant): Instant
    requires Touched(rows, root, id)
  {
    if id == root || id in Derived(rows, root) then Max(Start(rows[id]), now)
    else ShownUpTo(rows[id], None, rows[id].priorValidUntil, now)
  }

  function ClosingInstant(rows: Rows, step: Step): Instant
    requires step.Displace? || step.Supersede?
    requires step.loser in rows && step.winner in rows
  {
    if step.Displace? then rows[step.winner].validFrom else CloseAt(rows[step.loser], rows[step.winner])
  }

  ghost function ShownAfterClosing(rows: Rows, step: Step, now: Instant): Instant
    requires step.Displace? || step.Supersede?
    requires step.loser in rows && step.winner in rows
  {
    ShownUpTo(rows[step.loser], rows[step.loser].retractedAt, Some(ClosingInstant(rows, step)), now)
  }

  /** What a caller can compare before a write at `now`: how far each row it touches was shown, and will be. */
  ghost predicate LeavesPastAlone(rows: Rows, step: Step, now: Instant)
    requires Enabled(rows, step)
  {
    match step
    case Insert(_, f) => Shown(f, now) == Start(f)
    case Contest(_) => true
    case Compact(_) => true
    case Displace(l, _) => Shown(rows[l], now) == ShownAfterClosing(rows, step, now)
    case Supersede(l, _) => Shown(rows[l], now) == ShownAfterClosing(rows, step, now)
    case Retract(root, _, _, _) =>
      forall id :: Touched(rows, root, id) ==> Shown(rows[id], now) == ShownAfterRetract(rows, root, id, now)
  }

  /** The same for a write that may add to past reads but must not take anything out of them. */
  ghost predicate TakesNothingBack(rows: Rows, step: Step, now: Instant)
    requires Enabled(rows, step)
  {
    match step
    case Insert(_, _) => true
    case Contest(_) => true
    case Compact(_) => true
    case Displace(l, _) => Shown(rows[l], now) <= ShownAfterClosing(rows, step, now)
    case Supersede(l, _) => Shown(rows[l], now) <= ShownAfterClosing(rows, step, now)
    case Retract(root, _, _, _) => RevivalKeeps(rows, root, now)
  }

  /** Each revived fact gets back an end that does not fall short of what was shown. */
  ghost predicate RevivalKeeps(rows: Rows, root: FactId, now: Instant) {
    forall id :: Revived(rows, root, id) ==>
      Shown(rows[id], now) <= ShownUpTo(rows[id], None, rows[id].priorValidUntil, now)
  }

  lemma RetractShows(rows: Rows, step: Step, id: FactId)
    requires step.Retract? && Enabled(rows, step) && id in rows
    ensures id in Apply(rows, step) && SameLine(rows[id], Apply(rows, step)[id])
    ensures Shown(Apply(rows, step)[id], step.now)
         == if Touched(rows, step.root, id) then ShownAfterRetract(rows, step.root, id, step.now) else Shown(rows[id], step.now)
  {
    RetractRow(rows, step.root, step.actor, step.reason, step.now, id);
  }

  lemma StepKeepsLines(rows: Rows, step: Step)
    requires Enabled(rows, step) && !step.Insert?
    ensures SameLines(rows, Apply(rows, step))
  {
    if step.Retract? {
      forall id | id in rows ensures SameLine(rows[id], Apply(rows, step)[id]) {
        RetractShows(rows, step, id);
      }
      assert Apply(rows, step).Keys == rows.Keys by {
        RetractRow(rows, step.root, step.actor, step.reason, step.now, step.root);
      }
    }
  }

  lemma RetractTakesBack(rows: Rows, step: Step)
    requires step.Retract? && Enabled(rows, step)
    ensures Apply(rows, step).Keys == rows.Keys
    ensures EndsNotLowered(rows, Apply(rows, step), step.now) <==> RevivalKeeps(rows, step.root, step.now)
  {
    StepKeepsLines(rows, step);
    forall id | id in rows
      ensures Revived(rows, step.root, id) ==>
        Shown(Apply(rows, step)[id], step.now) == ShownUpTo(rows[id], None, rows[id].priorValidUntil, step.now)
      ensures !Revived(rows, step.root, id) ==> Shown(rows[id], step.now) <= Shown(Apply(rows, step)[id], step.now)
    {
      RetractShows(rows, step, id);
    }
  }

  lemma RetractLeavesAlone(rows: Rows, step: Step)
    requires step.Retract? && Enabled(rows, step)
    ensures Apply(rows, step).Keys == rows.Keys
    ensures EndsNotLowered(rows, Apply(rows, step), step.now) && EndsNotLowered(Apply(rows, step), rows, step.now)
       <==> LeavesPastAlone(rows, step, step.now)
  {
    StepKeepsLines(rows, step);
    forall id | id in rows
      ensures Shown(Apply(rows, step)[id], step.now)
           == if Touched(rows, step.root, id) then ShownAfterRetract(rows, step.root, id, step.now)
              else Shown(rows[id], step.now)
    {
      RetractShows(rows, step, id);
    }
  }

  lemma InsertAdds(rows: Rows, step: Step, now: Instant)
    requires step.Insert? && Enabled(rows, step)
    ensures PastKept(rows, Apply(rows, step), now)
    ensures PastFrozen(rows, Apply(rows, step), now) <==> LeavesPastAlone(rows, step, now)
  {
    var f, after := step.fact, Apply(rows, step);
    forall entity, t | t < now
      ensures ReadAsOf(after, entity, t)
           == ReadAsOf(rows, entity, t) + (if f.entityId == entity && VisibleAt(f, t) then {step.id} else {})
    {
    }
    if Shown(f, now) == Start(f) {
      forall t | t < now ensures !VisibleAt(f, t) {
        ShownBefore(f, t, now);
      }
    } else {
      ShownBefore(f, Start(f), now);
      assert step.id in ReadAsOf(after, f.entityId, Start(f));
    }
  }

  /** In any store, a write takes nothing out of any earlier read if and only if it lowers the end of no row it touches. */
  lemma PastKeptIff(rows: Rows, step: Step, now: Instant)
    requires Enabled(rows, step) && (step.Retract? ==> step.now == now)
    ensures PastKept(rows, Apply(rows, step), now) <==> TakesNothingBack(rows, step, now)
  {
    if step.Insert? {
      InsertAdds(rows, step, now);
    } else {
      StepKeepsLines(rows, step);
      KeptIff(rows, Apply(rows, step), now);
      if step.Retract? {
        RetractTakesBack(rows, step);
      }
    }
  }

  /** In any store, a write leaves every earlier read as it was if and only if it moves the end of no row it touches. */
  lemma PastFrozenIff(rows: Rows, step: Step, now: Instant)
    requires Enabled(rows, step) && (step.Retract? ==> step.now == now)
    ensures PastFrozen(rows, Apply(rows, step), now) <==> LeavesPastAlone(rows, step, now)
  {
    if step.Insert? {
      InsertAdds(rows, step, now);
    } else {
      StepKeepsLines(rows, step);
      FrozenIff(rows, Apply(rows, step), now);
      if step.Retract? {
        RetractLeavesAlone(rows, step);
      }
    }
  }

  // ------------------------------------------------------------- whole runs

  /** In every reachable store a retract keeps every earlier read if and only if its revivals do. */
  lemma PastReadsKeptIff(steps: seq<Step>, root: FactId, actor: string, reason: string, now: Instant)
    requires ValidRun(map[], steps) && Enabled(Run(map[], steps), Retract(root, actor, reason, now))
    ensures PastKept(Run(map[], steps), RetractRows(Run(map[], steps), root, actor, reason, now), now)
       <==> RevivalKeeps(Run(map[], steps), root, now)
  {
    PastKeptIff(Run(map[], steps), Retract(root, actor, reason, now), now);
  }

  /** The write closes no fact later than it had already ended. */
  predicate Shortens(rows: Rows, step: Step)
    requires Enabled(rows, step)
  {
    (step.Displace? || step.Supersede?) ==>
      rows[step.loser].validUntil.None? || ClosingInstant(rows, step) <= rows[step.loser].validUntil.value
  }

  ghost predicate ShorteningRun(rows: Rows, steps: seq<Step>)
    requires ValidRun(rows, steps)
    decreases |steps|
  {
    steps == [] || (Shortens(rows, steps[0]) && ShorteningRun(Apply(rows, steps[0]), steps[1..]))
  }

  /** What a superseded fact remembers is not before its present end. */
  ghost predicate RemembersLater(rows: Rows) {
    forall id :: id in rows && rows[id].status == Superseded ==>
      rows[id].priorValidUntil.None?
      || (rows[id].validUntil.Some? && rows[id].priorValidUntil.value >= rows[id].validUntil.value)
  }

  lemma ShorteningRemembers(rows: Rows, step: Step)
    requires StoreInv(rows) && RemembersLater(rows) && Enabled(rows, step) && Shortens(rows, step)
    ensures RemembersLater(Apply(rows, step))
  {
    var after := Apply(rows, step);
    if step.Retract? {
      forall id | id in rows
        ensures after[id].status == Superseded ==> after[id] == rows[id]
      {
        RetractRow(rows, step.root, step.actor, step.reason, step.now, id);
      }
      StepKeepsInv(rows, step);
      RetractRow(rows, step.root, step.actor, step.reason, step.now, step.root);
    } else if step.Displace? || step.Supersede? {
      assert FactInv(rows[step.loser]);
    }
  }

  lemma {:induction false} ShorteningRunRemembers(rows: Rows, steps: seq<Step>)
    requires StoreInv(rows) && RemembersLater(rows) && ValidRun(rows, steps) && ShorteningRun(rows, steps)
    ensures RemembersLater(Run(rows, steps))
    decreases |steps|
  {
    if steps != [] {
      StepKeepsInv(rows, steps[0]);
      ShorteningRemembers(rows, steps[0]);
      ShorteningRunRemembers(Apply(rows, steps[0]), steps[1..]);
    }
  }

  /** After runs that only ever shorten, late writes included, no retract takes anything out of any earlier read. */
  lemma PastReadsKept(steps: seq<Step>, root: FactId, actor: string, reason: string, now: Instant)
    requires ValidRun(map[], steps) && ShorteningRun(map[], steps)
    requires Enabled(Run(map[], steps), Retract(root, actor, reason, now))
    ensures PastKept(Run(map[], steps), RetractRows(Run(map[], steps), root, actor, reason, now), now)
  {
    ShorteningRunRemembers(map[], steps);
    RememberedIsEnough(Run(map[], steps), root, actor, reason, now);
  }

  lemma RememberedIsEnough(rows: Rows, root: FactId, actor: string, reason: string, now: Instant)
    requires RemembersLater(rows) && Enabled(rows, Retract(root, actor, reason, now))
    ensures PastKept(rows, RetractRows(rows, root, actor, reason, now), now)
  {
    PastKeptIff(rows, Retract(root, actor, reason, now), now);
  }

  datatype Write = Write(at: Instant, step: Step)

  /** Writes that all happen at or after `since` and each leave the past before their own instant alone. */
  ghost predicate CarefulRun(rows: Rows, writes: seq<Write>, since: Instant)
    decreases |writes|
  {
    writes == []
    || (var w := writes[0];
        && since <= w.at && Enabled(rows, w.step) && (w.step.Retract? ==> w.step.now == w.at)
        && LeavesPastAlone(rows, w.step, w.at)
        && CarefulRun(Apply(rows, w.step), writes[1..], since))
  }

  ghost function AfterWrites(rows: Rows, writes: seq<Write>, since: Instant): Rows
    requires CarefulRun(rows, writes, since)
    decreases |writes|
  {
    if writes == [] then rows else AfterWrites(Apply(rows, writes[0].step), writes[1..], since)
  }

  /** Then every read of the past before `since` can be replayed exactly. */
  lemma {:induction false} ReplayedExactly(rows: Rows, writes: seq<Write>, since: Instant)
    requires CarefulRun(rows, writes, since)
    ensures PastFrozen(rows, AfterWrites(rows, writes, since), since)
    decreases |writes|
  {
    if writes != [] {
      var w := writes[0];
      PastFrozenIff(rows, w.step, w.at);
      ReplayedExactly(Apply(rows, w.step), writes[1..], since);
      var mid, after := Apply(rows, w.step), AfterWrites(rows, writes, since);
      forall entity, t | t < since ensures ReadAsOf(rows, entity, t) == ReadAsOf(after, entity, t) {
        assert ReadAsOf(rows, entity, t) == ReadAsOf(mid, entity, t);
      }
    }
  }

  // ------------------------------------------------------- smallest failures

  function Plain(status: Status, from: Instant, until: Option<Instant>): Fact {
    Fact("e", "p", None, status, from, until, 0, None, None, None, None, None, {}, true)
  }

  /** A fact that ended at 5 and is retracted at 10 starts to show up in the read at 7. */
  lemma RetractCanRewriteThePast()
    ensures ReadAsOf(map[0 := Plain(Active, 0, Some(5))], "e", 7) == {}
    ensures 0 in ReadAsOf(RetractRows(map[0 := Plain(Active, 0, Some(5))], 0, "op", "typo", 10), "e", 7)
  {
    var rows := map[0 := Plain(Active, 0, Some(5))];
    RetractRow(rows, 0, "op", "typo", 10, 0);
  }

  /** A rival from 5 on, learned at 15, supersedes an open fact: the read at 7, which showed it, shows nothing. */
  lemma SupersedeCanRewriteThePast()
    ensures
      var rows := map[0 := Plain(Competing, 0, None), 1 := Plain(Competing, 5, None).(recordedAt := 15)];
      && StoreInv(rows) && Tidy(rows) && Enabled(rows, Supersede(0, 1)) && Shortens(rows, Supersede(0, 1))
      && ReadAsOf(rows, "e", 7) == {0} && ReadAsOf(Apply(rows, Supersede(0, 1)), "e", 7) == {}
  {
  }

  /** A fact that ended at 5 is superseded from 10 on, and then its winner retracted: the read at 7 shows it in between
      and loses it again, on either path. */
  lemma DisjointPairLosesPast(step: Step)
    requires step == Supersede(0, 1) || step == Displace(0, 1)
    ensures
      var status := if step.Supersede? then Competing else Active;
      var rows := map[0 := Plain(status, 0, Some(5)), 1 := Plain(status, 10, None)];
      && Enabled(rows, step) && !Shortens(rows, step)
      && 0 in ReadAsOf(Apply(rows, step), "e", 7)
      && 0 !in ReadAsOf(RetractRows(Apply(rows, step), 1, "op", "typo", 20), "e", 7)
  {
    var status := if step.Supersede? then Competing else Active;
    var rows := map[0 := Plain(status, 0, Some(5)), 1 := Plain(status, 10, None)];
    var mid := Apply(rows, step);
    RetractRow(mid, 1, "op", "typo", 20, 0);
    if 0 in Derived(mid, 1) {
      var _ := DerivedHasParent(mid, 1, 0);
    }
  }

  const RIVALS: Rows := map[0 := Plain(Competing, 0, None), 1 := Plain(Competing, 1, None)]

  lemma FirstRivalRetracted(actor: string, reason: string)
    ensures RetractRows(RIVALS, 0, actor, reason, 10)
         == RIVALS[0 := RootPatch(Plain(Competing, 0, None), 10, actor, reason)]
  {
    NoDerivatives(RIVALS, 0, 1);
    RetractRow(RIVALS, 0, actor, reason, 10, 0);
    RetractRow(RIVALS, 0, actor, reason, 10, 1);
  }

  /** Two rivals. The first is retracted at 10; the resolver, which had picked the pair before, now supersedes it by the
      second; the second is retracted at 20, and the first is active again, until 10, as if never retracted. */
  lemma LateSupersedeUndoesRetraction(actor: string, reason: string)
    ensures StoreInv(RIVALS) && Tidy(RIVALS)
    ensures
      var retracted := RetractRows(RIVALS, 0, actor, reason, 10);
      && Enabled(retracted, Supersede(0, 1)) && !Prompt(retracted, Supersede(0, 1))
      && var after := RetractRows(Apply(retracted, Supersede(0, 1)), 1, actor, reason, 20);
      0 in after && after[0] == Plain(Active, 0, Some(10))
  {
    FirstRivalRetracted(actor, reason);
    var mid := Apply(RetractRows(RIVALS, 0, actor, reason, 10), Supersede(0, 1));
    NotDerived(mid, 1, 0);
    RetractRow(mid, 1, actor, reason, 20, 0);
  }

  /** Retracting it once more, at 30, then brings it back into the read at 15, from which the first retract had taken it. */
  lemma SecondRetractShows(rows: Rows, actor: string, reason: string)
    requires 0 in rows && rows[0] == Plain(Active, 0, Some(10))
    ensures 0 !in ReadAsOf(RetractRows(RIVALS, 0, actor, reason, 10), "e", 15)
    ensures 0 in ReadAsOf(RetractRows(rows, 0, actor, reason, 30), "e", 15)
  {
    FirstRivalRetracted(actor, reason);
    RetractRow(rows, 0, actor, reason, 30, 0);
  }

  lemma NoDerivatives(rows: Rows, root: FactId, id: FactId)
    requires id in rows && rows[id].derivedFrom == {}
    ensures id !in Derived(rows, root)
  {
    if id in Derived(rows, root) {
      var _ := DerivedHasParent(rows, root, id);
    }
  }

  // ----------------------------------------------------------- round trip

  /** Between a supersede and the retract of its winner the loser's row was left alone. */
  ghost predicate LeftAlone(rows: Rows, mid: seq<Step>, sup: Step) {
    && (sup.Supersede? || sup.Displace?)
    && Enabled(rows, sup) && ValidRun(Apply(rows, sup), mid)
    && sup.loser in Run(Apply(rows, sup), mid)
    && Run(Apply(rows, sup), mid)[sup.loser] == Apply(rows, sup)[sup.loser]
  }

  /** Retracting the winner gives the loser back as it was, now active, if and only if it carried no links when it was
      superseded, as active and competing facts do not, and the cascade does not take it too. */
  lemma SupersedeRetractRoundTrip(rows: Rows, sup: Step, mid: seq<Step>, actor: string, reason: string, now: Instant)
    requires LeftAlone(rows, mid, sup)
    requires Enabled(Run(Apply(rows, sup), mid), Retract(sup.winner, actor, reason, now))
    ensures
      var s := Run(Apply(rows, sup), mid);
      var after := RetractRows(s, sup.winner, actor, reason, now);
      sup.loser in after
      && (after[sup.loser] == rows[sup.loser].(status := Active)
          <==> Unlinked(rows[sup.loser]) && sup.loser !in Derived(s, sup.winner))
  {
    var s := Run(Apply(rows, sup), mid);
    RetractRow(s, sup.winner, actor, reason, now, sup.loser);
  }

  /** Revival runs for the root only: a superseded fact whose winner gets retracted stays superseded, if and only if the
      winner goes by cascade and the fact itself is neither the root nor derived from it. */
  lemma LoserStaysIff(rows: Rows, root: FactId, actor: string, reason: string, now: Instant, f: FactId, w: FactId)
    requires Enabled(rows, Retract(root, actor, reason, now)) && f in rows && w in rows
    requires Revivable(rows[f], w) && rows[w].retractedAt.None?
    requires w == root || w in Derived(rows, root)
    ensures f in RetractRows(rows, root, actor, reason, now) && w in RetractRows(rows, root, actor, reason, now)
    ensures RetractRows(rows, root, actor, reason, now)[w].retractedAt == Some(now)
    ensures RetractRows(rows, root, actor, reason, now)[f].status == Superseded
       <==> w != root && f != root && f !in Derived(rows, root)
  {
    RetractRow(rows, root, actor, reason, now, f);
    RetractRow(rows, root, actor, reason, now, w);
  }
}
