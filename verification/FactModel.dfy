/** Rows of knowledge_fact, the asOf read, and the row-level effect of every write. */
module FactModel {
  import opened Common

  type FactId = nat
  type Instant = int

  datatype Status = Active | Competing | Superseded | Retracted | Compacted

  datatype Fact = Fact(
    entityId: string,
    predicateName: string,
    sourceKind: Option<string>,
    status: Status,
    validFrom: Instant,
    validUntil: Option<Instant>,
    recordedAt: Instant,
    retractedAt: Option<Instant>,
    retractedBy: Option<string>,
    retractionReason: Option<string>,
    supersededBy: Option<FactId>,
    priorValidUntil: Option<Instant>,
    derivedFrom: set<FactId>,
    embedded: bool
  )

  type Rows = map<FactId, Fact>

  const SUPERSEDED_REASON := "superseded"

  // ---------------------------------------------------------------- reads

  predicate StartedBy(f: Fact, t: Instant) {
    f.recordedAt <= t && f.validFrom <= t
  }

  predicate OpenAt(until: Option<Instant>, t: Instant) {
    until.None? || until.value > t
  }

  /** The four asOf clauses of the profile read. */
  predicate VisibleAt(f: Fact, t: Instant) {
    StartedBy(f, t) && OpenAt(f.retractedAt, t) && OpenAt(f.validUntil, t)
  }

  function ReadAsOf(rows: Rows, entity: string, t: Instant): set<FactId> {
    set id | id in rows && rows[id].entityId == entity && VisibleAt(rows[id], t)
  }

  // ---------------------------------------------------------- retraction

  function CascadePatch(f: Fact, now: Instant, reason: string): Fact {
    f.(status := Retracted, retractedAt := Some(now), retractedBy := Some("cascade"),
       retractionReason := Some("parent retracted: " + reason), validUntil := Some(now))
  }

  // The service asks for `existing.validUntil ?? now`, but the column is never
  // selected, so `now` is what gets written.
  function RootPatch(f: Fact, now: Instant, actor: string, reason: string): Fact {
    f.(status := Retracted, retractedAt := Some(now), retractedBy := Some(actor),
       retractionReason := Some(reason), validUntil := Some(now))
  }

  function RevivePatch(f: Fact): Fact {
    f.(status := Active, retractedAt := None, retractedBy := None, retractionReason := None,
       supersededBy := None, validUntil := f.priorValidUntil, priorValidUntil := None)
  }

  predicate Revivable(f: Fact, root: FactId) {
    f.supersededBy == Some(root) && f.status == Superseded && f.retractionReason == Some(SUPERSEDED_REASON)
  }

  predicate ChildOf(rows: Rows, parent: FactId, child: FactId) {
    child in rows && rows[child].retractedAt.None? && parent in rows[child].derivedFrom
  }

  /** `path` walks derivedFrom edges down from `root`, only through unretracted facts. */
  ghost predicate DerivationPath(rows: Rows, root: FactId, path: seq<FactId>) {
    && |path| > 0
    && ChildOf(rows, root, path[0])
    && forall i :: 0 < i < |path| ==> ChildOf(rows, path[i-1], path[i])
  }

  ghost predicate Reaches(rows: Rows, root: FactId, id: FactId) {
    exists path :: DerivationPath(rows, root, path) && path[|path|-1] == id
  }

  /** Everything derived, directly or not, from `root`. Contains `root` exactly when it lies on a cycle. */
  ghost function Derived(rows: Rows, root: FactId): set<FactId> {
    set id | id in rows && Reaches(rows, root, id)
  }

  function CascadeRows(rows: Rows, ids: set<FactId>, now: Instant, reason: string): Rows {
    map id | id in rows :: if id in ids then CascadePatch(rows[id], now, reason) else rows[id]
  }

  function ReviveRows(rows: Rows, root: FactId): Rows {
    map id | id in rows :: if Revivable(rows[id], root) then RevivePatch(rows[id]) else rows[id]
  }

  /** The store after a successful retract of an unretracted `root`. */
  ghost function RetractRows(rows: Rows, root: FactId, actor: string, reason: string, now: Instant): Rows
    requires root in rows
  {
    var cascaded := CascadeRows(rows, Derived(rows, root), now, reason);
    ReviveRows(cascaded[root := RootPatch(cascaded[root], now, actor, reason)], root)
  }

  // ---------------------------------------------------------- superseding

  function CloseAt(loser: Fact, winner: Fact): Instant {
    if winner.validFrom > loser.validFrom then winner.validFrom else loser.validFrom
  }

  /** The dreams resolver's update: priorValidUntil is only assigned when there is an end to remember. */
  function SupersedePatch(loser: Fact, winnerId: FactId, winner: Fact): Fact {
    loser.(status := Superseded, retractionReason := Some(SUPERSEDED_REASON), retractedBy := Some("dreams"),
           supersededBy := Some(winnerId),
           priorValidUntil := if loser.validUntil.Some? then loser.validUntil else loser.priorValidUntil,
           validUntil := Some(CloseAt(loser, winner)))
  }

  /** The update of the database function that resolves an ingest. */
  function DisplacePatch(loser: Fact, winnerId: FactId, winner: Fact): Fact {
    loser.(status := Superseded, retractionReason := Some(SUPERSEDED_REASON), retractedBy := Some("system"),
           supersededBy := Some(winnerId), priorValidUntil := loser.validUntil,
           validUntil := Some(winner.validFrom))
  }

  // ----------------------------------------------------------- compaction

  function CompactPatch(f: Fact): Fact {
    f.(status := Compacted, embedded := false)
  }
}
