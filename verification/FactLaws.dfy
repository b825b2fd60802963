/** What a reader sees and what each write leaves in a row, column by column. */
module FactLaws {
  import opened Common
  import opened FactModel
  import opened Facts
  import opened Lifecycle
  import opened Resolver

  /** The columns no write touches. */
  predicate SameFact(f: Fact, g: Fact) {
    && g.entityId == f.entityId && g.predicateName == f.predicateName && g.sourceKind == f.sourceKind
    && g.validFrom == f.validFrom && g.recordedAt == f.recordedAt && g.derivedFrom == f.derivedFrom
  }

  /** A read as of t returns the entity's facts that were recorded and valid by t and neither retracted nor ended by t;
      at the instant of retraction or of its end a fact is gone. */
  lemma ReadReturns(rows: Rows, entity: string, t: Instant, id: FactId)
    ensures id in ReadAsOf(rows, entity, t) <==>
      && id in rows && rows[id].entityId == entity
      && rows[id].recordedAt <= t && rows[id].validFrom <= t
      && (rows[id].retractedAt.None? || t < rows[id].retractedAt.value)
      && (rows[id].validUntil.None? || t < rows[id].validUntil.value)
  {
  }

  // ------------------------------------------------------------------ retract

  lemma RootRow(rows: Rows, root: FactId, actor: string, reason: string, now: Instant)
    requires root in rows && rows[root].retractedAt.None?
    ensures root in RetractRows(rows, root, actor, reason, now)
    ensures
      var f, g := rows[root], RetractRows(rows, root, actor, reason, now)[root];
      && SameFact(f, g) && g.embedded == f.embedded
      && g.supersededBy == f.supersededBy && g.priorValidUntil == f.priorValidUntil
      && g.status == Status.Retracted && g.retractedAt == Some(now) && g.validUntil == Some(now)
      && g.retractedBy == Some(actor) && g.retractionReason == Some(reason)
  {
    RetractRow(rows, root, actor, reason, now, root);
  }

  lemma CascadedRow(rows: Rows, root: FactId, actor: string, reason: string, now: Instant, id: FactId)
    requires root in rows && rows[root].retractedAt.None? && id in Derived(rows, root) && id != root
    ensures id in RetractRows(rows, root, actor, reason, now)
    ensures
      var f, g := rows[id], RetractRows(rows, root, actor, reason, now)[id];
      && SameFact(f, g) && g.embedded == f.embedded
      && g.supersededBy == f.supersededBy && g.priorValidUntil == f.priorValidUntil
      && g.status == Status.Retracted && g.retractedAt == Some(now) && g.validUntil == Some(now)
      && g.retractedBy == Some("cascade") && g.retractionReason == Some("parent retracted: " + reason)
  {
    RetractRow(rows, root, actor, reason, now, id);
  }

  /** What is neither root nor derived changes exactly when it is superseded by the root under the sentinel reason, and
      then comes back active, with its remembered end and no links. */
  lemma OtherRow(rows: Rows, root: FactId, actor: string, reason: string, now: Instant, id: FactId)
    requires root in rows && rows[root].retractedAt.None? && id in rows && id !in Derived(rows, root) && id != root
    ensures id in RetractRows(rows, root, actor, reason, now)
    ensures
      var f, g := rows[id], RetractRows(rows, root, actor, reason, now)[id];
      if f.status == Status.Superseded && f.supersededBy == Some(root) && f.retractionReason == Some("superseded") then
        && SameFact(f, g) && g.embedded == f.embedded
        && g.status == Status.Active && g.validUntil == f.priorValidUntil && g.priorValidUntil == None
        && g.supersededBy == None && g.retractedAt == None && g.retractedBy == None && g.retractionReason == None
      else g == f
  {
    RetractRow(rows, root, actor, reason, now, id);
  }

  /** Derived facts are the unretracted ones that name the root, or a derived fact, among their parents. */
  lemma DerivedIs(rows: Rows, root: FactId, id: FactId)
    ensures id in Derived(rows, root) <==>
      && id in rows && rows[id].retractedAt.None?
      && (root in rows[id].derivedFrom || exists u :: u in rows[id].derivedFrom && u in Derived(rows, root))
  {
    if id in Derived(rows, root) {
      var path :| DerivationPath(rows, root, path) && path[|path|-1] == id;
      if |path| > 1 {
        var front, u := path[..|path|-1], path[|path|-2];
        assert DerivationPath(rows, root, front) && front[|front|-1] == u;
        assert ChildOf(rows, u, id);
        UpperIsChild(rows, root, front);
      }
    } else if id in rows && rows[id].retractedAt.None? {
      if root in rows[id].derivedFrom {
        ReachesChild(rows, root, root, id);
      } else if u :| u in rows[id].derivedFrom && u in Derived(rows, root) {
        ReachesChild(rows, root, u, id);
      }
    }
  }

  lemma UpperIsChild(rows: Rows, root: FactId, path: seq<FactId>)
    requires DerivationPath(rows, root, path)
    ensures path[|path|-1] in Derived(rows, root)
  {
    var u := path[|path|-1];
    if |path| > 1 {
      assert ChildOf(rows, path[|path|-2], u);
    }
    assert Reaches(rows, root, u);
  }

  /** Only an administrator, or a caller without scopes, may retract billing and human-declared facts and legal sources. */
  lemma GateIs(f: Fact)
    ensures RetractRequiresAdmin(f) <==>
      f.predicateName == "billing_event" || f.predicateName == "human_declared" || f.sourceKind == Some("legal")
  {
  }

  // ------------------------------------------------------------ other writes

  /** When each write can happen: ingest and retract look at what they touch, the resolver and the compactor only need the
      rows to exist. */
  lemma WritesAvailable(rows: Rows, l: FactId, w: FactId, ids: set<FactId>, f: Fact)
    ensures Enabled(rows, Supersede(l, w)) <==> l in rows && w in rows && l != w
    ensures Enabled(rows, Displace(l, w)) <==> l in rows && w in rows && l != w && rows[l].status == Status.Active
    ensures Enabled(rows, Compact(ids)) <==> forall id :: id in ids ==> id in rows
    ensures Enabled(rows, Contest(ids)) <==> forall id :: id in ids ==> id in rows && rows[id].status == Status.Active
    ensures Enabled(rows, Retract(l, "op", "typo", 0)) <==> l in rows && rows[l].retractedAt.None?
    ensures Enabled(rows, Insert(l, f)) <==>
      && l !in rows && (f.status == Status.Active || f.status == Status.Competing)
      && f.retractedAt.None? && f.retractedBy.None? && f.retractionReason.None?
      && f.supersededBy.None? && f.priorValidUntil.None?
  {
  }

  /** The resolver closes the loser where the later of the two starts, and remembers an end only if there was one. */
  lemma SupersededRow(rows: Rows, l: FactId, w: FactId)
    requires Enabled(rows, Supersede(l, w))
    ensures
      var after, f := Apply(rows, Supersede(l, w)), rows[l];
      && after.Keys == rows.Keys && (forall id :: id in rows && id != l ==> after[id] == rows[id])
      && var g := after[l];
      && SameFact(f, g) && g.embedded == f.embedded && g.retractedAt == f.retractedAt
      && g.status == Status.Superseded && g.supersededBy == Some(w)
      && g.retractionReason == Some("superseded") && g.retractedBy == Some("dreams")
      && g.validUntil.Some? && g.validUntil.value >= f.validFrom && g.validUntil.value >= rows[w].validFrom
      && (g.validUntil.value == f.validFrom || g.validUntil.value == rows[w].validFrom)
      && (f.validUntil.Some? ==> g.priorValidUntil == f.validUntil)
      && (f.validUntil.None? ==> g.priorValidUntil == f.priorValidUntil)
  {
  }

  /** Ingest closes the loser where the winner starts, wherever that is. */
  lemma DisplacedRow(rows: Rows, l: FactId, w: FactId)
    requires Enabled(rows, Displace(l, w))
    ensures
      var after, f := Apply(rows, Displace(l, w)), rows[l];
      && after.Keys == rows.Keys && (forall id :: id in rows && id != l ==> after[id] == rows[id])
      && var g := after[l];
      && SameFact(f, g) && g.embedded == f.embedded && g.retractedAt == f.retractedAt
      && g.status == Status.Superseded && g.supersededBy == Some(w)
      && g.retractionReason == Some("superseded") && g.retractedBy == Some("system")
      && g.validUntil == Some(rows[w].validFrom) && g.priorValidUntil == f.validUntil
  {
  }

  /** Contest and compaction change the status, and compaction drops the embedding; nothing else. */
  lemma StatusRow(rows: Rows, step: Step, id: FactId)
    requires Enabled(rows, step) && (step.Contest? || step.Compact?) && id in rows
    ensures id in Apply(rows, step)
    ensures
      var f, g := rows[id], Apply(rows, step)[id];
      && SameFact(f, g) && g.validUntil == f.validUntil && g.priorValidUntil == f.priorValidUntil
      && g.retractedAt == f.retractedAt && g.retractedBy == f.retractedBy && g.retractionReason == f.retractionReason
      && g.supersededBy == f.supersededBy
      && g.status == (if id !in step.ids then f.status else if step.Contest? then Status.Competing else Status.Compacted)
      && g.embedded == (f.embedded && (step.Contest? || id !in step.ids))
  {
  }

  lemma InsertedRow(rows: Rows, id: FactId, f: Fact)
    requires Enabled(rows, Insert(id, f))
    ensures
      var after := Apply(rows, Insert(id, f));
      after.Keys == rows.Keys + {id} && after[id] == f && forall x :: x in rows ==> after[x] == rows[x]
  {
  }

  // ---------------------------------------------------------- the resolver's run

  /** What a lost verdict leaves in the loser's row. */
  ghost predicate LostTo(rows: Rows, after: Rows, l: FactId, w: FactId) {
    && l in rows && w in rows && l in after && w in after
    && after[w] == rows[w]
    && SameFact(rows[l], after[l]) && after[l].retractedAt == rows[l].retractedAt && after[l].embedded == rows[l].embedded
    && after[l].status == Status.Superseded && after[l].supersededBy == Some(w)
    && after[l].retractionReason == Some("superseded") && after[l].retractedBy == Some("dreams")
    && after[l].validUntil == Some(Max(rows[l].validFrom, rows[w].validFrom))
    && after[l].priorValidUntil == if rows[l].validUntil.Some? then rows[l].validUntil else rows[l].priorValidUntil
  }

  /** The run honours each verdict: who wins keeps its row, who loses is superseded by the winner. */
  lemma VerdictHonoured(rows: Rows, cutoff: Instant, pairs: seq<Pair>, judge: nat -> Verdict, i: nat)
    requires Considered(rows, cutoff, pairs) && i < |pairs|
    ensures
      var after, a, b := ResolveAll(rows, pairs, judge), pairs[i].a, pairs[i].b;
      && (judge(i) == AWins ==> LostTo(rows, after, b, a))
      && (judge(i) == BWins ==> LostTo(rows, after, a, b))
      && (judge(i) == Unsure ==>
            a in rows && b in rows && a in after && b in after && after[a] == rows[a] && after[b] == rows[b])
  {
    assert IsPairGroup(rows, cutoff, pairs[i]);
    ResolvedAlone(rows, cutoff, pairs, judge, i, pairs[i].a);
    ResolvedAlone(rows, cutoff, pairs, judge, i, pairs[i].b);
  }

  /** A fact the resolver may pick: competing, not retracted, and recorded no later than the cutoff. */
  ghost predicate OldRival(rows: Rows, cutoff: Instant, id: FactId) {
    id in rows && rows[id].status == Status.Competing && rows[id].retractedAt.None? && rows[id].recordedAt <= cutoff
  }

  ghost predicate SameSubject(f: Fact, g: Fact) {
    f.entityId + "::" + f.predicateName == g.entityId + "::" + g.predicateName
  }

  /** Two facts are a considered pair exactly when they are the only old rivals about their subject; with the cap not
      reached, every such couple is considered. */
  lemma PairIs(rows: Rows, cutoff: Instant, p: Pair)
    ensures IsPairGroup(rows, cutoff, p) <==>
      && p.a != p.b && OldRival(rows, cutoff, p.a) && OldRival(rows, cutoff, p.b) && SameSubject(rows[p.a], rows[p.b])
      && (forall id :: OldRival(rows, cutoff, id) && SameSubject(rows[id], rows[p.a]) ==> id == p.a || id == p.b)
  {
    assert forall id :: id in Aged(rows, cutoff) <==> OldRival(rows, cutoff, id);
    assert forall id :: id in rows && p.a in rows ==> (SameSubject(rows[id], rows[p.a]) <==> Key(rows[id]) == Key(rows[p.a]));
  }

  lemma OldRivalsAreConsidered(rows: Rows, cutoff: Instant, pairs: seq<Pair>, p: Pair) returns (i: nat)
    requires Considered(rows, cutoff, pairs) && AllCovered(rows, cutoff, pairs) && IsPairGroup(rows, cutoff, p)
    ensures i < |pairs| && (pairs[i] == p || pairs[i] == Pair(p.b, p.a))
  {
    i :| 0 <= i < |pairs| && Key(rows[pairs[i].a]) == Key(rows[p.a]);
    assert IsPairGroup(rows, cutoff, pairs[i]);
  }
}
