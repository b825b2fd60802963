/** The fact service: retract, its cascade over derivedFrom, and the revival of what the root superseded. */
module Facts {
  import opened Common
  import opened FactModel

  datatype RetractOutcome =
    | NotFound
    | Forbidden
    | AlreadyRetracted(at: Instant)
    | Done(cascaded: seq<FactId>, revived: seq<FactId>)

  predicate RetractRequiresAdmin(f: Fact) {
    f.predicateName in {"billing_event", "human_declared"} || f.sourceKind == Some("legal")
  }

  /** A set that holds the root's children and the children of its own members holds all that is derived. */
  lemma {:induction false} ClosedHoldsPath(rows: Rows, root: FactId, closed: set<FactId>, path: seq<FactId>)
    requires DerivationPath(rows, root, path)
    requires forall c :: ChildOf(rows, root, c) ==> c in closed
    requires forall u, c :: u in closed && ChildOf(rows, u, c) ==> c in closed
    ensures path[|path|-1] in closed
  {
    if |path| > 1 {
      var front := path[..|path|-1];
      assert front[|front|-1] == path[|path|-2];
      ClosedHoldsPath(rows, root, closed, front);
    }
  }

  lemma ReachesChild(rows: Rows, root: FactId, u: FactId, c: FactId)
    requires u == root || Reaches(rows, root, u)
    requires ChildOf(rows, u, c)
    ensures Reaches(rows, root, c)
  {
    if Reaches(rows, root, u) {
      var path :| DerivationPath(rows, root, path) && path[|path|-1] == u;
      var longer := path + [c];
      assert DerivationPath(rows, root, longer) && longer[|longer|-1] == c;
    } else {
      assert DerivationPath(rows, root, [c]) && [c][|[c]|-1] == c;
    }
  }

  function Children(rows: Rows, parent: FactId): set<FactId> {
    set c | c in rows && ChildOf(rows, parent, c)
  }

  /** Every child, at the start, of a fact in `done` is in `found`. */
  ghost predicate Expanded(rows: Rows, done: set<FactId>, found: set<FactId>) {
    forall u, c :: u in done && ChildOf(rows, u, c) ==> c in found
  }

  lemma DerivedIsLeast(rows: Rows, root: FactId, found: set<FactId>)
    requires found <= Derived(rows, root)
    requires Expanded(rows, found + {root}, found)
    ensures found == Derived(rows, root)
  {
    forall id | id in Derived(rows, root) ensures id in found {
      var path :| DerivationPath(rows, root, path) && path[|path|-1] == id;
      ClosedHoldsPath(rows, root, found, path);
    }
  }

  /** The state of the walk between rounds, against the store `before` it began. */
  ghost predicate WalkInv(before: Rows, root: FactId, cascaded: seq<FactId>, stack: seq<FactId>,
                          rows: Rows, now: Instant, reason: string)
  {
    && rows == CascadeRows(before, Elems(cascaded), now, reason)
    && Distinct(cascaded)
    && Elems(cascaded) <= Derived(before, root)
    && Elems(stack) <= Elems(cascaded) + {root}
    && Expanded(before, Elems(cascaded) + {root} - Elems(stack), Elems(cascaded))
  }

  lemma WalkStep(before: Rows, root: FactId, cascaded: seq<FactId>, stack: seq<FactId>, children: seq<FactId>,
                 now: Instant, reason: string)
    requires stack != [] && Distinct(children)
    requires WalkInv(before, root, cascaded, stack, CascadeRows(before, Elems(cascaded), now, reason), now, reason)
    requires Elems(children) == Children(CascadeRows(before, Elems(cascaded), now, reason), stack[|stack|-1])
    ensures WalkInv(before, root, cascaded + children, stack[..|stack|-1] + children,
                    CascadeRows(CascadeRows(before, Elems(cascaded), now, reason), Elems(children), now, reason), now, reason)
  {
    var current, rest := stack[|stack|-1], stack[..|stack|-1];
    var found, added := Elems(cascaded), Elems(children);
    assert current in Elems(stack);
    NewChildren(before, root, found, current, added, now, reason);
    assert stack == rest + [current];
    assert Elems(stack) == Elems(rest) + {current};
    assert Elems(cascaded + children) == found + added;
    assert Elems(rest + children) == Elems(rest) + added;
    ConcatDistinct(cascaded, children);
  }

  lemma ConcatDistinct<T>(a: seq<T>, b: seq<T>)
    requires Distinct(a) && Distinct(b) && Elems(a) !! Elems(b)
    ensures Distinct(a + b)
  {
    forall i, j | 0 <= i < j < |a + b| ensures (a + b)[i] != (a + b)[j] {
      if i < |a| <= j {
        assert a[i] in Elems(a) && b[j-|a|] in Elems(b);
      }
    }
  }

  /** What a round finds, seen from the store at the start of the walk. */
  lemma NewChildren(rows: Rows, root: FactId, found: set<FactId>, u: FactId, children: set<FactId>, now: Instant, reason: string)
    requires found <= Derived(rows, root) && u in found + {root}
    requires children == Children(CascadeRows(rows, found, now, reason), u)
    ensures children !! found && found + children <= Derived(rows, root)
    ensures forall c :: ChildOf(rows, u, c) ==> c in found + children
    ensures CascadeRows(CascadeRows(rows, found, now, reason), children, now, reason)
         == CascadeRows(rows, found + children, now, reason)
  {
    var mid := CascadeRows(rows, found, now, reason);
    forall c | c in children ensures c in Derived(rows, root) && c !in found {
      assert ChildOf(mid, u, c);
      ReachesChild(rows, root, u, c);
    }
    forall c | ChildOf(rows, u, c) ensures c in found + children {
      if c !in found {
        assert ChildOf(mid, u, c);
      }
    }
  }

  ghost function Unretracted(rows: Rows): set<FactId> {
    set id | id in rows && rows[id].retractedAt.None?
  }

  class FactsService {
    var rows: Rows

    constructor (initial: Rows)
      ensures rows == initial
    {
      rows := initial;
    }

    method Retract(id: FactId, actor: string, reason: string, scopes: Option<set<string>>, now: Instant)
      returns (r: RetractOutcome)
      modifies this
      ensures r.NotFound? <==> id !in old(rows)
      ensures id in old(rows) ==>
        (r.Forbidden? <==> scopes.Some? && RetractRequiresAdmin(old(rows)[id]) && "brain:admin" !in scopes.value)
      ensures r.AlreadyRetracted? ==> old(rows)[id].retractedAt == Some(r.at)
      ensures r.Done? ==> old(rows)[id].retractedAt.None?
      ensures rows == if r.Done? then RetractRows(old(rows), id, actor, reason, now) else old(rows)
      ensures r.Done? ==>
        && Distinct(r.cascaded) && Elems(r.cascaded) == Derived(old(rows), id)
        && Distinct(r.revived) && Elems(r.cascaded) !! Elems(r.revived)
        && (forall f :: f in r.revived <==> f in old(rows) && f != id && f !in r.cascaded && Revivable(old(rows)[f], id))
    {
      if id !in rows {
        return NotFound;
      }
      var existing := rows[id];
      if scopes.Some? && RetractRequiresAdmin(existing) && "brain:admin" !in scopes.value {
        return Forbidden;
      }
      if existing.retractedAt.Some? {
        return AlreadyRetracted(existing.retractedAt.value);
      }
      var cascaded := CascadeRetract(id, now, reason);
      rows := rows[id := RootPatch(rows[id], now, actor, reason)];
      var revived := ReviveSupersededBy(id);
      r := Done(cascaded, revived);
    }

    /** Depth-first walk with an explicit stack; retracted facts are not found again, so cycles end. */
    method CascadeRetract(root: FactId, now: Instant, reason: string) returns (cascaded: seq<FactId>)
      modifies this
      ensures rows == CascadeRows(old(rows), Derived(old(rows), root), now, reason)
      ensures Distinct(cascaded) && Elems(cascaded) == Derived(old(rows), root)
    {
      ghost var before := rows;
      cascaded := [];
      var stack := [root];
      assert WalkInv(before, root, cascaded, stack, rows, now, reason);
      while stack != []
        invariant WalkInv(before, root, cascaded, stack, rows, now, reason)
        decreases |Unretracted(rows)|, |stack|
      {
        var current := stack[|stack|-1];
        var children := RetractChildren(current, now, reason);
        WalkStep(before, root, cascaded, stack, children, now, reason);
        cascaded := cascaded + children;
        stack := stack[..|stack|-1] + children;
      }
      DerivedIsLeast(before, root, Elems(cascaded));
    }

    /** One round of the walk: select the unretracted children of `parent` and retract each in turn. */
    method RetractChildren(parent: FactId, now: Instant, reason: string) returns (children: seq<FactId>)
      modifies this
      ensures Distinct(children) && Elems(children) == Children(old(rows), parent)
      ensures rows == CascadeRows(old(rows), Elems(children), now, reason)
      ensures |Unretracted(rows)| <= |Unretracted(old(rows))|
      ensures children != [] ==> |Unretracted(rows)| < |Unretracted(old(rows))|
    {
      ghost var before := rows;
      children := Enumerate(Children(rows, parent));
      for k := 0 to |children|
        invariant rows == CascadeRows(before, Elems(children[..k]), now, reason)
      {
        var child := children[k];
        assert child in Elems(children);
        assert Elems(children[..k+1]) == Elems(children[..k]) + {child};
        rows := rows[child := CascadePatch(rows[child], now, reason)];
      }
      assert children[..|children|] == children;
      assert Unretracted(rows) <= Unretracted(before);
      SubsetSize(Unretracted(rows), Unretracted(before));
      if children != [] {
        assert children[0] in Elems(children) && children[0] in Unretracted(before) && children[0] !in Unretracted(rows);
        SmallerSet(Unretracted(rows), Unretracted(before));
      }
    }

    method ReviveSupersededBy(root: FactId) returns (revived: seq<FactId>)
      modifies this
      ensures rows == ReviveRows(old(rows), root)
      ensures Distinct(revived)
      ensures forall f :: f in revived <==> f in old(rows) && Revivable(old(rows)[f], root)
    {
      ghost var before := rows;
      revived := [];
      var candidates := Enumerate(set c: FactId | c in rows && Revivable(rows[c], root));
      assert forall c :: c in Elems(candidates) <==> c in before && Revivable(before[c], root);
      for k := 0 to |candidates|
        invariant revived == candidates[..k]
        invariant rows.Keys == before.Keys
        invariant forall c :: c in before ==> rows[c] == if c in candidates[..k] then RevivePatch(before[c]) else before[c]
      {
        var c := candidates[k];
        assert c !in candidates[..k] && c in Elems(candidates);
        assert candidates[..k+1] == candidates[..k] + [c];
        rows := rows[c := RevivePatch(rows[c])];
        revived := revived + [c];
      }
      assert candidates[..|candidates|] == candidates;
      assert rows == ReviveRows(before, root);
    }
  }

  lemma SmallerSet<T>(a: set<T>, b: set<T>)
    requires a < b
    ensures |a| < |b|
  {
    var x :| x in b && x !in a;
    assert a <= b - {x};
    SubsetSize(a, b - {x});
  }
}
