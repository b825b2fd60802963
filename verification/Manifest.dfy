/** The migration manifest: file selection, order, the duplicate check, and the cache in front of it. */
module Manifest {
  import opened Common
  import opened Ordering
  import opened Migrator

  datatype File<T> = File(name: string, sql: seq<T>)

  datatype LoadResult<T> = Loaded(manifest: seq<Migration<T>>) | NoFiles | Duplicate(id: string)

  predicate IsDigit(c: char) {
    '0' <= c <= '9'
  }

  predicate IsLineEnd(c: char) {
    c == '\n' || c == '\r' || c == '\U{2028}' || c == '\U{2029}'
  }

  /** NNNN_description.surql */
  predicate IsMigrationFile(name: string) {
    var n := |name|;
    && n >= 12
    && IsDigit(name[0]) && IsDigit(name[1]) && IsDigit(name[2]) && IsDigit(name[3]) && name[4] == '_'
    && name[n-6..] == ".surql"
    && forall i :: 5 <= i < n - 6 ==> !IsLineEnd(name[i])
  }

  function Digit(c: char): int {
    c as int - '0' as int
  }

  function Number(name: string): int {
    if |name| < 4 then 0
    else 1000 * Digit(name[0]) + 100 * Digit(name[1]) + 10 * Digit(name[2]) + Digit(name[3])
  }

  predicate IsEligible<T>(f: File<T>) {
    IsMigrationFile(f.name)
  }

  /** The order Array.prototype.sort puts strings in. */
  predicate NameAtMost(a: string, b: string) {
    a == "" || (b != "" && (a[0] < b[0] || (a[0] == b[0] && NameAtMost(a[1..], b[1..]))))
  }

  lemma {:induction false} NameTotal(a: string, b: string)
    ensures NameAtMost(a, b) || NameAtMost(b, a)
  {
    if a != "" && b != "" && a[0] == b[0] {
      NameTotal(a[1..], b[1..]);
    }
  }

  lemma {:induction false} NameTransitive(a: string, b: string, c: string)
    requires NameAtMost(a, b) && NameAtMost(b, c)
    ensures NameAtMost(a, c)
  {
    if a != "" && a[0] == b[0] == c[0] {
      NameTransitive(a[1..], b[1..], c[1..]);
    }
  }

  function InsertFile<T>(f: File<T>, s: seq<File<T>>): seq<File<T>> {
    if s == [] then [f]
    else if NameAtMost(s[|s|-1].name, f.name) then s + [f]
    else InsertFile(f, s[..|s|-1]) + [s[|s|-1]]
  }

  function SortFiles<T>(s: seq<File<T>>): seq<File<T>> {
    if s == [] then [] else InsertFile(s[|s|-1], SortFiles(s[..|s|-1]))
  }

  ghost predicate InNameOrder<T>(s: seq<File<T>>) {
    forall i, j :: 0 <= i < j < |s| ==> NameAtMost(s[i].name, s[j].name)
  }

  lemma {:induction false} InsertFileKeeps<T>(f: File<T>, s: seq<File<T>>)
    ensures multiset(InsertFile(f, s)) == multiset(s) + multiset{f}
  {
    if s != [] && !NameAtMost(s[|s|-1].name, f.name) {
      InsertFileKeeps(f, s[..|s|-1]);
      FrontMultiset(s);
    }
  }

  lemma {:induction false} SortFilesKeeps<T>(s: seq<File<T>>)
    ensures multiset(SortFiles(s)) == multiset(s)
  {
    if s != [] {
      SortFilesKeeps(s[..|s|-1]);
      InsertFileKeeps(s[|s|-1], SortFiles(s[..|s|-1]));
      FrontMultiset(s);
    }
  }

  lemma {:induction false} InsertFileOrders<T>(f: File<T>, s: seq<File<T>>)
    requires InNameOrder(s)
    ensures InNameOrder(InsertFile(f, s))
  {
    if s != [] {
      var front, last := s[..|s|-1], s[|s|-1];
      if NameAtMost(last.name, f.name) {
        forall i | 0 <= i < |s| ensures NameAtMost(s[i].name, f.name) {
          if i < |s| - 1 {
            NameTransitive(s[i].name, last.name, f.name);
          }
        }
      } else {
        InsertFileOrders(f, front);
        NameTotal(f.name, last.name);
        InsertFileKeeps(f, front);
        forall i | 0 <= i < |InsertFile(f, front)| ensures NameAtMost(InsertFile(f, front)[i].name, last.name) {
          var x := InsertFile(f, front)[i];
          assert x in multiset(InsertFile(f, front));
          assert x == f || x in front;
        }
      }
    }
  }

  lemma {:induction false} SortFilesOrders<T>(s: seq<File<T>>)
    ensures InNameOrder(SortFiles(s))
  {
    if s != [] {
      SortFilesOrders(s[..|s|-1]);
      InsertFileOrders(s[|s|-1], SortFiles(s[..|s|-1]));
    }
  }

  /** Names start with their four digits, so name order is number order wherever numbers differ. */
  lemma NameOrderIsNumberOrder(a: string, b: string)
    requires IsMigrationFile(a) && IsMigrationFile(b) && NameAtMost(a, b)
    ensures Number(a) <= Number(b)
  {
    if a[0] == b[0] {
      assert NameAtMost(a[1..], b[1..]);
      if a[1] == b[1] {
        assert a[1..][1..] == a[2..] && b[1..][1..] == b[2..];
        assert NameAtMost(a[2..], b[2..]);
        if a[2] == b[2] {
          assert a[2..][1..] == a[3..] && b[2..][1..] == b[3..];
          assert NameAtMost(a[3..], b[3..]);
        }
      }
    }
  }

  function Eligible<T>(files: seq<File<T>>): seq<File<T>> {
    SortFiles(Filter((f: File<T>) => IsEligible(f), files))
  }

  function ToMigration<T>(f: File<T>): Migration<T> {
    Migration(if |f.name| < 4 then f.name else f.name[..4], f.name, f.sql)
  }

  function Build<T>(files: seq<File<T>>): (m: seq<Migration<T>>)
    ensures |m| == |Eligible(files)|
  {
    var e := Eligible(files);
    seq(|e|, i requires 0 <= i < |e| => ToMigration(e[i]))
  }

  lemma EligibleRow<T>(files: seq<File<T>>, i: nat)
    requires i < |Build(files)|
    ensures Eligible(files)[i] in files && IsEligible(Eligible(files)[i])
    ensures Build(files)[i] == ToMigration(Eligible(files)[i])
  {
    var p := (f: File<T>) => IsEligible(f);
    var x := Eligible(files)[i];
    SortFilesKeeps(Filter(p, files));
    assert x in multiset(Eligible(files));
    FilterElems(p, files, x);
  }

  /** The manifest is made of exactly the files named NNNN_description.surql, each under its four digits. */
  lemma BuildIs<T>(files: seq<File<T>>, m: Migration<T>)
    ensures m in Build(files) <==>
      exists f :: f in files && IsMigrationFile(f.name) && m == Migration(f.name[..4], f.name, f.sql)
  {
    var p := (f: File<T>) => IsEligible(f);
    SortFilesKeeps(Filter(p, files));
    if m in Build(files) {
      var i :| 0 <= i < |Build(files)| && Build(files)[i] == m;
      EligibleRow(files, i);
    }
    if f :| f in files && IsMigrationFile(f.name) && m == Migration(f.name[..4], f.name, f.sql) {
      FilterElems(p, files, f);
      assert f in multiset(Eligible(files));
      var i :| 0 <= i < |Eligible(files)| && Eligible(files)[i] == f;
      assert Build(files)[i] == m;
    }
  }

  /** Four digits, an underscore, something on one line, and the extension. */
  lemma FileNameIs(name: string)
    ensures IsMigrationFile(name) <==>
      && |name| >= 12 && (forall i :: 0 <= i < 4 ==> '0' <= name[i] <= '9') && name[4] == '_'
      && name[|name|-6..] == ".surql"
      && forall i :: 5 <= i < |name| - 6 ==> name[i] !in {'\n', '\r', '\U{2028}', '\U{2029}'}
  {
  }

  lemma SameDigits(a: int, b: int, c: int, d: int, p: int, q: int, r: int, s: int)
    requires 0 <= a < 10 && 0 <= b < 10 && 0 <= c < 10 && 0 <= d < 10
    requires 0 <= p < 10 && 0 <= q < 10 && 0 <= r < 10 && 0 <= s < 10
    requires 1000 * a + 100 * b + 10 * c + d == 1000 * p + 100 * q + 10 * r + s
    ensures a == p && b == q && c == r && d == s
  {
  }

  lemma SameNumberSameId(a: string, b: string)
    requires IsMigrationFile(a) && IsMigrationFile(b) && Number(a) == Number(b)
    ensures a[..4] == b[..4]
  {
    SameDigits(Digit(a[0]), Digit(a[1]), Digit(a[2]), Digit(a[3]), Digit(b[0]), Digit(b[1]), Digit(b[2]), Digit(b[3]));
  }

  /** Distinct ids come out in strictly increasing numeric order. */
  lemma Ascending<T>(files: seq<File<T>>, i: nat, j: nat)
    requires Distinct(Ids(Build(files))) && i < j < |Build(files)|
    ensures Number(Build(files)[i].name) < Number(Build(files)[j].name)
  {
    EligibleRow(files, i);
    EligibleRow(files, j);
    SortFilesOrders(Filter((f: File<T>) => IsEligible(f), files));
    var a, b := Eligible(files)[i], Eligible(files)[j];
    NameOrderIsNumberOrder(a.name, b.name);
    assert Ids(Build(files))[i] != Ids(Build(files))[j];
    if Number(a.name) == Number(b.name) {
      SameNumberSameId(a.name, b.name);
    }
  }

  /** The duplicate check: the first id that occurred before. */
  method FirstRepeat<T>(built: seq<Migration<T>>) returns (id: Option<string>)
    ensures id.None? <==> Distinct(Ids(built))
    ensures id.Some? ==> exists i, j :: 0 <= i < j < |built| && built[i].id == built[j].id == id.value
  {
    var ids: set<string> := {};
    for i := 0 to |built|
      invariant forall k :: 0 <= k < i ==> built[k].id in ids
      invariant forall x :: x in ids ==> exists k :: 0 <= k < i && built[k].id == x
      invariant forall k, m :: 0 <= k < m < i ==> built[k].id != built[m].id
    {
      if built[i].id in ids {
        assert forall k :: 0 <= k < |built| ==> Ids(built)[k] == built[k].id;
        return Some(built[i].id);
      }
      ids := ids + {built[i].id};
    }
    assert forall k :: 0 <= k < |built| ==> Ids(built)[k] == built[k].id;
    id := None;
  }

  class ManifestLoader<T> {
    var cached: Option<seq<Migration<T>>>

    constructor ()
      ensures cached == None
    {
      cached := None;
    }

    method LoadManifest(files: seq<File<T>>) returns (r: LoadResult<T>)
      modifies this
      ensures old(cached).Some? ==> r == Loaded(old(cached).value) && cached == old(cached)
      ensures old(cached).None? ==>
        && (r.NoFiles? <==> Build(files) == [])
        && (r.Loaded? <==> Build(files) != [] && Distinct(Ids(Build(files))))
        && (r.Loaded? ==> r.manifest == Build(files))
        && (r.Duplicate? ==> exists i, j :: 0 <= i < j < |Build(files)| && Build(files)[i].id == Build(files)[j].id == r.id)
        && cached == if Build(files) == [] then None else Some(Build(files))
    {
      if cached.Some? {
        return Loaded(cached.value);
      }
      var built := Build(files);
      if built == [] {
        return NoFiles;
      }
      cached := Some(built);
      var repeated := FirstRepeat(built);
      if repeated.Some? {
        return Duplicate(repeated.value);
      }
      r := Loaded(built);
    }

    /** The check guards only the first call: the rejected manifest is already cached, so asking again returns it. */
    method LoadAgain(files: seq<File<T>>, later: seq<File<T>>) returns (first: LoadResult<T>, second: LoadResult<T>)
      requires cached == None
      modifies this
      ensures first.Duplicate? ==> second == Loaded(Build(files)) && !Distinct(Ids(Build(files)))
      ensures second.Loaded? && Build(files) != [] ==>
        second.manifest == Build(files) && (Distinct(Ids(second.manifest)) <==> first.Loaded?)
    {
      first := LoadManifest(files);
      second := LoadManifest(later);
    }
  }

  // ------------------------------------------- a run over a manifest with repeats

  datatype RunEnd<S> = RunEnd(recorded: seq<string>, schema: S, completed: bool)

  function Pending<T>(manifest: seq<Migration<T>>, recorded: seq<string>): seq<Migration<T>> {
    Filter((m: Migration<T>) => m.id !in recorded, manifest)
  }

  /** Apply and record each pending migration; the log's unique index refuses an id it already has. */
  function RunOver<T, S>(exec: (S, T) -> S, pending: seq<Migration<T>>, recorded: seq<string>, schema: S): RunEnd<S> {
    if pending == [] then RunEnd(recorded, schema, true)
    else
      var m := pending[0];
      var after := Exec(exec, m.sql, schema);
      if m.id in recorded then RunEnd(recorded, after, false)
      else RunOver(exec, pending[1..], recorded + [m.id], after)
  }

  /** The first repeated file, at r, takes effect and is not recorded, and the run fails there. */
  lemma {:induction false} RepeatInterrupts<T, S>(exec: (S, T) -> S, pending: seq<Migration<T>>, recorded: seq<string>, schema: S, r: nat)
    requires r < |pending| && Distinct(recorded + Ids(pending[..r]))
    requires pending[r].id in recorded + Ids(pending[..r])
    ensures RunOver(exec, pending, recorded, schema)
         == RunEnd(recorded + Ids(pending[..r]), ExecAll(exec, pending[..r+1], schema), false)
    decreases r
  {
    var m := pending[0];
    var after := Exec(exec, m.sql, schema);
    assert pending[..r+1][0] == m && pending[..r+1][1..] == pending[1..][..r];
    if r == 0 {
      assert recorded + Ids(pending[..0]) == recorded;
      assert ExecAll(exec, pending[1..][..0], after) == after;
    } else {
      var rest := pending[1..];
      assert pending[..r] == [m] + rest[..r-1];
      assert Ids(pending[..r]) == [m.id] + Ids(rest[..r-1]);
      assert recorded + Ids(pending[..r]) == (recorded + [m.id]) + Ids(rest[..r-1]);
      assert m.id !in recorded by {
        var all := recorded + Ids(pending[..r]);
        assert all[|recorded|] == m.id && forall i :: 0 <= i < |recorded| ==> all[i] == recorded[i];
      }
      RepeatInterrupts(exec, rest, recorded + [m.id], after, r - 1);
    }
  }

  /** From an empty log: the first run fails at the first repeated file, after its statements took effect, and from then
      on no file with that id is pending: the repeat is never recorded and never applied again. */
  lemma {:induction false} RepeatAppliedOnce<T, S>(exec: (S, T) -> S, manifest: seq<Migration<T>>, schema: S, r: nat, later: seq<string>)
    requires r < |manifest| && Distinct(Ids(manifest[..r])) && manifest[r].id in Ids(manifest[..r])
    ensures
      var end := RunOver(exec, Pending(manifest, []), [], schema);
      && !end.completed && end.recorded == Ids(manifest[..r])
      && end.schema == ExecAll(exec, manifest[..r+1], schema)
      && (forall m :: m in Pending(manifest, end.recorded + later) ==> m.id != manifest[r].id)
  {
    FilterWhole((m: Migration<T>) => m.id !in [], manifest);
    assert [] + Ids(manifest[..r]) == Ids(manifest[..r]);
    RepeatInterrupts(exec, manifest, [], schema, r);
    var recorded := Ids(manifest[..r]) + later;
    forall m | m in Pending(manifest, recorded) ensures m.id != manifest[r].id {
      FilterElems((x: Migration<T>) => x.id !in recorded, manifest, m);
    }
  }
}
