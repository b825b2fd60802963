/** Small vocabulary shared by every component model. */
module Common {

  datatype Option<+T> = None | Some(value: T)

  /** No element occurs twice. */
  ghost predicate Distinct<T>(s: seq<T>) {
    forall i, j :: 0 <= i < j < |s| ==> s[i] != s[j]
  }

  function Elems<T>(s: seq<T>): set<T> {
    set x | x in s
  }

  lemma {:induction false} DistinctSize<T>(s: seq<T>)
    requires Distinct(s)
    ensures |Elems(s)| == |s|
  {
    if s != [] {
      var front, last := s[..|s|-1], s[|s|-1];
      DistinctSize(front);
      assert Elems(s) == Elems(front) + {last};
    }
  }

  lemma Reassociate<T>(a: seq<T>, b: seq<T>, c: seq<T>)
    ensures a + (b + c) == a + b + c
  {
  }

  lemma {:induction false} SubsetSize<T>(a: set<T>, b: set<T>)
    requires a <= b
    ensures |a| <= |b|
  {
    if a != {} {
      var x :| x in a;
      SubsetSize(a - {x}, b - {x});
    }
  }

  function Max(a: int, b: int): int {
    if a > b then a else b
  }

  function Min(a: int, b: int): int {
    if a < b then a else b
  }

  /** The rows of a query result, in whatever order the database returns them. */
  method Enumerate<T(==)>(ids: set<T>) returns (rows: seq<T>)
    ensures Distinct(rows) && Elems(rows) == ids
  {
    rows := [];
    var rest := ids;
    while rest != {}
      invariant Distinct(rows)
      invariant Elems(rows) + rest == ids && Elems(rows) !! rest
      decreases rest
    {
      var x :| x in rest;
      rows, rest := rows + [x], rest - {x};
    }
  }
}
