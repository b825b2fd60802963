/** Filtering and stable sorting by an integer key, as WHERE, ORDER BY and Array.prototype.sort do them. */
module Ordering {
  import opened Common

  function Filter<T>(p: T -> bool, s: seq<T>): seq<T> {
    if s == [] then []
    else Filter(p, s[..|s|-1]) + (if p(s[|s|-1]) then [s[|s|-1]] else [])
  }

  /** Insert after every element whose key is not larger. */
  function Insert<T>(key: T -> int, x: T, s: seq<T>): seq<T> {
    if s == [] then [x]
    else if key(s[|s|-1]) <= key(x) then s + [x]
    else Insert(key, x, s[..|s|-1]) + [s[|s|-1]]
  }

  function SortBy<T>(key: T -> int, s: seq<T>): seq<T> {
    if s == [] then [] else Insert(key, s[|s|-1], SortBy(key, s[..|s|-1]))
  }

  ghost predicate Sorted<T>(key: T -> int, s: seq<T>) {
    forall i, j :: 0 <= i < j < |s| ==> key(s[i]) <= key(s[j])
  }

  // ------------------------------------------------------------ filtering

  lemma FilterSnoc<T>(p: T -> bool, s: seq<T>, x: T)
    ensures Filter(p, s + [x]) == Filter(p, s) + (if p(x) then [x] else [])
  {
    assert (s + [x])[..|s|] == s;
  }

  lemma {:induction false} FilterElems<T>(p: T -> bool, s: seq<T>, x: T)
    ensures x in Filter(p, s) <==> x in s && p(x)
  {
    if s != [] {
      FilterElems(p, s[..|s|-1], x);
      assert s == s[..|s|-1] + [s[|s|-1]];
    }
  }

  lemma {:induction false} FilterConcat<T>(p: T -> bool, a: seq<T>, b: seq<T>)
    ensures Filter(p, a + b) == Filter(p, a) + Filter(p, b)
  {
    if b == [] {
      assert a + b == a;
    } else {
      var front, last := b[..|b|-1], b[|b|-1];
      FilterConcat(p, a, front);
      FilterSnoc(p, a + front, last);
      assert a + b == (a + front) + [last];
    }
  }

  lemma {:induction false} FilterFilter<T>(p: T -> bool, q: T -> bool, r: T -> bool, s: seq<T>)
    requires forall i :: 0 <= i < |s| ==> (r(s[i]) <==> p(s[i]) && q(s[i]))
    ensures Filter(q, Filter(p, s)) == Filter(r, s)
  {
    if s != [] {
      var front, last := s[..|s|-1], s[|s|-1];
      FilterFilter(p, q, r, front);
      if p(last) {
        FilterSnoc(q, Filter(p, front), last);
      } else {
        assert Filter(p, s) == Filter(p, front);
      }
    }
  }

  lemma {:induction false} FilterAgree<T>(p: T -> bool, q: T -> bool, s: seq<T>)
    requires forall i :: 0 <= i < |s| ==> p(s[i]) == q(s[i])
    ensures Filter(p, s) == Filter(q, s)
  {
    if s != [] {
      FilterAgree(p, q, s[..|s|-1]);
    }
  }

  // -------------------------------------------------------------- sorting

  lemma {:induction false} FilterDistinct<T>(p: T -> bool, s: seq<T>)
    requires Distinct(s)
    ensures Distinct(Filter(p, s))
  {
    if s != [] {
      var front := s[..|s|-1];
      FilterDistinct(p, front);
      forall i | 0 <= i < |Filter(p, front)| ensures Filter(p, front)[i] != s[|s|-1] {
        FilterElems(p, front, Filter(p, front)[i]);
      }
    }
  }

  /** All but the occurrences of x. */
  function Drop<T(==)>(s: seq<T>, x: T): seq<T> {
    Filter((y: T) => y != x, s)
  }

  lemma {:induction false} DropAbsent<T>(s: seq<T>, x: T)
    requires x !in s
    ensures Drop(s, x) == s
  {
    if s != [] {
      DropAbsent(s[..|s|-1], x);
    }
  }

  lemma DropElems<T>(s: seq<T>, x: T, y: T)
    ensures y in Drop(s, x) <==> y in s && y != x
  {
    FilterElems((z: T) => z != x, s, y);
  }

  lemma DropConcat<T>(a: seq<T>, b: seq<T>, x: T)
    ensures Drop(a + b, x) == Drop(a, x) + Drop(b, x)
  {
    FilterConcat((y: T) => y != x, a, b);
  }

  lemma DropFiltered<T>(p: T -> bool, q: T -> bool, s: seq<T>, x: T)
    requires forall i :: 0 <= i < |s| ==> (q(s[i]) <==> p(s[i]) && s[i] != x)
    ensures Drop(Filter(p, s), x) == Filter(q, s)
  {
    FilterFilter(p, (y: T) => y != x, q, s);
  }

  lemma {:induction false} DropMiddle<T>(head: seq<T>, x: T, tail: seq<T>)
    requires x !in head && x !in tail
    ensures Drop(head + [x] + tail, x) == head + tail
  {
    DropConcat(head + [x], tail, x);
    FilterSnoc((y: T) => y != x, head, x);
    DropAbsent(head, x);
    DropAbsent(tail, x);
  }

  lemma {:induction false} InsertPermutes<T>(key: T -> int, x: T, s: seq<T>)
    ensures multiset(Insert(key, x, s)) == multiset(s) + multiset{x}
  {
    if s != [] && key(s[|s|-1]) > key(x) {
      InsertPermutes(key, x, s[..|s|-1]);
      assert s == s[..|s|-1] + [s[|s|-1]];
    }
  }

  lemma {:induction false} SortPermutes<T>(key: T -> int, s: seq<T>)
    ensures multiset(SortBy(key, s)) == multiset(s)
    ensures |SortBy(key, s)| == |s|
  {
    if s != [] {
      SortPermutes(key, s[..|s|-1]);
      InsertPermutes(key, s[|s|-1], SortBy(key, s[..|s|-1]));
      FrontMultiset(s);
      assert multiset(s) == multiset(s[..|s|-1]) + multiset{s[|s|-1]};
    }
    SameSize(SortBy(key, s), s);
  }

  lemma SameSize<T>(a: seq<T>, b: seq<T>)
    requires multiset(a) == multiset(b)
    ensures |a| == |b|
  {
    assert |a| == |multiset(a)| == |multiset(b)| == |b|;
  }

  lemma SortElems<T>(key: T -> int, s: seq<T>, x: T)
    ensures x in SortBy(key, s) <==> x in s
  {
    SortPermutes(key, s);
    assert x in SortBy(key, s) <==> x in multiset(SortBy(key, s));
  }

  lemma InsertElems<T>(key: T -> int, x: T, s: seq<T>, y: T)
    ensures y in Insert(key, x, s) <==> y == x || y in s
  {
    InsertPermutes(key, x, s);
    assert y in Insert(key, x, s) <==> y in multiset(Insert(key, x, s));
  }

  lemma {:induction false} InsertSorted<T>(key: T -> int, x: T, s: seq<T>)
    requires Sorted(key, s)
    ensures Sorted(key, Insert(key, x, s))
  {
    if s != [] && key(s[|s|-1]) > key(x) {
      var front, last := s[..|s|-1], s[|s|-1];
      InsertSorted(key, x, front);
      var r := Insert(key, x, front);
      forall i | 0 <= i < |r| ensures key(r[i]) <= key(last) {
        InsertElems(key, x, front, r[i]);
      }
    }
  }

  lemma {:induction false} SortSorts<T>(key: T -> int, s: seq<T>)
    ensures Sorted(key, SortBy(key, s))
  {
    if s != [] {
      SortSorts(key, s[..|s|-1]);
      InsertSorted(key, s[|s|-1], SortBy(key, s[..|s|-1]));
    }
  }

  lemma {:induction false} InsertHigh<T>(key: T -> int, x: T, low: seq<T>, high: seq<T>, cut: int)
    requires forall i :: 0 <= i < |low| ==> key(low[i]) < cut
    requires key(x) >= cut
    ensures Insert(key, x, low + high) == low + Insert(key, x, high)
  {
    if high == [] {
      assert low + high == low;
    } else if key(high[|high|-1]) > key(x) {
      var front := high[..|high|-1];
      assert (low + high)[..|low + high|-1] == low + front;
      InsertHigh(key, x, low, front, cut);
    }
  }

  lemma {:induction false} InsertLow<T>(key: T -> int, x: T, low: seq<T>, high: seq<T>, cut: int)
    requires forall i :: 0 <= i < |high| ==> key(high[i]) >= cut
    requires key(x) < cut
    ensures Insert(key, x, low + high) == Insert(key, x, low) + high
  {
    if high == [] {
      assert low + high == low;
      assert Insert(key, x, low) + high == Insert(key, x, low);
    } else {
      var front := high[..|high|-1];
      assert (low + high)[..|low + high|-1] == low + front;
      InsertLow(key, x, low, front, cut);
      assert high == front + [high[|high|-1]];
    }
  }

  /** A stable sort can be cut at any key. */
  lemma {:induction false} SortSplits<T>(key: T -> int, s: seq<T>, cut: int, below: T -> bool, above: T -> bool)
    requires forall i :: 0 <= i < |s| ==> (below(s[i]) <==> key(s[i]) < cut) && (above(s[i]) <==> key(s[i]) >= cut)
    ensures SortBy(key, s) == SortBy(key, Filter(below, s)) + SortBy(key, Filter(above, s))
  {
    if s != [] {
      var front, x := s[..|s|-1], s[|s|-1];
      SortSplits(key, front, cut, below, above);
      var low, high := Filter(below, front), Filter(above, front);
      var sl, sh := SortBy(key, low), SortBy(key, high);
      if key(x) < cut {
        forall i | 0 <= i < |sh| ensures key(sh[i]) >= cut {
          SortElems(key, high, sh[i]);
          FilterElems(above, front, sh[i]);
        }
        InsertLow(key, x, sl, sh, cut);
        assert (low + [x])[..|low|] == low;
        assert Filter(above, s) == high;
      } else {
        forall i | 0 <= i < |sl| ensures key(sl[i]) < cut {
          SortElems(key, low, sl[i]);
          FilterElems(below, front, sl[i]);
        }
        InsertHigh(key, x, sl, sh, cut);
        assert (high + [x])[..|high|] == high;
        assert Filter(below, s) == low;
      }
    }
  }

  /** Sorting a strictly increasing sequence that was handed over in any order gives it back. */
  lemma SortRestores<T>(key: T -> int, s: seq<T>, t: seq<T>)
    requires multiset(s) == multiset(t)
    requires forall i, j :: 0 <= i < j < |t| ==> key(t[i]) < key(t[j])
    ensures SortBy(key, s) == t
  {
    SortSorts(key, s);
    SortPermutes(key, s);
    SortedPermutation(key, SortBy(key, s), t);
  }

  lemma {:induction false} SortedPermutation<T>(key: T -> int, s: seq<T>, t: seq<T>)
    requires multiset(s) == multiset(t) && Sorted(key, s)
    requires forall i, j :: 0 <= i < j < |t| ==> key(t[i]) < key(t[j])
    ensures s == t
  {
    if t != [] {
      LastAgrees(key, s, t);
      SameFronts(s, t);
      SortedPermutation(key, s[..|s|-1], t[..|t|-1]);
      assert s == s[..|s|-1] + [s[|s|-1]] && t == t[..|t|-1] + [t[|t|-1]];
    }
  }

  lemma SameFronts<T>(s: seq<T>, t: seq<T>)
    requires multiset(s) == multiset(t) && |s| == |t| > 0 && s[|s|-1] == t[|t|-1]
    ensures multiset(s[..|s|-1]) == multiset(t[..|t|-1])
  {
    FrontMultiset(s);
    FrontMultiset(t);
  }

  lemma FrontMultiset<T>(s: seq<T>)
    requires s != []
    ensures multiset(s[..|s|-1]) == multiset(s) - multiset{s[|s|-1]}
  {
    assert s == s[..|s|-1] + [s[|s|-1]];
  }

  lemma LastAgrees<T>(key: T -> int, s: seq<T>, t: seq<T>)
    requires multiset(s) == multiset(t) && Sorted(key, s) && t != []
    requires forall i, j :: 0 <= i < j < |t| ==> key(t[i]) < key(t[j])
    ensures |s| == |t| && s[|s|-1] == t[|t|-1]
  {
    assert |s| == |multiset(s)| == |multiset(t)| == |t|;
    var n := |t| - 1;
    assert s[n] in multiset(t) && t[n] in multiset(s);
    var i :| 0 <= i < |t| && t[i] == s[n];
    var j :| 0 <= j < |s| && s[j] == t[n];
    assert j < n ==> key(s[j]) <= key(s[n]);
  }
}
