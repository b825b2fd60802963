/** Clauses are atoms: splitting a clause again gives that clause back. */
module ClauseAtoms {
  import opened Common
  import opened Text
  import opened ClauseText
  import opened SentenceSplit
  import opened ClauseSplitter

  /** t stands at `off` in s. */
  ghost predicate StandsIn(s: string, t: string, off: nat) {
    off + |t| <= |s| && t == s[off..off+|t|]
  }

  lemma StandsInTransitive(text: string, s: string, t: string, base: nat, off: nat)
    requires StandsIn(text, s, base) && StandsIn(s, t, off)
    ensures StandsIn(text, t, base + off)
  {
    SliceOfSlice(text, s, base, off, off + |t|);
  }

  // --------------------------------- a match in a slice is a match in the whole

  lemma {:induction false} RunLocal(class_: char -> bool, s: string, t: string, off: nat, p: nat)
    requires StandsIn(s, t, off) && p <= |t| && RunEnd(class_, t, p) < |t|
    ensures RunEnd(class_, s, off + p) == off + RunEnd(class_, t, p)
    decreases |t| - p
  {
    assert t[p] == s[off+p];
    if class_(t[p]) {
      RunLocal(class_, s, t, off, p + 1);
    }
  }

  lemma {:induction false} WordLocal(words: seq<string>, s: string, t: string, off: nat, p: nat)
    requires StandsIn(s, t, off) && WordLength(words, t, p) > 0 && forall k :: 0 <= k < |words| ==> words[k] != ""
    ensures WordLength(words, s, off + p) > 0
  {
    var w := words[0];
    if SpelledAt(t, w, p) && p + |w| < |t| && IsSpace(t[p+|w|]) {
      forall i | 0 <= i < |w|
        ensures Lower(s[off+p+i]) == w[i]
      {
        assert s[off+p+i] == t[p+i];
      }
      assert s[off+p+|w|] == t[p+|w|];
    } else {
      WordLocal(words[1..], s, t, off, p);
    }
  }

  lemma ConjunctionLocal(s: string, t: string, off: nat, p: nat)
    requires StandsIn(s, t, off) && p < |t| && ConjunctionLength(t, p) > 0
    ensures ConjunctionLength(s, off + p) > 0
  {
    var q := RunEnd(IsSpace, t, p);
    WordLengthFits(CONJUNCTIONS, t, q);
    RunLocal(IsSpace, s, t, off, p);
    WordLocal(CONJUNCTIONS, s, t, off, q);
  }

  lemma SemicolonLocal(s: string, t: string, off: nat, p: nat)
    requires StandsIn(s, t, off) && p < |t| && SemicolonLength(t, p) > 0
    ensures SemicolonLength(s, off + p) > 0
  {
    var q := RunEnd(IsSpace, t, p);
    RunLocal(IsSpace, s, t, off, p);
    assert t[q] == s[off+q] && t[q+1] == s[off+q+1];
  }

  lemma BoundaryLocal(s: string, t: string, off: nat, p: nat)
    requires StandsIn(s, t, off) && BoundaryAt(t, p).Some?
    ensures BoundaryAt(s, off + p) == Some(Span(off + BoundaryAt(t, p).value.start, off + BoundaryAt(t, p).value.end))
  {
    var gap := BoundaryAt(t, p).value;
    RunLocal(IsTerminator, s, t, off, p);
    RunLocal(IsSpace, s, t, off, gap.start);
    assert t[gap.end] == s[off+gap.end];
  }

  // -------------------------------------------------- nothing to split at inside

  /** No boundary opens before p and closes inside its sentence: the gap is at the sentence's end, if anywhere. */
  lemma {:induction false} NoInnerBoundary(text: string, a: nat, p: nat, k: nat, x: nat)
    requires a <= p <= |text| && forall y :: a <= y < p ==> BoundaryAt(text, y).None?
    requires k < |Sentences(text, a, p)|
    requires Sentences(text, a, p)[k].start <= x < Sentences(text, a, p)[k].end
    ensures BoundaryAt(text, x).Some? ==> BoundaryAt(text, x).value.start >= Sentences(text, a, p)[k].end
    decreases |text| - p
  {
    if p == |text| {
    } else if text[p] == SENTINEL {
      if k > 0 {
        NoInnerBoundary(text, p + 1, p + 1, k - 1, x);
      }
    } else if BoundaryAt(text, p).Some? {
      var gap := BoundaryAt(text, p).value;
      if k > 0 {
        NoInnerBoundary(text, gap.end, gap.end, k - 1, x);
      } else if p <= x {
        SameRun(IsTerminator, text, p, x);
      }
    } else {
      NoInnerBoundary(text, a, p + 1, k, x);
    }
  }

  lemma {:induction false} SameRun(class_: char -> bool, s: string, p: nat, x: nat)
    requires p <= x < RunEnd(class_, s, p)
    ensures RunEnd(class_, s, x) == RunEnd(class_, s, p)
    decreases x - p
  {
    if p < x {
      SameRun(class_, s, p + 1, x);
    }
  }

  ghost predicate UncutAt(s: string, p: nat) {
    ConjunctionLength(s, p) == 0 && SemicolonLength(s, p) == 0
  }

  /** No separator starts anywhere in s[lo..hi). */
  ghost predicate Uncut(s: string, lo: nat, hi: nat) {
    forall p: nat :: lo <= p < hi ==> UncutAt(s, p)
  }

  lemma PartUncut(s: string, cursor: nat, hi: nat)
    requires cursor <= hi <= |s|
    requires NextSeparator(s, cursor).Some? ==> hi <= NextSeparator(s, cursor).value.start
    ensures Uncut(s, cursor, hi)
  {
    forall p: nat | cursor <= p < hi
      ensures UncutAt(s, p)
    {
      if ConjunctionLength(s, p) > 0 {
        ExecIsFirst(ConjunctionLength, s, cursor, p);
      }
      if SemicolonLength(s, p) > 0 {
        ExecIsFirst(SemicolonLength, s, cursor, p);
      }
    }
  }

  ghost predicate CleanEdges(t: string) {
    t != "" && !IsSpace(t[0]) && !IsTail(t[|t|-1])
  }

  lemma CoreClause(s: string, base: nat, cursor: nat, hi: nat, c: Clause) returns (lo: nat)
    requires cursor <= hi <= |s| && Uncut(s, cursor, hi) && c in Core(Part(s[cursor..hi], base + cursor))
    ensures StandsIn(s, c.text, lo) && Uncut(s, lo, lo + |c.text|) && CleanEdges(c.text)
  {
    var part := s[cursor..hi];
    var r := CoreSpan(part);
    lo := cursor + r.start;
    CoreEdges(part);
    assert StandsIn(s, part, cursor);
    SliceOfSlice(s, part, cursor, r.start, r.end);
  }

  lemma {:induction false} ClauseInParts(s: string, base: nat, cursor: nat, c: Clause) returns (lo: nat)
    requires c in Gather(Core, Parts(s, base, cursor))
    ensures StandsIn(s, c.text, lo) && Uncut(s, lo, lo + |c.text|) && CleanEdges(c.text)
    decreases |s| - cursor
  {
    match NextSeparator(s, cursor)
    case None =>
      assert s[cursor..|s|] == s[cursor..];
      GatherOne(Core, Part(s[cursor..], base + cursor));
      PartUncut(s, cursor, |s|);
      lo := CoreClause(s, base, cursor, |s|, c);
    case Some(sep) =>
      var part, rest := Part(s[cursor..sep.start], base + cursor), Parts(s, base, sep.end);
      GatherCons(Core, part, rest);
      if c in Core(part) {
        PartUncut(s, cursor, sep.start);
        lo := CoreClause(s, base, cursor, sep.start, c);
      } else {
        lo := ClauseInParts(s, base, sep.end, c);
      }
  }

  lemma {:induction false} GatheredFrom<A, B>(f: A -> seq<B>, xs: seq<A>, y: B) returns (k: nat)
    requires y in Gather(f, xs)
    ensures k < |xs| && y in f(xs[k])
  {
    if y in f(xs[|xs|-1]) {
      k := |xs| - 1;
    } else {
      k := GatheredFrom(f, xs[..|xs|-1], y);
    }
  }

  // ------------------------------------------------------- splitting an atom

  ghost predicate Seamless(t: string, i: nat)
    requires i < |t|
  {
    t[i] != SENTINEL && BoundaryAt(t, i).None?
  }

  ghost predicate Smooth(t: string) {
    forall i: nat :: i < |t| ==> Seamless(t, i)
  }

  lemma {:induction false} OneSentence(t: string, p: nat)
    requires p <= |t| && Smooth(t)
    ensures Sentences(t, 0, p) == [Span(0, |t|)]
    decreases |t| - p
  {
    if p < |t| {
      assert Seamless(t, p);
      OneSentence(t, p + 1);
    }
  }

  lemma UncutHere(t: string, p: nat)
    requires Uncut(t, 0, |t|)
    ensures p < |t| ==> ConjunctionLength(t, p) == 0 && SemicolonLength(t, p) == 0
  {
    assert p < |t| ==> UncutAt(t, p);
  }

  lemma {:induction false} NothingToCut(t: string)
    requires Uncut(t, 0, |t|)
    ensures NextSeparator(t, 0).None?
  {
    var conj, semi := Exec(ConjunctionLength, t, 0), Exec(SemicolonLength, t, 0);
    UncutHere(t, if conj.Some? then conj.value else 0);
    UncutHere(t, if semi.Some? then semi.value else 0);
  }

  lemma {:induction false} OnePart(t: string)
    requires t != "" && Uncut(t, 0, |t|)
    ensures Parts(t, 0, 0) == [Part(t, 0)]
  {
    NothingToCut(t);
    assert t[0..] == t;
  }

  lemma CleanCore(t: string)
    requires CleanEdges(t)
    ensures Core(Part(t, 0)) == [Clause(t, 0, |t|)]
  {
    assert CoreSpan(t) == Span(0, |t|);
    assert t[0..|t|] == t;
  }

  lemma AtomSplits(t: string)
    requires Atomic(t) && Smooth(t)
    ensures Clauses(t) == [Clause(t, 0, |t|)]
  {
    OneSentence(t, 0);
    OnePart(t);
    CleanCore(t);
    TrimKeeps(t);
    GatherOne(Core, Part(t, 0));
    assert Slice(t, Span(0, |t|)) == t;
    assert InSentence(t, Span(0, |t|)) == [Clause(t, 0, |t|)];
    GatherOne(s => InSentence(t, s), Span(0, |t|));
  }

  lemma UncutInside(s: string, t: string, off: nat)
    requires StandsIn(s, t, off) && Uncut(s, off, off + |t|)
    ensures Uncut(t, 0, |t|)
  {
    forall p: nat | p < |t|
      ensures UncutAt(t, p)
    {
      assert UncutAt(s, off + p);
      if ConjunctionLength(t, p) > 0 {
        ConjunctionLocal(s, t, off, p);
      }
      if SemicolonLength(t, p) > 0 {
        SemicolonLocal(s, t, off, p);
      }
    }
  }

  lemma {:induction false} ClauseIsAtom(text: string, c: Clause)
    requires c in Clauses(text)
    ensures Atomic(c.text) && Smooth(c.text)
  {
    var spans := Sentences(text, 0, 0);
    SentencesChain(text, 0, 0);
    var k := GatheredFrom(s => InSentence(text, s), spans, c);
    SentenceAtom(text, spans[k], c);
    var off := SentenceClause(text, spans[k], c);
    NoBoundaryInside(text, k, c.text, off);
  }

  /** Splitting is complete: no clause can be split, trimmed or marked any further. */
  lemma ClausesAreAtoms(text: string, c: Clause)
    requires c in Clauses(text)
    ensures Clauses(c.text) == [Clause(c.text, 0, |c.text|)]
  {
    ClauseIsAtom(text, c);
    AtomSplits(c.text);
  }

  ghost predicate Atomic(t: string) {
    CleanEdges(t) && Uncut(t, 0, |t|)
  }

  lemma {:induction false} ClauseIsAtomic(s: string, base: nat, c: Clause) returns (lo: nat)
    requires c in Gather(Core, Parts(s, base, 0))
    ensures StandsIn(s, c.text, lo) && Atomic(c.text)
  {
    lo := ClauseInParts(s, base, 0, c);
    UncutInside(s, c.text, lo);
  }

  lemma {:induction false} SentenceClause(text: string, span: Span, c: Clause) returns (off: nat)
    requires span.start <= span.end <= |text| && c in InSentence(text, span)
    ensures StandsIn(text, c.text, off) && span.start <= off && off + |c.text| <= span.end
  {
    var lo := ClauseIsAtomic(Slice(text, span), span.start, c);
    SliceStandsIn(text, span, c.text, lo);
    off := span.start + lo;
  }

  lemma {:induction false} SentenceAtom(text: string, span: Span, c: Clause)
    requires c in InSentence(text, span)
    ensures Atomic(c.text)
  {
    var lo := ClauseIsAtomic(Slice(text, span), span.start, c);
  }

  lemma SliceStandsIn(text: string, span: Span, t: string, lo: nat)
    requires span.start <= span.end <= |text| && StandsIn(Slice(text, span), t, lo)
    ensures StandsIn(text, t, span.start + lo) && span.start + lo + |t| <= span.end
  {
    assert StandsIn(text, Slice(text, span), span.start);
    StandsInTransitive(text, Slice(text, span), t, span.start, lo);
  }

  lemma NoBoundaryInside(text: string, k: nat, t: string, off: nat)
    requires Chain(text, Sentences(text, 0, 0)) && k < |Sentences(text, 0, 0)| && StandsIn(text, t, off)
    requires Sentences(text, 0, 0)[k].start <= off && off + |t| <= Sentences(text, 0, 0)[k].end
    ensures Smooth(t)
  {
    forall i: nat | i < |t|
      ensures Seamless(t, i)
    {
      assert t[i] == text[off+i];
      if BoundaryAt(t, i).Some? {
        BoundaryLocal(text, t, off, i);
        NoInnerBoundary(text, 0, 0, k, off + i);
      }
    }
  }

  // --------------------------------------------- what is not left in any clause

  lemma {:induction false} WordLengthFinds(words: seq<string>, s: string, p: nat, w: string)
    requires w in words && SpelledAt(s, w, p) && p + |w| < |s| && IsSpace(s[p+|w|])
    requires forall k :: 0 <= k < |words| ==> words[k] != ""
    ensures WordLength(words, s, p) > 0
  {
    if !(SpelledAt(s, words[0], p) && p + |words[0]| < |s| && IsSpace(s[p+|words[0]|])) {
      WordLengthFinds(words[1..], s, p, w);
    }
  }

  /** A conjunction with white space on both sides is a separator. */
  lemma ConjunctionSeen(s: string, w: string, q: nat)
    requires w in ["and", "but", "or", "\U{438}", "\U{43D}\U{43E}", "\U{438}\U{43B}\U{438}", "\U{430}"]
    requires 0 < q && SpelledAt(s, w, q) && q + |w| < |s| && IsSpace(s[q-1]) && IsSpace(s[q+|w|])
    ensures ConjunctionLength(s, q - 1) > 0
  {
    assert Lower(s[q+0]) == w[0];
    assert !IsSpace(s[q]);
    assert RunEnd(IsSpace, s, q - 1) == RunEnd(IsSpace, s, q) == q;
    WordLengthFinds(CONJUNCTIONS, s, q, w);
    WordLengthFits(CONJUNCTIONS, s, q);
  }

  /** So is a semicolon with white space behind it. */
  lemma SemicolonSeen(s: string, p: nat)
    requires p + 1 < |s| && s[p] == ';' && IsSpace(s[p+1])
    ensures SemicolonLength(s, p) > 0
  {
    assert RunEnd(IsSpace, s, p) == p;
  }

  /** A terminator, white space and a capital are a boundary. */
  lemma BoundarySeen(s: string, p: nat, r: nat)
    requires p + 1 < r < |s| && s[p] in {'.', '!', '?', '\U{2026}'} && forall i :: p < i < r ==> IsSpace(s[i])
    requires 'A' <= s[r] <= 'Z' || '\U{410}' <= s[r] <= '\U{42F}' || s[r] == '\U{401}'
    ensures BoundaryAt(s, p).Some?
  {
    assert IsSpace(s[p+1]) && !IsTerminator(s[p+1]);
    assert RunEnd(IsTerminator, s, p) == RunEnd(IsTerminator, s, p + 1) == p + 1;
    RunIs(IsSpace, s, p + 1, r - 1);
    RunIs(IsSpace, s, p + 1, r);
  }

  /** No clause has white space or closing punctuation at its ends. */
  lemma EndsAreClean(text: string, c: Clause)
    requires c in Clauses(text)
    ensures c.text != "" && !IsSpace(c.text[0]) && !IsSpace(c.text[|c.text|-1])
    ensures c.text[|c.text|-1] !in {'.', ',', ';', ':', '!', '?', '\U{2026}', '\U{2014}', '\U{2013}', '-'}
  {
    ClauseIsAtom(text, c);
  }

  /** No conjunction stands free in a clause. */
  lemma NoConjunctionLeft(text: string, c: Clause, w: string, q: nat)
    requires c in Clauses(text) && 0 < q && q + |w| < |c.text| && SpelledAt(c.text, w, q)
    requires w in ["and", "but", "or", "\U{438}", "\U{43D}\U{43E}", "\U{438}\U{43B}\U{438}", "\U{430}"]
    ensures !IsSpace(c.text[q-1]) || !IsSpace(c.text[q+|w|])
  {
    ClauseIsAtom(text, c);
    assert UncutAt(c.text, q - 1);
    if IsSpace(c.text[q-1]) && IsSpace(c.text[q+|w|]) {
      ConjunctionSeen(c.text, w, q);
    }
  }

  /** No semicolon in a clause has white space behind it. */
  lemma NoSemicolonLeft(text: string, c: Clause, p: nat)
    requires c in Clauses(text) && p + 1 < |c.text| && c.text[p] == ';'
    ensures !IsSpace(c.text[p+1])
  {
    ClauseIsAtom(text, c);
    assert UncutAt(c.text, p);
    if IsSpace(c.text[p+1]) {
      SemicolonSeen(c.text, p);
    }
  }

  /** Between a terminator and a later capital of a clause there is more than white space. */
  lemma NoBoundaryLeft(text: string, c: Clause, p: nat, r: nat)
    requires c in Clauses(text) && p + 1 < r < |c.text| && c.text[p] in {'.', '!', '?', '\U{2026}'}
    requires 'A' <= c.text[r] <= 'Z' || '\U{410}' <= c.text[r] <= '\U{42F}' || c.text[r] == '\U{401}'
    ensures exists i :: p < i < r && !IsSpace(c.text[i])
  {
    ClauseIsAtom(text, c);
    assert Seamless(c.text, p);
    if forall i :: p < i < r ==> IsSpace(c.text[i]) {
      BoundarySeen(c.text, p, r);
    }
  }
}
