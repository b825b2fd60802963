/** What the clause splitter drops. */
module ClauseLaws {
  import opened Common
  import opened Text
  import opened ClauseText
  import opened SentenceSplit
  import opened ClauseSplitter

  // ----------------------------------------------------------- nothing lost

  ghost predicate Kept(cs: seq<Clause>, i: int) {
    exists k :: 0 <= k < |cs| && cs[k].start <= i < cs[k].end
  }

  /** `w` is a conjunction standing alone at q: white space on both sides. */
  ghost predicate StandsAt(s: string, w: string, q: nat) {
    w in CONJUNCTIONS && SpelledAt(s, w, q) && 0 < q && IsSpace(s[q-1]) && q + |w| < |s| && IsSpace(s[q+|w|])
  }

  ghost predicate InConjunction(s: string, i: nat) {
    exists w, q: nat :: StandsAt(s, w, q) && q <= i < q + |w|
  }

  /** Position i may be dropped: white space, closing punctuation, or a letter of a conjunction. */
  ghost predicate Droppable(s: string, i: nat)
    requires i < |s|
  {
    IsTail(s[i]) || InConjunction(s, i)
  }

  lemma KeptConcat(a: seq<Clause>, b: seq<Clause>, i: int)
    requires Kept(a, i) || Kept(b, i)
    ensures Kept(a + b, i)
  {
    if Kept(a, i) {
      var k :| 0 <= k < |a| && a[k].start <= i < a[k].end;
      assert (a + b)[k] == a[k];
    } else {
      var k :| 0 <= k < |b| && b[k].start <= i < b[k].end;
      assert (a + b)[|a| + k] == b[k];
    }
  }

  lemma {:induction false} TailDrops(s: string, lo: nat, hi: nat, i: nat)
    requires lo <= hi <= |s| && TailStart(s, lo, hi) <= i < hi
    ensures IsTail(s[i])
  {
    if i < hi - 1 {
      TailDrops(s, lo, hi - 1, i);
    }
  }

  lemma PartCovered(c: Part, i: nat)
    requires i < |c.text|
    ensures Kept(Core(c), c.start + i) || IsTail(c.text[i])
  {
    var r := CoreSpan(c.text);
    if i < r.start {
      RunIs(IsSpace, c.text, 0, i);
    } else if r.end <= i {
      TailDrops(c.text, r.start, |c.text|, i);
    } else {
      assert Core(c)[0].start <= c.start + i < Core(c)[0].end;
    }
  }

  lemma RunDrops(s: string, p: nat, i: nat)
    requires p <= i < RunEnd(IsSpace, s, p)
    ensures i < |s| && IsTail(s[i])
  {
    RunIs(IsSpace, s, p, i);
  }

  lemma ConjunctionDrops(s: string, p: nat, i: nat)
    requires p <= |s| && p <= i < p + ConjunctionLength(s, p)
    ensures i < |s| && Droppable(s, i)
  {
    var q := RunEnd(IsSpace, s, p);
    var n := WordLength(CONJUNCTIONS, s, q);
    WordLengthFits(CONJUNCTIONS, s, q);
    if i < q {
      RunDrops(s, p, i);
    } else if q + n <= i {
      RunDrops(s, q + n, i);
    } else {
      RunIs(IsSpace, s, p, q - 1);
      var k :| 0 <= k < |CONJUNCTIONS| && |CONJUNCTIONS[k]| == n && SpelledAt(s, CONJUNCTIONS[k], q);
      assert StandsAt(s, CONJUNCTIONS[k], q);
    }
  }

  lemma SemicolonDrops(s: string, p: nat, i: nat)
    requires p <= |s| && p <= i < p + SemicolonLength(s, p)
    ensures i < |s| && IsTail(s[i])
  {
    var q := RunEnd(IsSpace, s, p);
    if i < q {
      RunDrops(s, p, i);
    } else if q < i {
      RunDrops(s, q + 1, i);
    }
  }

  lemma SeparatorDrops(s: string, cursor: nat, i: nat)
    requires NextSeparator(s, cursor).Some?
    requires NextSeparator(s, cursor).value.start <= i < NextSeparator(s, cursor).value.end
    ensures Droppable(s, i)
  {
    var conj, semi := Exec(ConjunctionLength, s, cursor), Exec(SemicolonLength, s, cursor);
    if conj.Some? && (semi.None? || conj.value < semi.value) {
      ConjunctionDrops(s, conj.value, i);
    } else {
      SemicolonDrops(s, semi.value, i);
    }
  }

  lemma {:induction false} PartsCovered(s: string, base: nat, cursor: nat, i: nat)
    requires cursor <= i < |s|
    ensures Kept(Gather(Core, Parts(s, base, cursor)), base + i) || Droppable(s, i)
    decreases |s| - cursor
  {
    match NextSeparator(s, cursor)
    case None =>
      SomePartCovered(s, base, cursor, |s|, i);
      GatherOne(Core, Part(s[cursor..|s|], base + cursor));
      assert s[cursor..|s|] == s[cursor..];
    case Some(sep) =>
      var c, rest := Part(s[cursor..sep.start], base + cursor), Parts(s, base, sep.end);
      if sep.start <= i < sep.end {
        SeparatorDrops(s, cursor, i);
      } else {
        if i < sep.start {
          SomePartCovered(s, base, cursor, sep.start, i);
        } else {
          PartsCovered(s, base, sep.end, i);
        }
        if !Droppable(s, i) {
          KeptConcat(Core(c), Gather(Core, rest), base + i);
          GatherCons(Core, c, rest);
        }
      }
  }

  lemma SomePartCovered(s: string, base: nat, cursor: nat, end: nat, i: nat)
    requires cursor <= i < end <= |s|
    ensures Kept(Core(Part(s[cursor..end], base + cursor)), base + i) || Droppable(s, i)
  {
    PartCovered(Part(s[cursor..end], base + cursor), i - cursor);
  }

  lemma DroppableInWhole(text: string, s: string, base: nat, i: nat)
    requires base + |s| <= |text| && s == text[base..base+|s|] && i < |s| && Droppable(s, i)
    ensures Droppable(text, base + i)
  {
    if !IsTail(s[i]) {
      var w, q: nat :| StandsAt(s, w, q) && q <= i < q + |w|;
      forall k | 0 <= k < |w|
        ensures Lower(text[base+q+k]) == w[k]
      {
        assert text[base+q+k] == s[q+k];
      }
      assert StandsAt(text, w, base + q);
    }
  }

  lemma {:induction false} SentenceCovered(text: string, s: Span, i: nat)
    requires s.start <= i < s.end <= |text|
    ensures Kept(InSentence(text, s), i) || Droppable(text, i)
  {
    PartsCovered(Slice(text, s), s.start, 0, i - s.start);
    SliceDrops(text, s, i);
  }

  lemma {:induction false} SliceDrops(text: string, s: Span, i: nat)
    requires s.start <= i < s.end <= |text|
    ensures Droppable(Slice(text, s), i - s.start) ==> Droppable(text, i)
  {
    if Droppable(Slice(text, s), i - s.start) {
      DroppableInWhole(text, Slice(text, s), s.start, i - s.start);
    }
  }

  lemma GapDrops(text: string, spans: seq<Span>, n: nat, i: nat)
    requires Chain(text, spans) && spans[0].start == 0 && n < |spans| && EndOf(spans, n) <= i < spans[n].start
    ensures text[i] == SENTINEL || IsTail(text[i])
  {
    assert Gap(text, spans[n-1], spans[n]);
  }

  lemma {:induction false} SentencesCovered(text: string, spans: seq<Span>, n: nat, i: nat)
    requires Chain(text, spans) && spans[0].start == 0 && n <= |spans| && i < EndOf(spans, n) <= |text|
    ensures Kept(InSentences(text, spans[..n]), i) || Droppable(text, i) || text[i] == SENTINEL
  {
    var m := n - 1;
    ChainAdvances(text, spans, m);
    if i < EndOf(spans, m) {
      SentencesCovered(text, spans, m, i);
    } else if i < spans[m].start {
      GapDrops(text, spans, m, i);
    } else {
      SentenceCovered(text, spans[m], i);
    }
    SentencesSnoc(text, spans, m);
    if Kept(InSentences(text, spans[..m]), i) || Kept(InSentence(text, spans[m]), i) {
      KeptConcat(InSentences(text, spans[..m]), InSentence(text, spans[m]), i);
    }
  }

  lemma {:induction false} TrimEndKeepsFirst(s: string)
    requires s != "" && !IsSpace(s[0])
    ensures TrimEnd(s) != ""
  {
    if IsSpace(s[|s|-1]) {
      TrimEndKeepsFirst(s[..|s|-1]);
    }
  }

  lemma BlankText(text: string, i: nat)
    requires Trim(text) == "" && i < |text|
    ensures IsTail(text[i])
  {
    var lead := RunEnd(IsSpace, text, 0);
    assert text[0..] == text;
    TrimStartIsSlice(text, 0);
    RunStops(IsSpace, text, 0);
    if lead < |text| {
      TrimEndKeepsFirst(text[lead..]);
    }
    RunDrops(text, 0, i);
  }

  /** Every character outside the clauses is white space, closing punctuation, a sentinel, or part of a conjunction. */
  lemma NothingLost(text: string, i: nat)
    requires i < |text|
    ensures Kept(Clauses(text), i) || Droppable(text, i) || text[i] == SENTINEL
  {
    if Trim(text) == "" {
      BlankText(text, i);
    } else {
      var spans := Sentences(text, 0, 0);
      SentencesChain(text, 0, 0);
      SentencesCovered(text, spans, |spans|, i);
      assert spans[..|spans|] == spans;
    }
  }
}
