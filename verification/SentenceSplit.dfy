/** Sentence boundaries: marked with a sentinel, split at it, and as spans of the original text. */
module SentenceSplit {
  import opened Common
  import opened Text
  import opened ClauseText

  /** String.prototype.replace: every boundary's white space becomes one sentinel. */
  function Marked(text: string, p: nat): string
    decreases |text| - p
  {
    if p >= |text| then ""
    else match BoundaryAt(text, p)
      case Some(gap) => text[p..gap.start] + [SENTINEL] + Marked(text, gap.end)
      case None => [text[p]] + Marked(text, p + 1)
  }

  /** String.prototype.split at the sentinel. */
  function Split(s: string): (parts: seq<string>)
    ensures |parts| >= 1
  {
    if s == "" then [""]
    else if s[0] == SENTINEL then [""] + Split(s[1..])
    else var rest := Split(s[1..]); [[s[0]] + rest[0]] + rest[1..]
  }

  /** The same sentences as spans of the text; `a` is where the current one began, `p` how far the scan is. */
  function Sentences(text: string, a: nat, p: nat): (spans: seq<Span>)
    requires a <= p <= |text|
    ensures |spans| >= 1 && spans[0].start == a
    decreases |text| - p
  {
    if p == |text| then [Span(a, p)]
    else if text[p] == SENTINEL then [Span(a, p)] + Sentences(text, p + 1, p + 1)
    else match BoundaryAt(text, p)
      case Some(gap) => [Span(a, gap.start)] + Sentences(text, gap.end, gap.end)
      case None => Sentences(text, a, p + 1)
  }

  function Slice(text: string, s: Span): string {
    if s.start <= s.end <= |text| then text[s.start..s.end] else ""
  }

  function Slices(text: string, spans: seq<Span>): (r: seq<string>) {
    if spans == [] then [] else [Slice(text, spans[0])] + Slices(text, spans[1..])
  }

  /** What lies between two neighbouring sentences. */
  ghost predicate Gap(text: string, before: Span, after: Span)
    requires before.end <= |text| && after.end <= |text|
  {
    || (after.start == before.end + 1 && after.start <= |text| && text[before.end] == SENTINEL)
    || (&& before.start < before.end < after.start < after.end
        && text[before.end-1] in {'.', '!', '?', '\U{2026}'}
        && (forall i :: before.end <= i < after.start ==> IsSpace(text[i]))
        && IsCapital(text[after.start]))
  }

  ghost predicate Chain(text: string, spans: seq<Span>) {
    && spans != [] && spans[|spans|-1].end == |text|
    && (forall k :: 0 <= k < |spans| ==> spans[k].start <= spans[k].end <= |text|)
    && (forall k :: 0 <= k < |spans| - 1 ==> Gap(text, spans[k], spans[k+1]))
    && (forall k, i :: 0 <= k < |spans| && spans[k].start <= i < spans[k].end ==> text[i] != SENTINEL)
  }

  lemma ChainCons(text: string, s: Span, rest: seq<Span>)
    requires Chain(text, rest) && s.start <= s.end <= |text| && Gap(text, s, rest[0])
    requires forall i :: s.start <= i < s.end ==> text[i] != SENTINEL
    ensures Chain(text, [s] + rest)
  {
    var all := [s] + rest;
    forall k | 0 <= k < |all| - 1
      ensures Gap(text, all[k], all[k+1])
    {
      assert k > 0 ==> all[k] == rest[k-1] && all[k+1] == rest[k];
    }
  }

  lemma BoundaryShape(text: string, p: nat)
    requires BoundaryAt(text, p).Some?
    ensures var gap := BoundaryAt(text, p).value;
      && (forall i :: p <= i < gap.start ==> IsTerminator(text[i]))
      && (forall i :: gap.start <= i < gap.end ==> IsSpace(text[i]))
      && IsCapital(text[gap.end]) && RunEnd(IsTerminator, text, p) == gap.start
  {
    var gap := BoundaryAt(text, p).value;
    RunIs(IsTerminator, text, p, gap.start - 1);
    RunIs(IsSpace, text, gap.start, gap.end - 1);
  }

  /** A sentence that opens with a capital is not empty. */
  lemma {:induction false} FirstSentenceReaches(text: string, a: nat, p: nat)
    requires a <= p <= |text|
    ensures Sentences(text, a, p)[0].end >= p
    ensures a == p < |text| && IsCapital(text[a]) ==> Sentences(text, a, p)[0].end > p
    decreases |text| - p
  {
    if p < |text| && text[p] != SENTINEL && BoundaryAt(text, p).None? {
      FirstSentenceReaches(text, a, p + 1);
    }
  }

  lemma {:induction false} SentencesChain(text: string, a: nat, p: nat)
    requires a <= p <= |text| && Unmarked(text, a, p)
    ensures Chain(text, Sentences(text, a, p))
    decreases |text| - p
  {
    if p == |text| {
    } else if text[p] == SENTINEL {
      SentencesChain(text, p + 1, p + 1);
      ChainCons(text, Span(a, p), Sentences(text, p + 1, p + 1));
    } else if BoundaryAt(text, p).Some? {
      var gap := BoundaryAt(text, p).value;
      BoundaryShape(text, p);
      SentencesChain(text, gap.end, gap.end);
      FirstSentenceReaches(text, gap.end, gap.end);
      ChainCons(text, Span(a, gap.start), Sentences(text, gap.end, gap.end));
    } else {
      SentencesChain(text, a, p + 1);
    }
  }

  lemma {:induction false} SplitPrefix(word: string, s: string)
    requires forall i :: 0 <= i < |word| ==> word[i] != SENTINEL
    ensures Split(word + s) == [word + Split(s)[0]] + Split(s)[1..]
  {
    if word == "" {
      assert word + s == s;
      assert word + Split(s)[0] == Split(s)[0];
    } else {
      SplitPrefix(word[1..], s);
      assert (word + s)[1..] == word[1..] + s;
      assert [word[0]] + (word[1..] + Split(s)[0]) == word + Split(s)[0];
    }
  }

  lemma {:induction false} SplitAtMark(word: string, later: string)
    requires forall i :: 0 <= i < |word| ==> word[i] != SENTINEL
    ensures Split(word + [SENTINEL] + later) == [word] + Split(later)
  {
    var s := [SENTINEL] + later;
    assert s[1..] == later;
    assert Split(s) == [""] + Split(later);
    SplitPrefix(word, s);
    assert word + [SENTINEL] + later == word + s;
    assert word + "" == word;
    assert ([""] + Split(later))[1..] == Split(later);
  }

  lemma {:induction false} SlicesCons(text: string, s: Span, rest: seq<Span>)
    ensures Slices(text, [s] + rest) == [Slice(text, s)] + Slices(text, rest)
  {
    assert ([s] + rest)[1..] == rest;
  }

  ghost predicate RoundTrips(text: string, a: nat, p: nat)
    requires a <= p <= |text|
  {
    Split(text[a..p] + Marked(text, p)) == Slices(text, Sentences(text, a, p))
  }

  ghost predicate Unmarked(text: string, a: nat, p: nat)
    requires a <= p <= |text|
  {
    forall i :: a <= i < p ==> text[i] != SENTINEL
  }

  /** Marking boundaries and splitting at the marks gives back verbatim slices of the text. */
  lemma {:induction false} MarkSplitRoundTrip(text: string, a: nat, p: nat)
    requires a <= p <= |text| && Unmarked(text, a, p)
    ensures RoundTrips(text, a, p)
    decreases |text| - p
  {
    if p == |text| {
      TripAtEnd(text, a);
    } else if text[p] == SENTINEL {
      MarkSplitRoundTrip(text, p + 1, p + 1);
      TripAtSentinel(text, a, p);
    } else if BoundaryAt(text, p).Some? {
      MarkSplitRoundTrip(text, BoundaryAt(text, p).value.end, BoundaryAt(text, p).value.end);
      TripAtBoundary(text, a, p);
    } else {
      MarkSplitRoundTrip(text, a, p + 1);
      TripElsewhere(text, a, p);
    }
  }

  lemma {:induction false} TripAtEnd(text: string, a: nat)
    requires a <= |text| && Unmarked(text, a, |text|)
    ensures RoundTrips(text, a, |text|)
  {
    var word := text[a..|text|];
    SplitPrefix(word, "");
    assert Split("") == [""] && word + "" == word;
    assert Split(word) == [word];
    assert Marked(text, |text|) == "" && Sentences(text, a, |text|) == [Span(a, |text|)];
    assert Slices(text, [Span(a, |text|)]) == [word] + Slices(text, []);
  }

  lemma {:induction false} TripStep(text: string, a: nat, end: nat, next: nat)
    requires a <= end < next <= |text| && Unmarked(text, a, end) && RoundTrips(text, next, next)
    ensures Split(text[a..end] + [SENTINEL] + Marked(text, next))
         == Slices(text, [Span(a, end)] + Sentences(text, next, next))
  {
    assert text[next..next] + Marked(text, next) == Marked(text, next);
    SplitAtMark(text[a..end], Marked(text, next));
    SlicesCons(text, Span(a, end), Sentences(text, next, next));
  }

  lemma {:induction false} MarkedAtSentinel(text: string, p: nat)
    requires p < |text| && text[p] == SENTINEL
    ensures Marked(text, p) == [SENTINEL] + Marked(text, p + 1)
  {
    assert RunEnd(IsTerminator, text, p) == p;
  }

  lemma {:induction false} TripAtSentinel(text: string, a: nat, p: nat)
    requires a <= p < |text| && Unmarked(text, a, p) && text[p] == SENTINEL && RoundTrips(text, p + 1, p + 1)
    ensures RoundTrips(text, a, p)
  {
    TripStep(text, a, p, p + 1);
    MarkedAtSentinel(text, p);
    Reassociate(text[a..p], [SENTINEL], Marked(text, p + 1));
  }

  lemma {:induction false} TripAtBoundary(text: string, a: nat, p: nat)
    requires a <= p < |text| && Unmarked(text, a, p) && text[p] != SENTINEL && BoundaryAt(text, p).Some?
    requires RoundTrips(text, BoundaryAt(text, p).value.end, BoundaryAt(text, p).value.end)
    ensures RoundTrips(text, a, p)
  {
    var gap := BoundaryAt(text, p).value;
    BoundaryShape(text, p);
    TripStep(text, a, gap.start, gap.end);
    MarkedAtBoundary(text, a, p, gap);
  }

  lemma {:induction false} MarkedAtBoundary(text: string, a: nat, p: nat, gap: Span)
    requires a <= p < |text| && BoundaryAt(text, p) == Some(gap)
    ensures text[a..p] + Marked(text, p) == text[a..gap.start] + [SENTINEL] + Marked(text, gap.end)
  {
    assert text[a..p] + (text[p..gap.start] + [SENTINEL] + Marked(text, gap.end))
        == text[a..gap.start] + [SENTINEL] + Marked(text, gap.end);
  }

  lemma {:induction false} TripElsewhere(text: string, a: nat, p: nat)
    requires a <= p < |text| && text[p] != SENTINEL && BoundaryAt(text, p).None? && RoundTrips(text, a, p + 1)
    ensures RoundTrips(text, a, p)
  {
    assert Marked(text, p) == [text[p]] + Marked(text, p + 1);
    assert text[a..p] + Marked(text, p) == text[a..p+1] + Marked(text, p + 1);
  }
}
