/** Splitting a message into clauses with offsets into the original text. */
module ClauseSplitter {
  import opened Common
  import opened Text
  import opened ClauseText
  import opened SentenceSplit

  datatype Clause = Clause(text: string, start: nat, end: nat)

  datatype Part = Part(text: string, start: nat)

  // ---------------------------------------------------- parts of a sentence

  /** The earlier of the next conjunction and the next semicolon. */
  function NextSeparator(s: string, cursor: nat): (r: Option<Span>)
    ensures r.Some? ==> cursor <= r.value.start < r.value.end <= |s|
  {
    var conj := Exec(ConjunctionLength, s, cursor);
    var semi := Exec(SemicolonLength, s, cursor);
    if conj.Some? && (semi.None? || conj.value < semi.value) then
      SeparatorFits(s, conj.value);
      Some(Span(conj.value, conj.value + ConjunctionLength(s, conj.value)))
    else if semi.Some? then
      SeparatorFits(s, semi.value);
      Some(Span(semi.value, semi.value + SemicolonLength(s, semi.value)))
    else None
  }

  function Parts(s: string, base: nat, cursor: nat): seq<Part>
    decreases |s| - cursor
  {
    if cursor >= |s| then []
    else match NextSeparator(s, cursor)
      case None => [Part(s[cursor..], base + cursor)]
      case Some(sep) => [Part(s[cursor..sep.start], base + cursor)] + Parts(s, base, sep.end)
  }

  /** Cut white space and closing punctuation off the end. */
  function StripTail(s: string): (r: string)
    ensures r <= s && (r != "" ==> !IsTail(r[|r|-1]))
  {
    if s != "" && IsTail(s[|s|-1]) then StripTail(s[..|s|-1]) else s
  }

  /** Where the closing trimmings of s[lo..hi) begin. */
  function TailStart(s: string, lo: nat, hi: nat): (r: nat)
    requires lo <= hi <= |s|
    ensures lo <= r <= hi
  {
    if lo < hi && IsTail(s[hi-1]) then TailStart(s, lo, hi - 1) else hi
  }

  /** A part without leading white space and closing trimmings. */
  function CoreSpan(s: string): (r: Span)
    ensures r.start <= r.end <= |s|
  {
    var lead := RunEnd(IsSpace, s, 0);
    Span(lead, TailStart(s, lead, |s|))
  }

  /** The clause a part amounts to, where it stands; none when nothing but trimmings is left. */
  function Core(c: Part): seq<Clause> {
    var r := CoreSpan(c.text);
    if r.start == r.end then [] else [Clause(c.text[r.start..r.end], c.start + r.start, c.start + r.end)]
  }

  /** Apply `f` to every element and string the results together. */
  function Gather<A, B>(f: A -> seq<B>, xs: seq<A>): seq<B> {
    if xs == [] then [] else Gather(f, xs[..|xs|-1]) + f(xs[|xs|-1])
  }

  function InSentence(text: string, s: Span): seq<Clause> {
    Gather(Core, Parts(Slice(text, s), s.start, 0))
  }

  function InSentences(text: string, spans: seq<Span>): seq<Clause> {
    Gather(s => InSentence(text, s), spans)
  }

  /** The clauses of a text, found by spans alone. */
  function Clauses(text: string): seq<Clause> {
    if Trim(text) == "" then [] else InSentences(text, Sentences(text, 0, 0))
  }

  // ------------------------------------------------------------- trimming

  lemma {:induction false} TrimStartIsSlice(s: string, p: nat)
    requires p <= |s|
    ensures TrimStart(s[p..]) == s[RunEnd(IsSpace, s, p)..]
    decreases |s| - p
  {
    if p < |s| && IsSpace(s[p]) {
      TrimStartIsSlice(s, p + 1);
      assert s[p..][1..] == s[p+1..];
    }
  }

  lemma {:induction false} StripTailAbsorbsTrim(s: string)
    ensures StripTail(TrimEnd(s)) == StripTail(s)
  {
    if s != "" && IsSpace(s[|s|-1]) {
      StripTailAbsorbsTrim(s[..|s|-1]);
    }
  }

  lemma {:induction false} StripTailIsSlice(s: string, lo: nat, hi: nat)
    requires lo <= hi <= |s|
    ensures StripTail(s[lo..hi]) == s[lo..TailStart(s, lo, hi)]
  {
    if lo < hi && IsTail(s[hi-1]) {
      var t := s[lo..hi];
      assert t[|t|-1] == s[hi-1] && t[..|t|-1] == s[lo..hi-1];
      StripTailIsSlice(s, lo, hi - 1);
    }
  }

  lemma {:induction false} TailStops(s: string, lo: nat, hi: nat)
    requires lo <= hi <= |s|
    ensures var r := TailStart(s, lo, hi); r == lo || !IsTail(s[r-1])
  {
    if lo < hi && IsTail(s[hi-1]) {
      TailStops(s, lo, hi - 1);
    }
  }

  lemma CoreEdges(s: string)
    ensures var r := CoreSpan(s); r.start < r.end ==> !IsSpace(s[r.start]) && !IsTail(s[r.end-1])
  {
    RunStops(IsSpace, s, 0);
    TailStops(s, RunEnd(IsSpace, s, 0), |s|);
  }

  lemma {:induction false} TrimKeeps(t: string)
    requires t != "" ==> !IsSpace(t[0]) && !IsSpace(t[|t|-1])
    ensures Trim(t) == t
  {
  }

  lemma {:induction false} StripOfTrim(s: string)
    ensures StripTail(Trim(s)) == s[CoreSpan(s).start..CoreSpan(s).end]
  {
    var lead := RunEnd(IsSpace, s, 0);
    assert s[0..] == s && s[lead..|s|] == s[lead..];
    TrimStartIsSlice(s, 0);
    StripTailAbsorbsTrim(s[lead..]);
    StripTailIsSlice(s, lead, |s|);
  }

  /** Trim, strip and trim again comes to taking the core span. */
  lemma {:induction false} TrimmingIsCore(s: string)
    ensures Trim(StripTail(Trim(s))) == s[CoreSpan(s).start..CoreSpan(s).end]
  {
    StripOfTrim(s);
    CoreEdges(s);
    TrimKeeps(s[CoreSpan(s).start..CoreSpan(s).end]);
  }

  lemma {:induction false} RunStops(class_: char -> bool, s: string, p: nat)
    ensures RunEnd(class_, s, p) < |s| ==> !class_(s[RunEnd(class_, s, p)])
    decreases |s| - p
  {
    if p < |s| && class_(s[p]) {
      RunStops(class_, s, p + 1);
    }
  }

  /** A search lands on `at` when nothing before it starts like the needle. */
  lemma {:induction false} SearchLandsOn(text: string, needle: string, from: nat, at: nat)
    requires needle != "" && from <= at && OccursAt(text, needle, at)
    requires forall i :: from <= i < at ==> text[i] != needle[0]
    ensures IndexOf(text, needle, from) == Some(at)
    decreases at - from
  {
    if from < at {
      assert text[from..from+|needle|][0] == text[from];
      SearchLandsOn(text, needle, from + 1, at);
    }
  }

  lemma CoreIsFound(s: string)
    ensures var r := CoreSpan(s); r.start < r.end ==> IndexOf(s, s[r.start..r.end], 0) == Some(r.start)
  {
    var r := CoreSpan(s);
    if r.start < r.end {
      CoreEdges(s);
      if r.start > 0 {
        RunIs(IsSpace, s, 0, r.start - 1);
      }
      SearchLandsOn(s, s[r.start..r.end], 0, r.start);
    }
  }

  // -------------------------------------------------------- faithful offsets

  /** Every clause is a nonempty verbatim slice of text[lo..hi), and they follow one another without overlap. */
  ghost predicate Within(text: string, cs: seq<Clause>, lo: nat, hi: nat) {
    && (forall k :: 0 <= k < |cs| ==>
          lo <= cs[k].start < cs[k].end <= hi <= |text| && cs[k].text == text[cs[k].start..cs[k].end])
    && (forall i, j :: 0 <= i < j < |cs| ==> cs[i].end <= cs[j].start)
  }

  lemma WithinConcat(text: string, a: seq<Clause>, b: seq<Clause>, lo: nat, mid: nat, mid': nat, hi: nat)
    requires Within(text, a, lo, mid) && Within(text, b, mid', hi) && lo <= mid <= mid' <= hi <= |text|
    ensures Within(text, a + b, lo, hi)
  {
  }

  lemma CoreWithin(text: string, c: Part)
    requires c.start + |c.text| <= |text| && c.text == text[c.start..c.start+|c.text|]
    ensures Within(text, Core(c), c.start, c.start + |c.text|)
  {
    var r := CoreSpan(c.text);
    SliceOfSlice(text, c.text, c.start, r.start, r.end);
  }

  lemma {:induction false} GatherCons<A, B>(f: A -> seq<B>, x: A, rest: seq<A>)
    ensures Gather(f, [x] + rest) == f(x) + Gather(f, rest)
  {
    if rest == [] {
      assert [x] + rest == [x] && [x][..0] == [];
    } else {
      var front := rest[..|rest|-1];
      GatherCons(f, x, front);
      assert ([x] + rest)[..|rest|] == [x] + front;
    }
  }

  lemma GatherOne<A, B>(f: A -> seq<B>, x: A)
    ensures Gather(f, [x]) == f(x)
  {
    assert [x][..0] == [];
  }

  lemma GatherSnoc<A, B>(f: A -> seq<B>, xs: seq<A>, k: nat)
    requires k < |xs|
    ensures Gather(f, xs[..k+1]) == Gather(f, xs[..k]) + f(xs[k])
  {
    assert xs[..k+1][..k] == xs[..k];
  }

  lemma {:induction false} PartsWithin(text: string, s: string, base: nat, cursor: nat)
    requires base + |s| <= |text| && s == text[base..base+|s|] && cursor <= |s|
    ensures Within(text, Gather(Core, Parts(s, base, cursor)), base + cursor, base + |s|)
    decreases |s| - cursor
  {
    if cursor < |s| {
      match NextSeparator(s, cursor)
      case None =>
        PartWithin(text, s, base, cursor, |s|);
        assert s[cursor..|s|] == s[cursor..];
        GatherOne(Core, Part(s[cursor..], base + cursor));
      case Some(sep) =>
        PartWithin(text, s, base, cursor, sep.start);
        PartsWithin(text, s, base, sep.end);
        WithinAhead(text, s, base, cursor, Part(s[cursor..sep.start], base + cursor), sep, Parts(s, base, sep.end));
    }
  }

  lemma {:induction false} WithinAhead(text: string, s: string, base: nat, cursor: nat, c: Part, sep: Span, rest: seq<Part>)
    requires base + |s| <= |text| && cursor <= sep.start < sep.end <= |s|
    requires Within(text, Core(c), base + cursor, base + sep.start)
    requires Within(text, Gather(Core, rest), base + sep.end, base + |s|)
    ensures Within(text, Gather(Core, [c] + rest), base + cursor, base + |s|)
  {
    GatherCons(Core, c, rest);
    WithinConcat(text, Core(c), Gather(Core, rest), base + cursor, base + sep.start, base + sep.end, base + |s|);
  }

  lemma PartWithin(text: string, s: string, base: nat, cursor: nat, end: nat)
    requires base + |s| <= |text| && s == text[base..base+|s|] && cursor <= end <= |s|
    ensures Within(text, Core(Part(s[cursor..end], base + cursor)), base + cursor, base + end)
  {
    SliceOfSlice(text, s, base, cursor, end);
    CoreWithin(text, Part(s[cursor..end], base + cursor));
  }

  lemma {:induction false} SentenceWithin(text: string, s: Span)
    requires s.start <= s.end <= |text|
    ensures Within(text, InSentence(text, s), s.start, s.end)
  {
    PartsWithin(text, Slice(text, s), s.start, 0);
  }

  function EndOf(spans: seq<Span>, n: nat): nat
    requires n <= |spans|
  {
    if n == 0 then 0 else spans[n-1].end
  }

  lemma ChainAdvances(text: string, spans: seq<Span>, n: nat)
    requires Chain(text, spans) && n < |spans|
    ensures EndOf(spans, n) <= spans[n].start <= spans[n].end <= |text|
  {
    assert n > 0 ==> Gap(text, spans[n-1], spans[n]);
  }

  lemma {:induction false} SentencesWithin(text: string, spans: seq<Span>, n: nat)
    requires Chain(text, spans) && n <= |spans|
    ensures Within(text, InSentences(text, spans[..n]), 0, EndOf(spans, n))
  {
    if n > 0 {
      SentencesWithin(text, spans, n - 1);
      ChainAdvances(text, spans, n - 1);
      SentenceWithin(text, spans[n-1]);
      WithinConcat(text, InSentences(text, spans[..n-1]), InSentence(text, spans[n-1]),
        0, EndOf(spans, n - 1), spans[n-1].start, spans[n-1].end);
      SentencesSnoc(text, spans, n - 1);
    }
  }

  /** Each clause equals its slice of the input, and clauses come in increasing order and never overlap. */
  lemma OffsetsAreFaithful(text: string)
    ensures Within(text, Clauses(text), 0, |text|)
  {
    var spans := Sentences(text, 0, 0);
    SentencesChain(text, 0, 0);
    SentencesWithin(text, spans, |spans|);
    assert spans[..|spans|] == spans;
  }

  // ------------------------------------------------------------ the routine

  /**
   * Where the search for sentence k starts: at or before it, with only sentinels in between, or only
   * white space when the sentence opens with a capital.
   */
  ghost predicate CursorReady(text: string, s: Span, cursor: nat)
    requires s.start <= s.end <= |text|
  {
    && cursor <= s.start
    && (|| (forall i :: cursor <= i < s.start ==> text[i] == SENTINEL)
        || (s.start < s.end && IsCapital(text[s.start]) && forall i :: cursor <= i < s.start ==> IsSpace(text[i])))
  }

  lemma SentenceIsFound(text: string, s: Span, cursor: nat)
    requires s.start < s.end <= |text| && CursorReady(text, s, cursor) && text[s.start] != SENTINEL
    ensures IndexOf(text, text[s.start..s.end], cursor) == Some(s.start)
  {
    SearchLandsOn(text, text[s.start..s.end], cursor, s.start);
  }

  lemma CursorMoves(text: string, spans: seq<Span>, k: nat, cursor: nat)
    requires Chain(text, spans) && k < |spans| && CursorReady(text, spans[k], cursor)
    ensures k + 1 < |spans| ==>
      CursorReady(text, spans[k+1], if spans[k].start == spans[k].end then cursor + 1 else spans[k].end)
  {
    if k + 1 < |spans| {
      assert Gap(text, spans[k], spans[k+1]);
    }
  }

  method SplitClauses(text: string) returns (clauses: seq<Clause>)
    ensures clauses == Clauses(text)
    ensures Within(text, clauses, 0, |text|)
  {
    if Trim(text) == "" {
      clauses := [];
    } else {
      clauses := SplitSentences(text);
    }
    OffsetsAreFaithful(text);
  }

  method SplitSentences(text: string) returns (clauses: seq<Clause>)
    ensures clauses == InSentences(text, Sentences(text, 0, 0))
  {
    var sentenceRaw := Split(Marked(text, 0));
    ghost var spans := Sentences(text, 0, 0);
    RawSentences(text);
    var cursor := 0;
    clauses := [];
    for k := 0 to |sentenceRaw|
      invariant clauses == InSentences(text, spans[..k])
      invariant k < |spans| ==> CursorReady(text, spans[k], cursor)
    {
      CursorMoves(text, spans, k, cursor);
      SentencesSnoc(text, spans, k);
      var cs;
      cs, cursor := SplitSentence(text, sentenceRaw[k], cursor, spans[k]);
      clauses := clauses + cs;
    }
    assert spans[..|spans|] == spans;
  }

  lemma SentencesSnoc(text: string, spans: seq<Span>, k: nat)
    requires k < |spans|
    ensures InSentences(text, spans[..k+1]) == InSentences(text, spans[..k]) + InSentence(text, spans[k])
  {
    GatherSnoc(s => InSentence(text, s), spans, k);
  }

  /** One round of the sentence loop: the sentence is located by search, which never fails, and the cursor moved behind it. */
  method SplitSentence(text: string, raw: string, cursor: nat, ghost s: Span) returns (cs: seq<Clause>, next: nat)
    requires s.start <= s.end <= |text| && raw == Slice(text, s) && CursorReady(text, s, cursor)
    requires s.start < s.end ==> text[s.start] != SENTINEL
    ensures cs == InSentence(text, s)
    ensures next == if s.start == s.end then cursor + 1 else s.end
  {
    if |raw| == 0 {
      return [], cursor + 1;
    }
    SentenceIsFound(text, s, cursor);
    var start := IndexOf(text, raw, cursor);
    var subClauses := SplitOnInternalBoundaries(raw, start.value);
    cs := TrimParts(subClauses);
    next := start.value + |raw|;
  }

  lemma RawSentences(text: string)
    ensures var spans := Sentences(text, 0, 0);
      && Chain(text, spans) && spans[0].start == 0
      && |Split(Marked(text, 0))| == |spans|
      && forall k :: 0 <= k < |spans| ==> Split(Marked(text, 0))[k] == Slice(text, spans[k])
  {
    MarkSplitRoundTrip(text, 0, 0);
    SentencesChain(text, 0, 0);
    assert text[0..0] + Marked(text, 0) == Marked(text, 0);
    SlicesIndex(text, Sentences(text, 0, 0));
  }

  lemma {:induction false} SlicesIndex(text: string, spans: seq<Span>)
    ensures |Slices(text, spans)| == |spans|
    ensures forall k :: 0 <= k < |spans| ==> Slices(text, spans)[k] == Slice(text, spans[k])
  {
    if spans != [] {
      SlicesIndex(text, spans[1..]);
    }
  }

  method SplitOnInternalBoundaries(sentence: string, baseOffset: nat) returns (parts: seq<Part>)
    ensures parts == Parts(sentence, baseOffset, 0)
  {
    parts := [];
    var cursor := 0;
    ghost var goal := Parts(sentence, baseOffset, 0);
    while cursor < |sentence|
      invariant parts + Parts(sentence, baseOffset, cursor) == goal
      decreases |sentence| - cursor
    {
      var next := NextSeparator(sentence, cursor);
      if next.None? {
        parts := parts + [Part(sentence[cursor..], baseOffset + cursor)];
        return;
      }
      parts := parts + [Part(sentence[cursor..next.value.start], baseOffset + cursor)];
      cursor := next.value.end;
    }
  }

  method TrimParts(parts: seq<Part>) returns (clauses: seq<Clause>)
    ensures clauses == Gather(Core, parts)
  {
    clauses := [];
    for k := 0 to |parts|
      invariant clauses == Gather(Core, parts[..k])
    {
      var cs := TrimPart(parts[k]);
      GatherSnoc(Core, parts, k);
      clauses := clauses + cs;
    }
    assert parts[..|parts|] == parts;
  }

  method TrimPart(c: Part) returns (clauses: seq<Clause>)
    ensures clauses == Core(c)
  {
    var t := Trim(StripTail(Trim(c.text)));
    TrimmingIsCore(c.text);
    if |t| == 0 {
      CoreAt(c, t, 0);
      return [];
    }
    CoreIsFound(c.text);
    var at := IndexOf(c.text, t, 0);
    CoreAt(c, t, at.value);
    clauses := [Clause(t, c.start + at.value, c.start + at.value + |t|)];
  }

  lemma CoreAt(c: Part, t: string, at: nat)
    requires t == c.text[CoreSpan(c.text).start..CoreSpan(c.text).end] && (t != "" ==> at == CoreSpan(c.text).start)
    ensures Core(c) == if t == "" then [] else [Clause(t, c.start + at, c.start + at + |t|)]
  {
  }
}
