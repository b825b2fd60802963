/** Replaying learned state-change patterns on a message: which spans are claimed, and which are missed. */
module CollapsePatterns {
  import opened Common
  import opened Ordering
  import opened Text

  /** Case folding, one character to one character, and the letter-or-digit class. */
  datatype Script = Script(fold: char -> char, word: char -> bool)

  datatype Entry = Entry(pattern: string, replacement: string)

  datatype Edit = Edit(pattern: string, replacement: string, text: string, start: nat, end: nat)

  function Folded(sc: Script, s: string): (r: string)
    ensures |r| == |s|
  {
    seq(|s|, i requires 0 <= i < |s| => sc.fold(s[i]))
  }

  predicate WordBounded(sc: Script, message: string, i: nat, end: nat)
    requires i <= end <= |message|
  {
    && !sc.word(if i > 0 then message[i-1] else ' ')
    && !sc.word(if end < |message| then message[end] else ' ')
  }

  /** A case-folded, word-bounded occurrence of `pattern`. */
  ghost predicate BoundedOccurrence(sc: Script, message: string, pattern: string, i: nat) {
    OccursAt(Folded(sc, message), Folded(sc, pattern), i) && WordBounded(sc, message, i, i + |pattern|)
  }

  predicate Overlaps(a: Edit, start: nat, end: nat) {
    !(end <= a.start || start >= a.end)
  }

  // -------------------------------------------------- the positions visited

  /** Leftmost occurrences, each search resuming where the last one ended. */
  function Visits(text: string, needle: string, from: nat): seq<nat>
    requires needle != ""
    decreases |text| - from
  {
    match IndexOf(text, needle, from)
    case None => []
    case Some(i) => [i] + Visits(text, needle, i + |needle|)
  }

  lemma {:induction false} VisitsAreOccurrences(text: string, needle: string, from: nat, i: nat)
    requires needle != "" && i in Visits(text, needle, from)
    ensures from <= i && OccursAt(text, needle, i)
    decreases |text| - from
  {
    var first := IndexOf(text, needle, from).value;
    if i != first {
      VisitsAreOccurrences(text, needle, first + |needle|, i);
    }
  }

  /** An occurrence is passed over exactly when a visited occurrence of the same needle runs into it. */
  lemma {:induction false} PassedOver(text: string, needle: string, from: nat, i: nat) returns (j: nat)
    requires needle != "" && from <= i && OccursAt(text, needle, i) && i !in Visits(text, needle, from)
    ensures j in Visits(text, needle, from) && OccursAt(text, needle, j) && j < i < j + |needle|
    decreases |text| - from
  {
    IndexOfIsFirst(text, needle, from, i);
    var first := IndexOf(text, needle, from).value;
    assert Visits(text, needle, from) == [first] + Visits(text, needle, first + |needle|);
    j := first;
    if first + |needle| <= i {
      j := PassedOver(text, needle, first + |needle|, i);
    }
  }

  // ------------------------------------------------------------- the result

  function EditAt(message: string, e: Entry, i: nat): Edit
    requires i + |e.pattern| <= |message|
  {
    Edit(e.pattern, e.replacement, message[i..i+|e.pattern|], i, i + |e.pattern|)
  }

  /** The word-bounded ones among the positions `at`, in their order. */
  function Hits(sc: Script, message: string, e: Entry, at: seq<nat>): seq<Edit> {
    if at == [] then []
    else (if at[0] + |e.pattern| <= |message| && WordBounded(sc, message, at[0], at[0] + |e.pattern|)
          then [EditAt(message, e, at[0])] else [])
         + Hits(sc, message, e, at[1..])
  }

  function VisitsOf(sc: Script, message: string, e: Entry, from: nat): seq<nat>
    requires e.pattern != ""
  {
    Visits(Folded(sc, message), Folded(sc, e.pattern), from)
  }

  function Candidates(sc: Script, message: string, entries: seq<Entry>): seq<Edit> {
    if entries == [] then []
    else (if entries[0].pattern == "" then [] else Hits(sc, message, entries[0], VisitsOf(sc, message, entries[0], 0)))
         + Candidates(sc, message, entries[1..])
  }

  predicate Free(claimed: seq<Edit>, c: Edit) {
    forall k :: 0 <= k < |claimed| ==> !Overlaps(claimed[k], c.start, c.end)
  }

  /** First come, first served: a candidate is kept when nothing claimed so far overlaps it. */
  function Claim(claimed: seq<Edit>, candidates: seq<Edit>): seq<Edit>
    decreases |candidates|
  {
    if candidates == [] then claimed
    else Claim(if Free(claimed, candidates[0]) then claimed + [candidates[0]] else claimed, candidates[1..])
  }

  function Length(e: Entry): int {
    -|e.pattern|
  }

  function LongestFirst(entries: seq<Entry>): seq<Entry> {
    SortBy(Length, entries)
  }

  function Extracted(sc: Script, message: string, patterns: seq<Entry>): seq<Edit> {
    Claim([], Candidates(sc, message, LongestFirst(patterns)))
  }

  // -------------------------------------------------------- claimed spans

  ghost predicate Disjoint(es: seq<Edit>) {
    forall i, j :: 0 <= i < j < |es| ==> es[i].end <= es[j].start || es[j].end <= es[i].start
  }

  ghost predicate Nonempty(es: seq<Edit>) {
    forall i :: 0 <= i < |es| ==> es[i].start < es[i].end
  }

  lemma {:induction false} ClaimExtends(claimed: seq<Edit>, candidates: seq<Edit>)
    ensures claimed <= Claim(claimed, candidates)
    decreases |candidates|
  {
    if candidates != [] {
      ClaimExtends(if Free(claimed, candidates[0]) then claimed + [candidates[0]] else claimed, candidates[1..]);
    }
  }

  lemma {:induction false} ClaimPicks(claimed: seq<Edit>, candidates: seq<Edit>, e: Edit)
    requires e in Claim(claimed, candidates)
    ensures e in claimed || e in candidates
    decreases |candidates|
  {
    if candidates != [] {
      ClaimPicks(if Free(claimed, candidates[0]) then claimed + [candidates[0]] else claimed, candidates[1..], e);
    }
  }

  lemma {:induction false} ClaimDisjoint(claimed: seq<Edit>, candidates: seq<Edit>)
    requires Disjoint(claimed) && Nonempty(claimed) && Nonempty(candidates)
    ensures Disjoint(Claim(claimed, candidates))
    decreases |candidates|
  {
    if candidates != [] {
      ClaimDisjoint(if Free(claimed, candidates[0]) then claimed + [candidates[0]] else claimed, candidates[1..]);
    }
  }

  /** A candidate that is not kept runs into something claimed before it, which is at least as long. */
  lemma {:induction false} ClaimCovers(claimed: seq<Edit>, candidates: seq<Edit>, k: nat) returns (o: Edit)
    requires Nonempty(candidates) && k < |candidates|
    requires forall i, j :: 0 <= i < j < |candidates| ==> |candidates[j].pattern| <= |candidates[i].pattern|
    requires forall i, j :: 0 <= i < |claimed| && 0 <= j < |candidates| ==> |candidates[j].pattern| <= |claimed[i].pattern|
    ensures o in Claim(claimed, candidates) && Overlaps(o, candidates[k].start, candidates[k].end)
    ensures |o.pattern| >= |candidates[k].pattern|
    decreases |candidates|
  {
    var c := candidates[0];
    var next := if Free(claimed, c) then claimed + [c] else claimed;
    if k == 0 {
      ClaimExtends(next, candidates[1..]);
      var x :| x in next && Overlaps(x, c.start, c.end) && |x.pattern| >= |c.pattern|;
      o := x;
    } else {
      o := ClaimCovers(next, candidates[1..], k - 1);
    }
  }

  // ------------------------------------------------------------ candidates

  lemma {:induction false} HitIsAt(sc: Script, message: string, e: Entry, at: seq<nat>, c: Edit)
    requires c in Hits(sc, message, e, at)
    ensures c.start in at && c.start + |e.pattern| <= |message| && c == EditAt(message, e, c.start)
    ensures WordBounded(sc, message, c.start, c.end)
  {
    if c in Hits(sc, message, e, at[1..]) {
      HitIsAt(sc, message, e, at[1..], c);
    }
  }

  lemma HitIsBounded(sc: Script, message: string, e: Entry, c: Edit)
    requires e.pattern != "" && c in Hits(sc, message, e, VisitsOf(sc, message, e, 0))
    ensures BoundedOccurrence(sc, message, e.pattern, c.start) && c == EditAt(message, e, c.start)
  {
    HitIsAt(sc, message, e, VisitsOf(sc, message, e, 0), c);
    VisitsAreOccurrences(Folded(sc, message), Folded(sc, e.pattern), 0, c.start);
  }

  lemma {:induction false} PositionIsHit(sc: Script, message: string, e: Entry, at: seq<nat>, i: nat)
    requires i in at && i + |e.pattern| <= |message| && WordBounded(sc, message, i, i + |e.pattern|)
    ensures EditAt(message, e, i) in Hits(sc, message, e, at)
  {
    if i != at[0] {
      PositionIsHit(sc, message, e, at[1..], i);
    }
  }

  lemma {:induction false} CandidateComesFrom(sc: Script, message: string, entries: seq<Entry>, c: Edit) returns (e: Entry)
    requires c in Candidates(sc, message, entries)
    ensures e in entries && e.pattern != "" && BoundedOccurrence(sc, message, e.pattern, c.start)
    ensures c == EditAt(message, e, c.start)
  {
    e := entries[0];
    if e.pattern != "" && c in Hits(sc, message, e, VisitsOf(sc, message, e, 0)) {
      HitIsBounded(sc, message, e, c);
    } else {
      e := CandidateComesFrom(sc, message, entries[1..], c);
    }
  }

  lemma CandidatesNonempty(sc: Script, message: string, entries: seq<Entry>)
    ensures Nonempty(Candidates(sc, message, entries))
  {
    var cs := Candidates(sc, message, entries);
    forall i | 0 <= i < |cs|
      ensures cs[i].start < cs[i].end
    {
      var e := CandidateComesFrom(sc, message, entries, cs[i]);
    }
  }

  lemma {:induction false} HitBecomesCandidate(sc: Script, message: string, entries: seq<Entry>, k: nat, c: Edit)
    requires k < |entries| && entries[k].pattern != "" && c in Hits(sc, message, entries[k], VisitsOf(sc, message, entries[k], 0))
    ensures c in Candidates(sc, message, entries)
  {
    if k > 0 {
      HitBecomesCandidate(sc, message, entries[1..], k - 1, c);
    }
  }

  lemma {:induction false} CandidatesLongestFirst(sc: Script, message: string, entries: seq<Entry>)
    requires Sorted(Length, entries)
    ensures var cs := Candidates(sc, message, entries);
      forall i, j :: 0 <= i < j < |cs| ==> |cs[j].pattern| <= |cs[i].pattern|
  {
    if entries != [] && entries[0].pattern == "" {
      CandidatesLongestFirst(sc, message, entries[1..]);
      assert Candidates(sc, message, entries) == Candidates(sc, message, entries[1..]);
    } else if entries != [] {
      var e, rest := entries[0], entries[1..];
      CandidatesLongestFirst(sc, message, rest);
      var at := VisitsOf(sc, message, e, 0);
      var hits, later := Hits(sc, message, e, at), Candidates(sc, message, rest);
      forall c | c in hits
        ensures |c.pattern| == |e.pattern|
      {
        HitIsAt(sc, message, e, at, c);
      }
      forall c | c in later
        ensures |c.pattern| <= |e.pattern|
      {
        var from := CandidateComesFrom(sc, message, rest, c);
        assert Length(e) <= Length(from);
      }
    }
  }

  // ---------------------------------------------------------- main results

  /** Every emitted span is a genuine word-bounded match of a known pattern. */
  lemma SpansAreGenuine(sc: Script, message: string, patterns: seq<Entry>, o: Edit) returns (e: Entry)
    requires o in Extracted(sc, message, patterns)
    ensures e in patterns && o.pattern == e.pattern != "" && o.replacement == e.replacement
    ensures o.end == o.start + |o.pattern| <= |message| && o.text == message[o.start..o.end]
    ensures Folded(sc, o.text) == Folded(sc, o.pattern) && WordBounded(sc, message, o.start, o.end)
  {
    var entries := LongestFirst(patterns);
    ClaimPicks([], Candidates(sc, message, entries), o);
    e := CandidateComesFrom(sc, message, entries, o);
    SortElems(Length, patterns, e);
    assert Folded(sc, o.text) == Folded(sc, message)[o.start..o.end];
  }

  /** ... that is: it reads like the pattern up to case, character by character, and neither the character before it nor
      the one behind it, if there is one, is a letter or digit. */
  lemma SpansReadLikePatterns(sc: Script, message: string, patterns: seq<Entry>, o: Edit)
    requires o in Extracted(sc, message, patterns) && !sc.word(' ')
    ensures exists e :: e in patterns && e.pattern == o.pattern && e.replacement == o.replacement
    ensures o.start < o.end <= |message| && |o.pattern| == |o.text| == o.end - o.start
    ensures forall i :: 0 <= i < |o.text| ==>
      o.text[i] == message[o.start+i] && sc.fold(o.text[i]) == sc.fold(o.pattern[i])
    ensures o.start > 0 ==> !sc.word(message[o.start-1])
    ensures o.end < |message| ==> !sc.word(message[o.end])
  {
    var e := SpansAreGenuine(sc, message, patterns, o);
    forall i | 0 <= i < |o.text| ensures sc.fold(o.text[i]) == sc.fold(o.pattern[i]) {
      assert Folded(sc, o.text)[i] == Folded(sc, o.pattern)[i];
    }
  }

  /** Text that reads like the pattern up to case, with no letter or digit on either side, is an occurrence to look for. */
  lemma OccurrenceIs(sc: Script, message: string, pattern: string, i: nat)
    requires !sc.word(' ')
    ensures BoundedOccurrence(sc, message, pattern, i) <==>
      && i + |pattern| <= |message| && (forall k :: 0 <= k < |pattern| ==> sc.fold(message[i+k]) == sc.fold(pattern[k]))
      && (i > 0 ==> !sc.word(message[i-1]))
      && (i + |pattern| < |message| ==> !sc.word(message[i+|pattern|]))
  {
    if i + |pattern| <= |message| {
      var text, needle := Folded(sc, message), Folded(sc, pattern);
      if forall k :: 0 <= k < |pattern| ==> sc.fold(message[i+k]) == sc.fold(pattern[k]) {
        assert text[i..i+|needle|] == needle;
      } else {
        var k :| 0 <= k < |pattern| && sc.fold(message[i+k]) != sc.fold(pattern[k]);
        assert text[i..i+|needle|][k] == text[i+k];
        assert text[i+k] != needle[k];
      }
    }
  }

  lemma SpansAreDisjoint(sc: Script, message: string, patterns: seq<Entry>)
    ensures Disjoint(Extracted(sc, message, patterns))
  {
    CandidatesNonempty(sc, message, LongestFirst(patterns));
    ClaimDisjoint([], Candidates(sc, message, LongestFirst(patterns)));
  }

  /** A visited word-bounded occurrence is emitted, or gives way to an emitted span at least as long. */
  lemma LongestWins(sc: Script, message: string, patterns: seq<Entry>, e: Entry, i: nat) returns (o: Edit)
    requires e in patterns && e.pattern != "" && BoundedOccurrence(sc, message, e.pattern, i)
    requires i in Visits(Folded(sc, message), Folded(sc, e.pattern), 0)
    ensures o in Extracted(sc, message, patterns) && o.start < i + |e.pattern| && i < o.end
    ensures |o.pattern| >= |e.pattern|
  {
    var entries := LongestFirst(patterns);
    var cs := Candidates(sc, message, entries);
    SortElems(Length, patterns, e);
    SortSorts(Length, patterns);
    var k :| 0 <= k < |entries| && entries[k] == e;
    PositionIsHit(sc, message, e, VisitsOf(sc, message, e, 0), i);
    HitBecomesCandidate(sc, message, entries, k, EditAt(message, e, i));
    CandidatesNonempty(sc, message, entries);
    CandidatesLongestFirst(sc, message, entries);
    var n :| 0 <= n < |cs| && cs[n] == EditAt(message, e, i);
    o := ClaimCovers([], cs, n);
  }

  // ------------------------------------------------ occurrences never visited

  /** Characters that fold alike are alike letters or not, and a space is not one. */
  ghost predicate Sane(sc: Script) {
    !sc.word(' ') && forall c, d :: sc.fold(c) == sc.fold(d) ==> (sc.word(c) <==> sc.word(d))
  }

  /** A copy of the pattern can start `d` characters into another one, right after a non-word character. */
  ghost predicate RestartsAt(sc: Script, pattern: string, d: nat) {
    0 < d < |pattern| && Folded(sc, pattern)[d..] == Folded(sc, pattern)[..|pattern|-d] && !sc.word(pattern[d-1])
  }

  /** In every message, the scan visits every word-bounded occurrence. */
  ghost predicate NeverMisses(sc: Script, pattern: string)
    requires pattern != ""
  {
    forall message: string, i: nat :: BoundedOccurrence(sc, message, pattern, i) ==>
      i in Visits(Folded(sc, message), Folded(sc, pattern), 0)
  }

  lemma OverlappingCopies(text: string, needle: string, j: nat, d: nat)
    requires 0 < d < |needle| && OccursAt(text, needle, j) && OccursAt(text, needle, j + d)
    ensures needle[d..] == needle[..|needle|-d] && needle[d-1] == text[j+d-1]
  {
    forall k | 0 <= k < |needle| - d
      ensures needle[d..][k] == needle[k]
    {
      assert text[j..j+|needle|][d+k] == text[j+d..j+d+|needle|][k];
    }
    assert text[j..j+|needle|][d-1] == text[j+d-1];
  }

  lemma CopiesRestart(sc: Script, message: string, pattern: string, j: nat, d: nat)
    requires Sane(sc) && 0 < d < |pattern| && OccursAt(Folded(sc, message), Folded(sc, pattern), j)
    requires BoundedOccurrence(sc, message, pattern, j + d)
    ensures RestartsAt(sc, pattern, d)
  {
    OverlappingCopies(Folded(sc, message), Folded(sc, pattern), j, d);
    assert sc.fold(pattern[d-1]) == sc.fold(message[j+d-1]);
  }

  lemma {:induction false} MissMeansRestart(sc: Script, message: string, pattern: string, i: nat) returns (d: nat)
    requires Sane(sc) && pattern != "" && BoundedOccurrence(sc, message, pattern, i)
    requires i !in Visits(Folded(sc, message), Folded(sc, pattern), 0)
    ensures RestartsAt(sc, pattern, d)
  {
    var j := PassedOver(Folded(sc, message), Folded(sc, pattern), 0, i);
    d := i - j;
    CopiesRestart(sc, message, pattern, j, d);
  }

  lemma RestartMeansMiss(sc: Script, pattern: string, d: nat)
    requires Sane(sc) && RestartsAt(sc, pattern, d)
    ensures var message := pattern[..d] + pattern;
      BoundedOccurrence(sc, message, pattern, d) && d !in Visits(Folded(sc, message), Folded(sc, pattern), 0)
  {
    var message, n := pattern[..d] + pattern, |pattern|;
    var text, needle := Folded(sc, message), Folded(sc, pattern);
    assert text == needle[..d] + needle;
    assert text[0..n] == needle[..d] + needle[..n-d] == needle[..d] + needle[d..] == needle;
    IndexOfIsFirst(text, needle, 0, 0);
    assert text[d..d+n] == needle;
    if d in Visits(text, needle, n) {
      VisitsAreOccurrences(text, needle, n, d);
    }
  }

  /** The scan misses no word-bounded occurrence, in any message, if and only if the pattern cannot restart inside itself. */
  lemma ScanCompleteIff(sc: Script, pattern: string)
    requires Sane(sc) && pattern != ""
    ensures NeverMisses(sc, pattern) <==> forall d: nat :: !RestartsAt(sc, pattern, d)
  {
    if d: nat :| RestartsAt(sc, pattern, d) {
      RestartMeansMiss(sc, pattern, d);
      assert !NeverMisses(sc, pattern);
    }
    if !NeverMisses(sc, pattern) {
      var message: string, i: nat :| BoundedOccurrence(sc, message, pattern, i)
        && i !in Visits(Folded(sc, message), Folded(sc, pattern), 0);
      var d := MissMeansRestart(sc, message, pattern, i);
    }
  }

  /** Without such patterns, every word-bounded occurrence runs into an emitted span at least as long. */
  lemma NothingEscapes(sc: Script, message: string, patterns: seq<Entry>, e: Entry, i: nat) returns (o: Edit)
    requires Sane(sc) && forall d: nat :: !RestartsAt(sc, e.pattern, d)
    requires e in patterns && e.pattern != "" && BoundedOccurrence(sc, message, e.pattern, i)
    ensures o in Extracted(sc, message, patterns) && o.start < i + |e.pattern| && i < o.end
    ensures |o.pattern| >= |e.pattern|
  {
    ScanCompleteIff(sc, e.pattern);
    o := LongestWins(sc, message, patterns, e, i);
  }

  /** The scan of "ba a a" for "a a" rejects the copy at 1, skips past the word-bounded one at 3 and emits nothing. */
  lemma MissedPhrase(sc: Script)
    requires sc.word('b') && !sc.word(' ') && sc.fold('a') == 'a' && sc.fold('b') == 'b' && sc.fold(' ') == ' '
    ensures BoundedOccurrence(sc, "ba a a", "a a", 3)
    ensures Extracted(sc, "ba a a", [Entry("a a", "is")]) == []
  {
    var t, n, e := "ba a a", "a a", Entry("a a", "is");
    assert Folded(sc, t) == t && Folded(sc, n) == n;
    assert n == [t[1], t[2], t[3]] == [t[3], t[4], t[5]];
    assert t[0..3][0] != n[0] && t[1..4] == n && t[3..6] == n;
    assert IndexOf(t, n, 0) == Some(1);
    assert Visits(t, n, 4) == [];
    assert VisitsOf(sc, t, e, 0) == [1];
    assert Hits(sc, t, e, [1]) == [];
    SortOfOne(e);
    assert Candidates(sc, t, [e]) == [] + Candidates(sc, t, []);
  }

  lemma SortOfOne(e: Entry)
    ensures LongestFirst([e]) == [e]
  {
    assert [e][..0] == [];
    assert SortBy(Length, [e]) == Insert(Length, e, SortBy(Length, []));
  }

  // ------------------------------------------------------------ the routine

  method ExtractCollapseEditsLocally(sc: Script, message: string, patterns: seq<Entry>) returns (out: seq<Edit>)
    ensures out == Extracted(sc, message, patterns)
    ensures Disjoint(out)
  {
    SpansAreDisjoint(sc, message, patterns);
    if |patterns| == 0 || message == "" {
      NoCandidates(sc, LongestFirst(patterns));
      return [];
    }
    var entries := LongestFirst(patterns);
    out := [];
    ghost var goal := Extracted(sc, message, patterns);
    for k := 0 to |entries|
      invariant goal == Claim(out, Candidates(sc, message, entries[k..]))
    {
      ghost var rest := Candidates(sc, message, entries[k+1..]);
      assert entries[k..][1..] == entries[k+1..] && entries[k..][0] == entries[k];
      if entries[k].pattern != "" {
        out := Scan(sc, message, entries[k], out, rest);
      } else {
        assert [] + rest == rest;
      }
    }
  }

  lemma {:induction false} NoCandidates(sc: Script, entries: seq<Entry>)
    ensures Candidates(sc, "", entries) == []
  {
    if entries != [] {
      NoCandidates(sc, entries[1..]);
    }
  }

  method Scan(sc: Script, message: string, e: Entry, claimed: seq<Edit>, ghost rest: seq<Edit>) returns (out: seq<Edit>)
    requires e.pattern != ""
    ensures Claim(out, rest) == Claim(claimed, Hits(sc, message, e, VisitsOf(sc, message, e, 0)) + rest)
  {
    var lower, needle := Folded(sc, message), Folded(sc, e.pattern);
    out := ScanFrom(sc, message, e, lower, needle, claimed);
    ScannedOutcome(sc, message, e, lower, needle, claimed, rest);
  }

  /** The while loop of one pattern: each search resumes where the last hit ended. */
  method ScanFrom(sc: Script, message: string, e: Entry, lower: string, needle: string, claimed: seq<Edit>) returns (out: seq<Edit>)
    requires |lower| == |message| && |needle| == |e.pattern| > 0
    ensures out == Scanned(sc, message, e, lower, needle, 0, claimed)
  {
    var from := 0;
    out := claimed;
    while from < |lower|
      invariant Scanned(sc, message, e, lower, needle, from, out) == Scanned(sc, message, e, lower, needle, 0, claimed)
      decreases |lower| - from
    {
      var idx := IndexOf(lower, needle, from);
      if idx == None {
        return;
      }
      out := ClaimIfFree(sc, message, e, idx.value, out);
      from := idx.value + |needle|;
    }
    NothingBehindTheEnd(lower, needle, from);
  }

  function Scanned(sc: Script, message: string, e: Entry, lower: string, needle: string, from: nat, claimed: seq<Edit>): seq<Edit>
    requires |lower| == |message| && |needle| == |e.pattern| > 0
    decreases |lower| - from
  {
    match IndexOf(lower, needle, from)
    case None => claimed
    case Some(i) => Scanned(sc, message, e, lower, needle, i + |needle|, Visited(sc, message, e, i, claimed))
  }

  /** The visits to the positions `at`, one after the other. */
  ghost function VisitedAll(sc: Script, message: string, e: Entry, at: seq<nat>, claimed: seq<Edit>): seq<Edit> {
    if at == [] then claimed
    else VisitedAll(sc, message, e, at[1..],
                    if at[0] + |e.pattern| <= |message| then Visited(sc, message, e, at[0], claimed) else claimed)
  }

  lemma {:induction false} VisitedAllCons(sc: Script, message: string, e: Entry, i: nat, later: seq<nat>, claimed: seq<Edit>)
    requires i + |e.pattern| <= |message|
    ensures VisitedAll(sc, message, e, [i] + later, claimed)
         == VisitedAll(sc, message, e, later, Visited(sc, message, e, i, claimed))
  {
    assert ([i] + later)[1..] == later;
  }

  lemma {:induction false} ScanVisits(sc: Script, message: string, e: Entry, lower: string, needle: string, from: nat, claimed: seq<Edit>)
    requires |lower| == |message| && |needle| == |e.pattern| > 0
    ensures Scanned(sc, message, e, lower, needle, from, claimed)
         == VisitedAll(sc, message, e, Visits(lower, needle, from), claimed)
    decreases |lower| - from
  {
    var idx := IndexOf(lower, needle, from);
    if idx.Some? {
      var i := idx.value;
      VisitsStep(lower, needle, from, i);
      var next, later := Visited(sc, message, e, i, claimed), Visits(lower, needle, i + |needle|);
      ScannedStep(sc, message, e, lower, needle, from, i, claimed);
      ScanVisits(sc, message, e, lower, needle, i + |needle|, next);
      VisitedAllCons(sc, message, e, i, later, claimed);
    } else {
      assert Visits(lower, needle, from) == [];
    }
  }

  lemma {:induction false} ScannedStep(sc: Script, message: string, e: Entry, lower: string, needle: string, from: nat, i: nat,
                                       claimed: seq<Edit>)
    requires |lower| == |message| && |needle| == |e.pattern| > 0
    requires IndexOf(lower, needle, from) == Some(i) && i + |needle| <= |message|
    ensures Scanned(sc, message, e, lower, needle, from, claimed)
         == Scanned(sc, message, e, lower, needle, i + |needle|, Visited(sc, message, e, i, claimed))
  {
  }

  ghost predicate InRange(message: string, e: Entry, at: seq<nat>) {
    forall k :: 0 <= k < |at| ==> at[k] + |e.pattern| <= |message|
  }

  lemma {:induction false} VisitsClaim(sc: Script, message: string, e: Entry, at: seq<nat>, claimed: seq<Edit>, rest: seq<Edit>)
    requires InRange(message, e, at)
    ensures Claim(VisitedAll(sc, message, e, at, claimed), rest) == Claim(claimed, Hits(sc, message, e, at) + rest)
  {
    if at == [] {
      assert [] + rest == rest;
    } else {
      assert at == [at[0]] + at[1..];
      VisitsClaim(sc, message, e, at[1..], Visited(sc, message, e, at[0], claimed), rest);
      ClaimVisit(sc, message, e, at[0], at[1..], claimed, rest);
    }
  }

  /** The scan claims the word-bounded ones among the visited positions, in their order. */
  lemma ScannedOutcome(sc: Script, message: string, e: Entry, lower: string, needle: string, claimed: seq<Edit>, rest: seq<Edit>)
    requires |lower| == |message| && |needle| == |e.pattern| > 0
    ensures Claim(Scanned(sc, message, e, lower, needle, 0, claimed), rest)
         == Claim(claimed, Hits(sc, message, e, Visits(lower, needle, 0)) + rest)
  {
    var at := Visits(lower, needle, 0);
    forall k | 0 <= k < |at| ensures at[k] + |e.pattern| <= |message| {
      VisitsAreOccurrences(lower, needle, 0, at[k]);
    }
    ScanVisits(sc, message, e, lower, needle, 0, claimed);
    VisitsClaim(sc, message, e, at, claimed, rest);
  }

  /** What one visited position adds. */
  function Visited(sc: Script, message: string, e: Entry, i: nat, claimed: seq<Edit>): seq<Edit>
    requires i + |e.pattern| <= |message|
  {
    if WordBounded(sc, message, i, i + |e.pattern|) && Free(claimed, EditAt(message, e, i))
    then claimed + [EditAt(message, e, i)] else claimed
  }

  lemma {:induction false} NothingBehindTheEnd(text: string, needle: string, from: nat)
    requires needle != "" && from >= |text|
    ensures IndexOf(text, needle, from) == None
  {
  }

  method ClaimIfFree(sc: Script, message: string, e: Entry, i: nat, claimed: seq<Edit>) returns (out: seq<Edit>)
    requires i + |e.pattern| <= |message|
    ensures out == Visited(sc, message, e, i, claimed)
  {
    out := claimed;
    if WordBounded(sc, message, i, i + |e.pattern|) {
      var edit := EditAt(message, e, i);
      if Free(out, edit) {
        out := out + [edit];
      }
    }
  }

  lemma {:induction false} VisitsStep(text: string, needle: string, from: nat, i: nat)
    requires needle != "" && IndexOf(text, needle, from) == Some(i)
    ensures i + |needle| <= |text| && Visits(text, needle, from) == [i] + Visits(text, needle, i + |needle|)
  {
  }

  lemma {:induction false} ClaimVisit(sc: Script, message: string, e: Entry, i: nat, later: seq<nat>, out: seq<Edit>, rest: seq<Edit>)
    requires i + |e.pattern| <= |message|
    ensures Claim(out, Hits(sc, message, e, [i] + later) + rest)
         == Claim(Visited(sc, message, e, i, out), Hits(sc, message, e, later) + rest)
  {
    HitsOfCons(sc, message, e, i, later);
    ClaimHead(out, WordBounded(sc, message, i, i + |e.pattern|), EditAt(message, e, i), Hits(sc, message, e, later), rest);
  }

  lemma {:induction false} HitsOfCons(sc: Script, message: string, e: Entry, i: nat, later: seq<nat>)
    requires i + |e.pattern| <= |message|
    ensures Hits(sc, message, e, [i] + later)
         == (if WordBounded(sc, message, i, i + |e.pattern|) then [EditAt(message, e, i)] else []) + Hits(sc, message, e, later)
  {
    assert ([i] + later)[1..] == later;
  }

  lemma {:induction false} ClaimHead(claimed: seq<Edit>, bounded: bool, c: Edit, hits: seq<Edit>, rest: seq<Edit>)
    ensures Claim(claimed, (if bounded then [c] else []) + hits + rest)
         == Claim(if bounded && Free(claimed, c) then claimed + [c] else claimed, hits + rest)
  {
    if bounded {
      assert ([c] + hits + rest)[1..] == hits + rest;
    } else {
      assert [] + hits == hits;
    }
  }
}
