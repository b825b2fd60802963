/** The lexical layer of the clause splitter: character classes, and its three regular expressions as matchers. */
module ClauseText {
  import opened Common
  import opened Text

  const SENTINEL: char := '\U{1}'

  predicate IsTerminator(c: char) {
    c == '.' || c == '!' || c == '?' || c == '\U{2026}'
  }

  predicate IsCapital(c: char) {
    'A' <= c <= 'Z' || '\U{410}' <= c <= '\U{42F}' || c == '\U{401}'
  }

  /** What is cut off the end of a clause: white space and closing punctuation. */
  predicate IsTail(c: char) {
    IsSpace(c) || IsTerminator(c) || c == ',' || c == ';' || c == ':' || c == '\U{2014}' || c == '\U{2013}' || c == '-'
  }

  /** Case folding on the letters that can spell a conjunction; U+1C82 also capitalises to a Cyrillic O. */
  function Lower(c: char): char {
    if 'A' <= c <= 'Z' || '\U{410}' <= c <= '\U{42F}' then (c as int + 32) as char
    else if c == '\U{1C82}' then '\U{43E}'
    else c
  }

  /** and, but, or; and their Russian counterparts i, no, ili, a. */
  const CONJUNCTIONS: seq<string> := [
    "and", "but", "or", "\U{438}", "\U{43D}\U{43E}", "\U{438}\U{43B}\U{438}", "\U{430}"
  ]

  lemma ClassesAre(c: char)
    ensures IsTerminator(c) <==> c in {'.', '!', '?', '\U{2026}'}
    ensures IsCapital(c) <==> 'A' <= c <= 'Z' || '\U{410}' <= c <= '\U{42F}' || c == '\U{401}'
    ensures IsTail(c) <==>
      IsSpace(c) || c in {'.', ',', ';', ':', '!', '?', '\U{2026}', '\U{2014}', '\U{2013}', '-'}
    ensures IsSpace(c) ==> c !in {'.', '!', '?', ';', 'a', 'z', 'A', 'Z', '0', '9', '_'}
    ensures c in {' ', '\t', '\n', '\r'} ==> IsSpace(c)
  {
  }

  lemma ConjunctionsAre(w: string)
    ensures w in CONJUNCTIONS <==>
      w in {"and", "but", "or", "\U{438}", "\U{43D}\U{43E}", "\U{438}\U{43B}\U{438}", "\U{430}"}
  {
  }

  /** The end of the longest run of `class` characters starting at p. */
  function RunEnd(class_: char -> bool, s: string, p: nat): (r: nat)
    ensures p <= r && (p <= |s| ==> r <= |s|)
    decreases |s| - p
  {
    if p < |s| && class_(s[p]) then RunEnd(class_, s, p + 1) else p
  }

  lemma {:induction false} RunIs(class_: char -> bool, s: string, p: nat, k: nat)
    requires p <= k
    ensures k < RunEnd(class_, s, p) <==> k < |s| && forall i :: p <= i <= k ==> class_(s[i])
    decreases |s| - p
  {
    if p < |s| && class_(s[p]) && p < k {
      RunIs(class_, s, p + 1, k);
    }
  }

  // ------------------------------------------------------ sentence boundary

  datatype Span = Span(start: nat, end: nat)

  /** Terminators, then white space, then a capital ahead; the span is the white space that goes. */
  function BoundaryAt(text: string, p: nat): (b: Option<Span>)
    ensures b.Some? ==> p < b.value.start < b.value.end < |text|
  {
    var q := RunEnd(IsTerminator, text, p);
    var r := RunEnd(IsSpace, text, q);
    if p < q < r < |text| && IsCapital(text[r]) then Some(Span(q, r)) else None
  }

  // --------------------------------------------------- separators in a sentence

  predicate SpelledAt(s: string, word: string, p: nat) {
    p + |word| <= |s| && forall i :: 0 <= i < |word| ==> Lower(s[p+i]) == word[i]
  }

  /** The length of the first listed word that stands at p with white space behind it, or 0. */
  function WordLength(words: seq<string>, s: string, p: nat): nat {
    if words == [] then 0
    else if SpelledAt(s, words[0], p) && p + |words[0]| < |s| && IsSpace(s[p+|words[0]|]) then |words[0]|
    else WordLength(words[1..], s, p)
  }

  /** Length of a conjunction match (white space, word, white space) starting at p; 0 when there is none. */
  function ConjunctionLength(s: string, p: nat): nat {
    var q := RunEnd(IsSpace, s, p);
    var w := WordLength(CONJUNCTIONS, s, q);
    if p < q && 0 < w then RunEnd(IsSpace, s, q + w) - p else 0
  }

  /** Length of a semicolon match (optional white space, semicolon, white space) starting at p; 0 when there is none. */
  function SemicolonLength(s: string, p: nat): nat {
    var q := RunEnd(IsSpace, s, p);
    if q + 1 < |s| && s[q] == ';' && IsSpace(s[q+1]) then RunEnd(IsSpace, s, q + 1) - p else 0
  }

  /** RegExp.exec: the leftmost position from `from` on where the matcher succeeds. */
  function Exec(matcher: (string, nat) -> nat, s: string, from: nat): (r: Option<nat>)
    ensures r.Some? ==> from <= r.value < |s| && matcher(s, r.value) > 0
    decreases |s| - from
  {
    if from >= |s| then None
    else if matcher(s, from) > 0 then Some(from)
    else Exec(matcher, s, from + 1)
  }

  lemma {:induction false} ExecIsFirst(matcher: (string, nat) -> nat, s: string, from: nat, p: nat)
    requires from <= p < |s| && matcher(s, p) > 0
    ensures Exec(matcher, s, from).Some? && Exec(matcher, s, from).value <= p
    decreases |s| - from
  {
    if matcher(s, from) == 0 {
      ExecIsFirst(matcher, s, from + 1, p);
    }
  }

  lemma {:induction false} WordLengthFits(words: seq<string>, s: string, p: nat)
    ensures var w := WordLength(words, s, p);
      w > 0 ==> p + w < |s| && IsSpace(s[p+w]) && exists k :: 0 <= k < |words| && |words[k]| == w && SpelledAt(s, words[k], p)
  {
    if words != [] {
      WordLengthFits(words[1..], s, p);
      var w := WordLength(words[1..], s, p);
      if w > 0 {
        var k :| 0 <= k < |words[1..]| && |words[1..][k]| == w && SpelledAt(s, words[1..][k], p);
        assert words[k+1] == words[1..][k];
      }
    }
  }

  lemma SeparatorFits(s: string, p: nat)
    requires p <= |s|
    ensures p + ConjunctionLength(s, p) <= |s| && p + SemicolonLength(s, p) <= |s|
  {
    WordLengthFits(CONJUNCTIONS, s, RunEnd(IsSpace, s, p));
  }
}
