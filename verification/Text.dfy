/** JavaScript's view of white space and trimming. */
module Text {
  import opened Common

  /** The characters String.prototype.trim and \s agree on. */
  predicate IsSpace(c: char) {
    || c == ' ' || '\t' <= c <= '\r' || c == '\U{A0}' || c == '\U{1680}' || '\U{2000}' <= c <= '\U{200A}'
    || c == '\U{2028}' || c == '\U{2029}' || c == '\U{202F}' || c == '\U{205F}' || c == '\U{3000}' || c == '\U{FEFF}'
  }

  function TrimStart(s: string): string {
    if s != "" && IsSpace(s[0]) then TrimStart(s[1..]) else s
  }

  function TrimEnd(s: string): string {
    if s != "" && IsSpace(s[|s|-1]) then TrimEnd(s[..|s|-1]) else s
  }

  function Trim(s: string): string {
    TrimEnd(TrimStart(s))
  }

  predicate OccursAt(text: string, needle: string, i: nat) {
    i + |needle| <= |text| && text[i..i+|needle|] == needle
  }

  /** String.prototype.indexOf: the first occurrence at or after `from`. */
  function IndexOf(text: string, needle: string, from: nat): (r: Option<nat>)
    ensures r.Some? ==> from <= r.value && OccursAt(text, needle, r.value)
    decreases |text| - from
  {
    if from + |needle| > |text| then None
    else if OccursAt(text, needle, from) then Some(from)
    else IndexOf(text, needle, from + 1)
  }

  lemma {:induction false} IndexOfIsFirst(text: string, needle: string, from: nat, i: nat)
    requires from <= i && OccursAt(text, needle, i)
    ensures IndexOf(text, needle, from).Some? && IndexOf(text, needle, from).value <= i
    decreases |text| - from
  {
    if !OccursAt(text, needle, from) {
      IndexOfIsFirst(text, needle, from + 1, i);
    }
  }

  lemma SliceOfSlice(text: string, s: string, base: nat, i: nat, j: nat)
    requires base + |s| <= |text| && s == text[base..base+|s|] && i <= j <= |s|
    ensures s[i..j] == text[base+i..base+j]
  {
    assert forall k :: i <= k < j ==> s[k] == text[base+k];
  }
}
