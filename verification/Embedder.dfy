/** Cached embedding, one text at a time and in batches, over one provider. */
module Embedder {
  import opened Common
  import opened LruCache
  import opened BatchedLru
  import opened Text

  type Vector = seq<real>

  /** A provider is a fixed function; its batch endpoint agrees with it text by text. */
  datatype Provider = Provider(id: string, embed: string -> Vector, dimensions: nat)

  /** The digest is taken to be injective, so the key is what is hashed. */
  function CacheKey(p: Provider, text: string): string {
    p.id + ":" + text
  }

  function Zeros(n: nat): Vector {
    seq(n, i => 0.0)
  }

  /** What the caller should see, cache or no cache. */
  function Expected(p: Provider, text: string): Vector {
    if Trim(text) == "" then Zeros(p.dimensions) else p.embed(Trim(text))
  }

  /** Every cached vector is the provider's answer for its text. */
  ghost predicate Coherent(p: Provider, e: Entries<string, Vector>) {
    forall i, t :: 0 <= i < |e| && e[i].0 == CacheKey(p, t) ==> e[i].1 == p.embed(t)
  }

  /** Blank text is not sent to the provider and embeds as zeros; any other text is sent trimmed. */
  lemma ExpectedIs(p: Provider, text: string)
    ensures Trim(text) == "" ==>
      |Expected(p, text)| == p.dimensions && forall i :: 0 <= i < p.dimensions ==> Expected(p, text)[i] == 0.0
    ensures Trim(text) != "" ==> Expected(p, text) == p.embed(Trim(text))
  {
  }

  lemma KeyInjective(p: Provider, s: string, t: string)
    requires CacheKey(p, s) == CacheKey(p, t)
    ensures s == t
  {
    assert s == CacheKey(p, s)[|p.id|+1..] && t == CacheKey(p, t)[|p.id|+1..];
  }

  lemma CoherentHit(p: Provider, e: Entries<string, Vector>, t: string)
    requires Coherent(p, e) && Lookup(e, CacheKey(p, t)).Some?
    ensures Lookup(e, CacheKey(p, t)).value == p.embed(t)
  {
    LookupFinds(e, CacheKey(p, t));
    var v := Lookup(e, CacheKey(p, t)).value;
    var i :| 0 <= i < |e| && e[i] == (CacheKey(p, t), v);
  }

  lemma CoherentSnoc(p: Provider, e: Entries<string, Vector>, t: string)
    requires Coherent(p, e)
    ensures Coherent(p, e + [(CacheKey(p, t), p.embed(t))])
  {
    var more := e + [(CacheKey(p, t), p.embed(t))];
    forall i, u | 0 <= i < |more| && more[i].0 == CacheKey(p, u) ensures more[i].1 == p.embed(u) {
      if i == |e| {
        KeyInjective(p, t, u);
      }
    }
  }

  lemma {:induction false} CoherentDelete(p: Provider, e: Entries<string, Vector>, k: string)
    requires Coherent(p, e)
    ensures Coherent(p, Delete(e, k))
  {
    var d := Delete(e, k);
    forall i, t | 0 <= i < |d| && d[i].0 == CacheKey(p, t) ensures d[i].1 == p.embed(t) {
      DeleteElems(e, k, d[i]);
      var j :| 0 <= j < |e| && e[j] == d[i];
    }
  }

  lemma CoherentGot(p: Provider, e: Entries<string, Vector>, t: string)
    requires Coherent(p, e)
    ensures Coherent(p, Got(e, CacheKey(p, t)))
  {
    var k := CacheKey(p, t);
    if Lookup(e, k).Some? {
      CoherentHit(p, e, t);
      CoherentDelete(p, e, k);
      CoherentSnoc(p, Delete(e, k), t);
    }
  }

  lemma CoherentStored(p: Provider, e: Entries<string, Vector>, capacity: nat, t: string)
    requires Coherent(p, e)
    ensures Coherent(p, Stored(e, capacity, CacheKey(p, t), p.embed(t)))
  {
    var k := CacheKey(p, t);
    CoherentDelete(p, e, k);
    if e != [] {
      CoherentRest(p, e);
      CoherentSnoc(p, e[1..], t);
    }
    CoherentSnoc(p, e, t);
    CoherentSnoc(p, Delete(e, k), t);
  }

  lemma CoherentRest(p: Provider, e: Entries<string, Vector>)
    requires Coherent(p, e) && e != []
    ensures Coherent(p, e[1..])
  {
    forall i, t | 0 <= i < |e[1..]| && e[1..][i].0 == CacheKey(p, t) ensures e[1..][i].1 == p.embed(t) {
      assert e[1..][i] == e[i+1];
    }
  }

  // ------------------------------------------------------- cache effect, by key

  function CacheKeys(p: Provider, texts: seq<string>): (ks: seq<string>)
    ensures |ks| == |texts|
  {
    seq(|texts|, i requires 0 <= i < |texts| => CacheKey(p, texts[i]))
  }

  /** The trimmed, non-blank texts of a batch. */
  function Worthy(texts: seq<string>): seq<string> {
    if texts == [] then []
    else Worthy(texts[..|texts|-1]) + (if Trim(texts[|texts|-1]) == "" then [] else [Trim(texts[|texts|-1])])
  }

  ghost predicate From(missIdx: seq<nat>, j: nat, i: nat) {
    exists m :: j <= m < |missIdx| && missIdx[m] == i
  }

  /** The first n texts are answered or on the miss list, from its j-th entry on. */
  ghost predicate Answered(p: Provider, texts: seq<string>, n: nat, out: seq<Vector>, missIdx: seq<nat>, missTexts: seq<string>, j: nat) {
    && n <= |texts| == |out| && j <= |missIdx| == |missTexts|
    && (forall m :: 0 <= m < |missIdx| ==>
          missIdx[m] < n && missTexts[m] == Trim(texts[missIdx[m]]) && missTexts[m] != "")
    && (forall i: nat :: i < n ==> out[i] == Expected(p, texts[i]) || From(missIdx, j, i))
  }

  lemma AnswerNext(p: Provider, texts: seq<string>, n: nat, out: seq<Vector>, missIdx: seq<nat>, missTexts: seq<string>)
    requires n < |texts| && Answered(p, texts, n, out, missIdx, missTexts, 0)
    ensures Answered(p, texts, n + 1, out[n := Expected(p, texts[n])], missIdx, missTexts, 0)
    ensures Trim(texts[n]) != "" ==> Answered(p, texts, n + 1, out, missIdx + [n], missTexts + [Trim(texts[n])], 0)
  {
    forall i: nat | From(missIdx, 0, i) ensures From(missIdx + [n], 0, i) {
      var m :| 0 <= m < |missIdx| && missIdx[m] == i;
      assert (missIdx + [n])[m] == i;
    }
    assert (missIdx + [n])[|missIdx|] == n;
    assert From(missIdx + [n], 0, n);
  }

  lemma StitchNext(p: Provider, texts: seq<string>, out: seq<Vector>, missIdx: seq<nat>, missTexts: seq<string>, j: nat)
    requires j < |missIdx| && Answered(p, texts, |texts|, out, missIdx, missTexts, j)
    ensures Answered(p, texts, |texts|, out[missIdx[j] := p.embed(missTexts[j])], missIdx, missTexts, j + 1)
  {
    forall i: nat | From(missIdx, j, i) && i != missIdx[j] ensures From(missIdx, j + 1, i) {
      var m :| j <= m < |missIdx| && missIdx[m] == i;
    }
  }

  lemma NothingMissing(p: Provider, texts: seq<string>, out: seq<Vector>, missIdx: seq<nat>, missTexts: seq<string>)
    requires Answered(p, texts, |texts|, out, missIdx, missTexts, |missIdx|)
    ensures |out| == |texts| && forall i :: 0 <= i < |texts| ==> out[i] == Expected(p, texts[i])
  {
  }

  class EmbedderService {
    const provider: Provider
    const cache: LRUCache<string, Vector>

    constructor (provider: Provider, cache: LRUCache<string, Vector>)
      ensures this.provider == provider && this.cache == cache
    {
      this.provider, this.cache := provider, cache;
    }

    method Embed(text: string) returns (v: Vector)
      requires Coherent(provider, cache.entries)
      modifies cache
      ensures v == Expected(provider, text) && Coherent(provider, cache.entries)
      ensures Keys(cache.entries) ==
        if Trim(text) == "" then Keys(old(cache.entries))
        else Touched(Keys(old(cache.entries)), cache.capacity, CacheKey(provider, Trim(text)))
    {
      var trimmed := Trim(text);
      if trimmed == "" {
        return Zeros(provider.dimensions);
      }
      var hit := LookUp(trimmed);
      if hit.Some? {
        return hit.value;
      }
      v := provider.embed(trimmed);
      Store(trimmed, v);
    }

    /** The step after the provider has replied; other calls may have come in between. */
    method Store(text: string, v: Vector)
      requires Coherent(provider, cache.entries) && v == provider.embed(text)
      modifies cache
      ensures Coherent(provider, cache.entries)
      ensures Keys(cache.entries) == Touched(Keys(old(cache.entries)), cache.capacity, CacheKey(provider, text))
    {
      CoherentStored(provider, cache.entries, cache.capacity, text);
      SetTouches(cache.entries, cache.capacity, CacheKey(provider, text), v);
      cache.Set(CacheKey(provider, text), v);
    }

    /** Look every text up first, ask the provider once for the misses, then store and stitch. */
    method EmbedMany(texts: seq<string>) returns (out: seq<Vector>)
      requires Coherent(provider, cache.entries)
      modifies cache
      ensures |out| == |texts| && Coherent(provider, cache.entries)
      ensures forall i :: 0 <= i < |texts| ==> out[i] == Expected(provider, texts[i])
      ensures Keys(cache.entries) == Batched(Keys(old(cache.entries)), cache.capacity, CacheKeys(provider, Worthy(texts)))
    {
      var missIdx, missTexts;
      out, missIdx, missTexts := LookUpAll(texts);
      StoreMisses(missTexts);
      ghost var after := cache.entries;
      for j := 0 to |missTexts|
        invariant cache.entries == after
        invariant Answered(provider, texts, |texts|, out, missIdx, missTexts, j)
      {
        StitchNext(provider, texts, out, missIdx, missTexts, j);
        out := out[missIdx[j] := provider.embed(missTexts[j])];
      }
      NothingMissing(provider, texts, out, missIdx, missTexts);
    }

    method StoreMisses(missTexts: seq<string>)
      requires Coherent(provider, cache.entries)
      modifies cache
      ensures Coherent(provider, cache.entries)
      ensures Keys(cache.entries) == TouchAll(Keys(old(cache.entries)), cache.capacity, CacheKeys(provider, missTexts))
    {
      ghost var before := Keys(cache.entries);
      for j := 0 to |missTexts|
        invariant Coherent(provider, cache.entries)
        invariant Keys(cache.entries) == TouchAll(before, cache.capacity, CacheKeys(provider, missTexts[..j]))
      {
        Store(missTexts[j], provider.embed(missTexts[j]));
        assert CacheKeys(provider, missTexts[..j+1])[..j] == CacheKeys(provider, missTexts[..j]);
      }
      assert missTexts[..|missTexts|] == missTexts;
    }

    method LookUpAll(texts: seq<string>) returns (out: seq<Vector>, missIdx: seq<nat>, missTexts: seq<string>)
      requires Coherent(provider, cache.entries)
      modifies cache
      ensures Coherent(provider, cache.entries)
      ensures Answered(provider, texts, |texts|, out, missIdx, missTexts, 0)
      ensures Keys(cache.entries) == RefreshAll(Keys(old(cache.entries)), CacheKeys(provider, Worthy(texts)))
      ensures CacheKeys(provider, missTexts) == Missed(Keys(old(cache.entries)), CacheKeys(provider, Worthy(texts)))
    {
      ghost var before := Keys(cache.entries);
      out := seq(|texts|, i => []);
      missIdx, missTexts := [], [];
      for i := 0 to |texts|
        invariant Coherent(provider, cache.entries)
        invariant Answered(provider, texts, i, out, missIdx, missTexts, 0)
        invariant Keys(cache.entries) == RefreshAll(before, CacheKeys(provider, Worthy(texts[..i])))
        invariant CacheKeys(provider, missTexts) == Missed(before, CacheKeys(provider, Worthy(texts[..i])))
      {
        assert texts[..i+1][..i] == texts[..i];
        AnswerNext(provider, texts, i, out, missIdx, missTexts);
        var trimmed := Trim(texts[i]);
        if trimmed == "" {
          assert Worthy(texts[..i+1]) == Worthy(texts[..i]);
          out := out[i := Zeros(provider.dimensions)];
        } else {
          OneMore(provider, Keys(cache.entries), before, Worthy(texts[..i]), trimmed, missTexts);
          var hit := LookUp(trimmed);
          if hit.Some? {
            out := out[i := hit.value];
          } else {
            missIdx, missTexts := missIdx + [i], missTexts + [trimmed];
          }
        }
      }
      assert texts[..|texts|] == texts;
    }

    method LookUp(text: string) returns (hit: Option<Vector>)
      requires Coherent(provider, cache.entries)
      modifies cache
      ensures Coherent(provider, cache.entries)
      ensures Keys(cache.entries) == Refreshed(Keys(old(cache.entries)), CacheKey(provider, text))
      ensures hit.Some? <==> CacheKey(provider, text) in Keys(old(cache.entries))
      ensures hit.Some? ==> hit.value == provider.embed(text)
    {
      var key := CacheKey(provider, text);
      CoherentGot(provider, cache.entries, text);
      GetRefreshes(cache.entries, key);
      LookupFinds(cache.entries, key);
      if Lookup(cache.entries, key).Some? {
        CoherentHit(provider, cache.entries, text);
      }
      hit := cache.Get(key);
    }
  }

  /** The first pass takes one more text. */
  lemma {:induction false} OneMore(p: Provider, now: seq<string>, before: seq<string>, texts: seq<string>, t: string, missed: seq<string>)
    requires now == RefreshAll(before, CacheKeys(p, texts)) && CacheKeys(p, missed) == Missed(before, CacheKeys(p, texts))
    ensures Refreshed(now, CacheKey(p, t)) == RefreshAll(before, CacheKeys(p, texts + [t]))
    ensures CacheKeys(p, if CacheKey(p, t) in now then missed else missed + [t]) == Missed(before, CacheKeys(p, texts + [t]))
  {
    var ks := CacheKeys(p, texts + [t]);
    assert ks[..|ks|-1] == CacheKeys(p, texts);
    assert CacheKeys(p, missed + [t]) == CacheKeys(p, missed) + [CacheKey(p, t)];
  }
}
