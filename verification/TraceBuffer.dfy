/** The in-memory ring of debug traces, bounded by count and by estimated bytes. */
module TraceBuffer {
  import opened Common

  /** An artifact's value, as far as the estimator looks at it. */
  datatype Value = Str(text: string) | Object(keys: nat) | Scalar

  datatype Snapshot = Snapshot(requestId: string, spans: Option<nat>, artifacts: Option<seq<Value>>)

  const CAPACITY: nat := 100
  const DEFAULT_BUDGET: nat := 64 * 1024 * 1024

  function ValueBytes(v: Value): nat {
    match v
    case Str(text) => |text|
    case Object(keys) => keys * 64 + 64
    case Scalar => 32
  }

  function ArtifactBytes(vs: seq<Value>): nat {
    if vs == [] then 0 else ArtifactBytes(vs[..|vs|-1]) + ValueBytes(vs[|vs|-1])
  }

  function Estimate(s: Snapshot): nat {
    256 + (if s.spans.Some? then s.spans.value else 0) * 256
        + (if s.artifacts.Some? then ArtifactBytes(s.artifacts.value) else 0)
  }

  function Total(b: seq<Snapshot>): nat {
    if b == [] then 0 else Total(b[..|b|-1]) + Estimate(b[|b|-1])
  }

  // ---------------------------------------------------- what should be kept

  /** The k newest snapshots respect both caps; the newest alone is exempt from the byte cap. */
  ghost predicate Fits(history: seq<Snapshot>, budget: nat, k: nat) {
    k <= |history| && k <= CAPACITY && (k <= 1 || Total(history[..k]) <= budget)
  }

  /** `buffer` is the longest newest-first prefix of `history` within both caps. */
  ghost predicate IsLongestPrefix(buffer: seq<Snapshot>, history: seq<Snapshot>, budget: nat) {
    && |buffer| <= |history| && buffer == history[..|buffer|]
    && Fits(history, budget, |buffer|)
    && forall k: nat :: Fits(history, budget, k) ==> k <= |buffer|
  }

  lemma {:induction false} TotalAppends(a: seq<Snapshot>, b: seq<Snapshot>)
    ensures Total(a + b) == Total(a) + Total(b)
  {
    if b == [] {
      assert a + b == a;
    } else {
      TotalAppends(a, b[..|b|-1]);
      assert (a + b)[..|a + b|-1] == a + b[..|b|-1];
    }
  }

  lemma TotalGrows(history: seq<Snapshot>, j: nat, k: nat)
    requires j < k <= |history|
    ensures Total(history[..j]) < Total(history[..k])
  {
    TotalAppends(history[..j], history[j..k]);
    assert history[..k] == history[..j] + history[j..k];
    assert Total(history[j..k]) >= Estimate(history[j..k][k-j-1]);
  }

  /** Every prefix of a prefix that fits also fits. */
  lemma FitsShrinks(history: seq<Snapshot>, budget: nat, j: nat, k: nat)
    requires j <= k && Fits(history, budget, k)
    ensures Fits(history, budget, j)
  {
    if 1 < j < k {
      TotalGrows(history, j, k);
    }
  }

  lemma NothingLongerFits(history: seq<Snapshot>, budget: nat, n: nat)
    requires Fits(history, budget, n) && !Fits(history, budget, n + 1)
    ensures IsLongestPrefix(history[..n], history, budget)
  {
    forall k: nat | Fits(history, budget, k)
      ensures k <= n
    {
      if k > n {
        FitsShrinks(history, budget, n + 1, k);
      }
    }
  }

  /** At most one buffer is the longest prefix: the history alone determines it. */
  lemma LongestIsUnique(a: seq<Snapshot>, b: seq<Snapshot>, history: seq<Snapshot>, budget: nat)
    requires IsLongestPrefix(a, history, budget) && IsLongestPrefix(b, history, budget)
    ensures a == b
  {
    assert Fits(history, budget, |a|) && Fits(history, budget, |b|);
  }

  /** A snapshot that no longer fits never fits again, so forgetting it loses nothing. */
  lemma FitsDemandsOlderFit(s: Snapshot, history: seq<Snapshot>, budget: nat, k: nat)
    requires k >= 1 && Fits([s] + history, budget, k)
    ensures Fits(history, budget, k - 1)
  {
    if k > 2 {
      TotalAppends([s], history[..k-1]);
      assert ([s] + history)[..k] == [s] + history[..k-1];
    }
  }

  /**
   * The eviction loops see only the old buffer, yet what they keep is the longest prefix
   * of the whole history.
   */
  lemma BufferStandsForHistory(s: Snapshot, b: seq<Snapshot>, history: seq<Snapshot>, budget: nat, kept: seq<Snapshot>)
    requires IsLongestPrefix(b, history, budget)
    ensures IsLongestPrefix(kept, [s] + b, budget) <==> IsLongestPrefix(kept, [s] + history, budget)
  {
    forall k: nat
      ensures Fits([s] + b, budget, k) <==> Fits([s] + history, budget, k)
    {
      if 1 <= k && Fits([s] + history, budget, k) {
        FitsDemandsOlderFit(s, history, budget, k);
      }
      if k <= |b| + 1 {
        assert ([s] + b)[..k] == ([s] + history)[..k];
      }
    }
    if |kept| <= |b| + 1 {
      assert ([s] + b)[..|kept|] == ([s] + history)[..|kept|];
    } else if |kept| <= |history| + 1 {
      assert !Fits([s] + b, budget, |kept|);
    }
  }

  lemma EvictionKeepsLongest(s: Snapshot, b: seq<Snapshot>, history: seq<Snapshot>, budget: nat, n: nat)
    requires IsLongestPrefix(b, history, budget)
    requires Fits([s] + b, budget, n) && !Fits([s] + b, budget, n + 1)
    ensures IsLongestPrefix(([s] + b)[..n], [s] + history, budget)
  {
    NothingLongerFits([s] + b, budget, n);
    BufferStandsForHistory(s, b, history, budget, ([s] + b)[..n]);
  }

  /** A larger byte budget keeps everything a smaller one does, and possibly older traces too. */
  lemma LargerBudgetKeepsMore(small: seq<Snapshot>, large: seq<Snapshot>, history: seq<Snapshot>, less: nat, more: nat)
    requires less <= more && IsLongestPrefix(small, history, less) && IsLongestPrefix(large, history, more)
    ensures small <= large
  {
    assert Fits(history, more, |small|);
  }

  /** At most a hundred snapshots are kept; a hundred that fit the budget together are kept all. */
  lemma HundredFit(buffer: seq<Snapshot>, history: seq<Snapshot>, budget: nat)
    requires IsLongestPrefix(buffer, history, budget)
    ensures |buffer| <= 100
    ensures |history| <= 100 && Total(history) <= budget ==> buffer == history
    ensures |history| >= 100 && Total(history[..100]) <= budget ==> buffer == history[..100]
    ensures |buffer| > 1 ==> Total(buffer) <= budget
  {
    assert history[..|history|] == history;
    if |history| <= 100 && Total(history) <= budget {
      assert Fits(history, budget, |history|);
    }
    if |history| >= 100 && Total(history[..100]) <= budget {
      assert Fits(history, budget, 100);
    }
  }

  /** What a snapshot weighs: 256 for itself and for each span; a text its length, an object 64 and 64 per key, anything
      else 32. */
  lemma {:induction false} EstimateIs(s: Snapshot)
    ensures s.artifacts.None? && s.spans.None? ==> Estimate(s) == 256
    ensures s.spans.Some? ==> Estimate(s) == Estimate(s.(spans := None)) + 256 * s.spans.value
    ensures s.artifacts == Some([]) ==> Estimate(s) == Estimate(s.(artifacts := None))
    ensures s.artifacts.Some? && s.artifacts.value != [] ==>
      var vs := s.artifacts.value;
      var last := vs[|vs|-1];
      Estimate(s) == Estimate(s.(artifacts := Some(vs[..|vs|-1])))
        + if last.Str? then |last.text| else if last.Object? then 64 + 64 * last.keys else 32
  {
  }

  // ------------------------------------------------------------ the service

  class TraceBufferService {
    const byteBudget: nat
    var buffer: seq<Snapshot>
    var bufferBytes: int
    /** Every snapshot ever added, newest first. */
    ghost var history: seq<Snapshot>

    ghost predicate Valid()
      reads this
    {
      IsLongestPrefix(buffer, history, byteBudget) && bufferBytes == Total(buffer)
    }

    /** An unparsable or non-positive setting falls back to 64 MiB. */
    constructor (configured: Option<int>)
      ensures Valid() && history == [] && buffer == []
      ensures byteBudget == if configured.Some? && configured.value > 0 then configured.value else DEFAULT_BUDGET
    {
      byteBudget := if configured.Some? && configured.value > 0 then configured.value else DEFAULT_BUDGET;
      buffer, bufferBytes, history := [], 0, [];
    }

    method Add(snapshot: Snapshot)
      requires Valid()
      modifies this
      ensures Valid() && history == [snapshot] + old(history)
      ensures buffer != [] && buffer[0] == snapshot
    {
      var size := EstimateSnapshotBytes(snapshot);
      ghost var full := [snapshot] + buffer;
      TotalAppends([snapshot], buffer);
      buffer := [snapshot] + buffer;
      bufferBytes := bufferBytes + size;
      EvictByCount(full);
      EvictByBytes(full);
      EvictionKeepsLongest(snapshot, old(buffer), history, byteBudget, |buffer|);
      history := [snapshot] + history;
    }

    method EvictByCount(ghost full: seq<Snapshot>)
      requires full != [] && buffer == full && bufferBytes == Total(buffer)
      modifies this`buffer, this`bufferBytes
      ensures 1 <= |buffer| <= CAPACITY && buffer <= full && bufferBytes == Total(buffer)
      ensures !Fits(full, byteBudget, |buffer| + 1)
    {
      while |buffer| > CAPACITY
        invariant 1 <= |buffer| && buffer <= full && bufferBytes == Total(buffer)
        invariant !Fits(full, byteBudget, |buffer| + 1)
      {
        Pop();
      }
    }

    method EvictByBytes(ghost full: seq<Snapshot>)
      requires 1 <= |buffer| <= CAPACITY && buffer <= full && bufferBytes == Total(buffer)
      requires !Fits(full, byteBudget, |buffer| + 1)
      modifies this`buffer, this`bufferBytes
      ensures 1 <= |buffer| && buffer <= full && bufferBytes == Total(buffer)
      ensures Fits(full, byteBudget, |buffer|) && !Fits(full, byteBudget, |buffer| + 1)
    {
      while bufferBytes > byteBudget && |buffer| > 1
        invariant 1 <= |buffer| <= CAPACITY && buffer <= full && bufferBytes == Total(buffer)
        invariant !Fits(full, byteBudget, |buffer| + 1)
      {
        assert full[..|buffer|] == buffer;
        Pop();
      }
      assert full[..|buffer|] == buffer;
    }

    method Pop()
      requires buffer != [] && bufferBytes == Total(buffer)
      modifies this`buffer, this`bufferBytes
      ensures buffer == old(buffer)[..|old(buffer)|-1] && bufferBytes == Total(buffer)
    {
      var size := EstimateSnapshotBytes(buffer[|buffer|-1]);
      buffer := buffer[..|buffer|-1];
      bufferBytes := bufferBytes - size;
    }
  }

  method EstimateSnapshotBytes(s: Snapshot) returns (bytes: nat)
    ensures bytes == Estimate(s)
  {
    var spans := if s.spans.Some? then s.spans.value * 256 else 0;
    var artifacts := if s.artifacts.Some? then s.artifacts.value else [];
    var artifactBytes := 0;
    for i := 0 to |artifacts|
      invariant artifactBytes == ArtifactBytes(artifacts[..i])
    {
      assert artifacts[..i+1][..i] == artifacts[..i];
      artifactBytes := artifactBytes + ValueBytes(artifacts[i]);
    }
    assert artifacts[..|artifacts|] == artifacts;
    bytes := 256 + spans + artifactBytes;
  }
}
