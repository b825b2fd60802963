/** Listwise reranking: validation of model replies, shuffled presentations, and Borda aggregation. */
module Reranker {
  import opened Common
  import opened Shuffling

  /** A ranking of the candidates 0 .. n-1. */
  ghost predicate IsRanking(s: seq<nat>, n: nat) {
    && |s| == n && Distinct(s)
    && forall i :: 0 <= i < n ==> s[i] < n
  }

  function Identity(n: nat): seq<nat> {
    seq(n, i => i)
  }

  /** A reply that parsed as an array; None stands for an entry that is not an integer. */
  type Reply = seq<Option<int>>

  predicate WellFormed(reply: Reply, n: nat) {
    && (forall i :: 0 <= i < |reply| ==> reply[i].Some? && 0 <= reply[i].value < n)
    && (forall i, j :: 0 <= i < j < |reply| ==> reply[i] != reply[j])
  }

  // ------------------------------------------------------- validating replies

  function Below(n: nat): set<nat> {
    if n == 0 then {} else Below(n - 1) + {n - 1}
  }

  lemma {:induction false} BelowIs(n: nat)
    ensures |Below(n)| == n && forall x: nat :: x in Below(n) <==> x < n
  {
    if n > 0 {
      BelowIs(n - 1);
    }
  }

  lemma {:induction false} RankingFull(s: seq<nat>, n: nat, c: nat)
    requires IsRanking(s, n) && c < n
    ensures c in s
  {
    BelowIs(n);
    DistinctSize(s);
    assert Elems(s) <= Below(n);
    if c !in s {
      SubsetSize(Elems(s), Below(n) - {c});
    }
  }

  /** The validation loop shared by both rerankers: in range, integral, no repetition. */
  method Validate(reply: Reply, n: nat) returns (ok: bool, out: seq<nat>, seen: set<nat>)
    ensures ok <==> WellFormed(reply, n)
    ensures ok ==> |out| == |reply| && Distinct(out) && seen == Elems(out)
    ensures ok ==> forall i :: 0 <= i < |reply| ==> reply[i] == Some(out[i])
  {
    out, seen := [], {};
    for k := 0 to |reply|
      invariant |out| == k && Distinct(out) && seen == Elems(out)
      invariant forall i :: 0 <= i < k ==> reply[i] == Some(out[i]) && out[i] < n
    {
      var x := reply[k];
      if x.None? || x.value < 0 || x.value >= n || x.value in seen {
        if x.Some? && x.value >= 0 && x.value < n {
          var i :| 0 <= i < |out| && out[i] == x.value;
          assert reply[i] == reply[k];
        }
        return false, out, seen;
      }
      seen := seen + {x.value};
      out := out + [x.value];
    }
    ok := true;
  }

  /** `r` is what the reply to the presentation `order` says: the candidates it names, in its order, if it names each
      presented place exactly once; the original order otherwise. */
  ghost predicate Answers(order: seq<nat>, reply: Option<Reply>, n: nat, r: seq<nat>)
    requires |order| == n
  {
    if reply.Some? && |reply.value| == n
       && (forall i :: 0 <= i < n ==> reply.value[i].Some? && 0 <= reply.value[i].value < n)
       && (forall i, j :: 0 <= i < j < n ==> reply.value[i] != reply.value[j])
    then |r| == n && forall i :: 0 <= i < n ==> r[i] == order[reply.value[i].value]
    else |r| == n && forall i :: 0 <= i < n ==> r[i] == i
  }

  /** The order a valid reply names, mapped back through the presentation order; the identity otherwise. */
  method SingleRerank(order: seq<nat>, reply: Option<Reply>, n: nat) returns (r: seq<nat>)
    requires IsRanking(order, n)
    ensures IsRanking(r, n)
    ensures reply.Some? && WellFormed(reply.value, n) && |reply.value| == n ==>
      forall i :: 0 <= i < n ==> r[i] == order[reply.value[i].value]
    ensures !(reply.Some? && WellFormed(reply.value, n) && |reply.value| == n) ==> r == Identity(n)
    ensures Answers(order, reply, n, r)
  {
    if reply.None? {
      return Identity(n);
    }
    var ok, out, _ := Validate(reply.value, n);
    if !ok || |out| != n {
      return Identity(n);
    }
    r := seq(n, i requires 0 <= i < n => order[out[i]]);
    forall i, j | 0 <= i < j < n ensures r[i] != r[j] {
      assert out[i] != out[j];
    }
  }

  function MissingUpTo(out: seq<nat>, n: nat): seq<nat> {
    if n == 0 then [] else MissingUpTo(out, n - 1) + (if n - 1 in out then [] else [n - 1])
  }

  lemma {:induction false} MissingIs(out: seq<nat>, n: nat, x: nat)
    ensures x in MissingUpTo(out, n) <==> x < n && x !in out
    ensures forall i, j :: 0 <= i < j < |MissingUpTo(out, n)| ==> MissingUpTo(out, n)[i] < MissingUpTo(out, n)[j] < n
    ensures forall i :: 0 <= i < |MissingUpTo(out, n)| ==> MissingUpTo(out, n)[i] < n && MissingUpTo(out, n)[i] !in out
  {
    if n > 0 {
      MissingIs(out, n - 1, x);
    }
  }

  /** The cross-encoder keeps a valid partial ranking and appends what it left out, in original order. */
  method CompleteRanking(reply: Reply, n: nat) returns (r: seq<nat>)
    ensures IsRanking(r, n)
    ensures reply != [] && WellFormed(reply, n) ==>
      && |reply| <= n && (forall i :: 0 <= i < |reply| ==> reply[i] == Some(r[i]))
      && (forall i, j :: |reply| <= i < j < n ==> r[i] < r[j])
    ensures !(reply != [] && WellFormed(reply, n)) ==> r == Identity(n)
  {
    if reply == [] {
      return Identity(n);
    }
    var ok, out, seen := Validate(reply, n);
    if !ok {
      return Identity(n);
    }
    r := out;
    if |out| < n {
      for i := 0 to n
        invariant r == out + MissingUpTo(out, i)
      {
        if i !in seen {
          r := r + [i];
        }
      }
    }
    TailCompletes(out, n);
    assert r == out + MissingUpTo(out, n);
  }

  lemma TailCompletes(out: seq<nat>, n: nat)
    requires Distinct(out) && forall i :: 0 <= i < |out| ==> out[i] < n
    ensures IsRanking(out + MissingUpTo(out, n), n)
    ensures forall i, j :: |out| <= i < j < n ==> (out + MissingUpTo(out, n))[i] < (out + MissingUpTo(out, n))[j]
  {
    MissingIs(out, n, 0);
    var r := out + MissingUpTo(out, n);
    assert Distinct(r);
    DistinctSize(r);
    BelowIs(n);
    forall x: nat ensures x in Elems(r) <==> x in Below(n) {
      MissingIs(out, n, x);
    }
    assert Elems(r) == Below(n);
  }

  /** Every order of the candidates can come up. */
  lemma EveryOrderComesUp(t: seq<nat>, n: nat) returns (draws: seq<nat>)
    requires IsRanking(t, n)
    ensures |draws| == n && Shuffled(Identity(n), n, draws) == t
  {
    var s := Identity(n);
    forall x | x in s ensures x in t {
      RankingFull(t, n, x);
    }
    forall x | x in t ensures x in s {
      assert s[x] == x;
    }
    assert Elems(s) == Elems(t);
    assert s[n..] == [] == t[n..];
    draws := DrawsFor(s, t, n);
  }

  /** Fisher-Yates; draws[i] is the random number that picks the partner of place i. */
  method Shuffle(n: nat, draws: seq<nat>) returns (r: seq<nat>)
    requires |draws| == n
    ensures IsRanking(r, n)
    ensures r == Shuffled(Identity(n), n, draws)
  {
    var out := new nat[n](i => i);
    assert out[..] == Identity(n);
    SwapInPlace(out, draws);
    r := out[..];
    ShuffledElems(Identity(n), n, draws);
    ShuffleRanks(r, n);
  }

  lemma ShuffleRanks(r: seq<nat>, n: nat)
    requires |r| == n && Distinct(r) && Elems(r) == Elems(Identity(n))
    ensures IsRanking(r, n)
  {
    forall i | 0 <= i < n ensures r[i] < n {
      assert r[i] in Elems(r);
    }
  }

  // ------------------------------------------------------------- Borda points

  /** The points after the first k positions of one ranking: position p earns n - p. */
  function Awarded(points: seq<int>, rank: seq<nat>, n: nat, k: nat): (r: seq<int>)
    requires |points| == n && k <= |rank| && forall i :: 0 <= i < |rank| ==> rank[i] < n
    ensures |r| == n
  {
    if k == 0 then points
    else
      var before := Awarded(points, rank, n, k - 1);
      before[rank[k-1] := before[rank[k-1]] + (n - (k - 1))]
  }

  ghost predicate AllRankings(rankings: seq<seq<nat>>, n: nat) {
    forall i :: 0 <= i < |rankings| ==> IsRanking(rankings[i], n)
  }

  function Tally(rankings: seq<seq<nat>>, n: nat): (r: seq<int>)
    requires AllRankings(rankings, n)
    ensures |r| == n
  {
    if rankings == [] then seq(n, i => 0)
    else Awarded(Tally(rankings[..|rankings|-1], n), rankings[|rankings|-1], n, n)
  }

  function Sum(s: seq<int>): int {
    if s == [] then 0 else Sum(s[..|s|-1]) + s[|s|-1]
  }

  lemma {:induction false} SumUpdated(s: seq<int>, i: nat, x: int)
    requires i < |s|
    ensures Sum(s[i := x]) == Sum(s) - s[i] + x
  {
    var n := |s| - 1;
    if i == n {
      assert s[i := x][..n] == s[..n];
    } else {
      SumUpdated(s[..n], i, x);
      assert s[i := x][..n] == s[..n][i := x];
    }
  }

  /** Twice the points given by the first k positions. */
  lemma {:induction false} AwardedSum(points: seq<int>, rank: seq<nat>, n: nat, k: nat)
    requires |points| == n && |rank| == n && k <= n && forall i :: 0 <= i < n ==> rank[i] < n
    ensures 2 * Sum(Awarded(points, rank, n, k)) == 2 * Sum(points) + k * (2 * n - k + 1)
  {
    if k > 0 {
      AwardedSum(points, rank, n, k - 1);
      var before := Awarded(points, rank, n, k - 1);
      SumUpdated(before, rank[k-1], before[rank[k-1]] + (n - (k - 1)));
      assert k * (2 * n - k + 1) == (k - 1) * (2 * n - k + 2) + 2 * (n - k + 1);
    }
  }

  lemma {:induction false} ZeroSum(n: nat)
    ensures Sum(seq(n, i => 0)) == 0
  {
    if n > 0 {
      ZeroSum(n - 1);
      assert seq(n, i => 0)[..n-1] == seq(n - 1, i => 0);
    }
  }

  /** m rankings of n candidates hand out m * n * (n + 1) / 2 points in all. */
  lemma {:induction false} PointsConserved(rankings: seq<seq<nat>>, n: nat)
    requires AllRankings(rankings, n)
    ensures 2 * Sum(Tally(rankings, n)) == |rankings| * (n * (n + 1))
  {
    if rankings == [] {
      ZeroSum(n);
    } else {
      var m := |rankings| - 1;
      PointsConserved(rankings[..m], n);
      AwardedSum(Tally(rankings[..m], n), rankings[m], n, n);
      OneMoreRanking(m, n);
    }
  }

  lemma OneMoreRanking(m: nat, n: nat)
    ensures m * (n * (n + 1)) + n * (2 * n - n + 1) == (m + 1) * (n * (n + 1))
  {
    assert n * (2 * n - n + 1) == n * (n + 1);
  }

  /** What one ranking gives to the candidate at position p. */
  lemma {:induction false} AwardedAt(points: seq<int>, rank: seq<nat>, n: nat, k: nat, p: nat)
    requires |points| == n && IsRanking(rank, n) && k <= n && p < n
    ensures Awarded(points, rank, n, k)[rank[p]] == points[rank[p]] + (if p < k then n - p else 0)
  {
    if k > 0 {
      AwardedAt(points, rank, n, k - 1, p);
      assert p != k - 1 ==> rank[p] != rank[k-1];
    }
  }

  ghost predicate Before(rank: seq<nat>, a: nat, b: nat) {
    exists p, q :: 0 <= p < q < |rank| && rank[p] == a && rank[q] == b
  }

  lemma {:induction false} AgreedTally(rankings: seq<seq<nat>>, n: nat, a: nat, b: nat)
    requires AllRankings(rankings, n) && a < n && b < n
    requires forall i :: 0 <= i < |rankings| ==> Before(rankings[i], a, b)
    ensures Tally(rankings, n)[a] - Tally(rankings, n)[b] >= |rankings|
  {
    if rankings != [] {
      var m := |rankings| - 1;
      AgreedTally(rankings[..m], n, a, b);
      var last := rankings[m];
      var p, q :| 0 <= p < q < |last| && last[p] == a && last[q] == b;
      AwardedAt(Tally(rankings[..m], n), last, n, n, p);
      AwardedAt(Tally(rankings[..m], n), last, n, n, q);
    }
  }

  // -------------------------------------------------------------- aggregation

  /** More points first, the lower index on a tie. */
  predicate Ahead(points: seq<int>, a: nat, b: nat)
    requires a < |points| && b < |points|
  {
    points[a] > points[b] || (points[a] == points[b] && a < b)
  }

  ghost predicate Ordered(points: seq<int>, r: seq<nat>) {
    && IsRanking(r, |points|)
    && forall i, j :: 0 <= i < j < |r| ==> Ahead(points, r[i], r[j])
  }

  /** The ordering determines the ranking. */
  lemma OrderedBefore(points: seq<int>, r: seq<nat>, a: nat, b: nat)
    requires Ordered(points, r) && a < |points| && b < |points| && Ahead(points, a, b)
    ensures Before(r, a, b)
  {
    RankingFull(r, |points|, a);
    RankingFull(r, |points|, b);
    var p :| 0 <= p < |r| && r[p] == a;
    var q :| 0 <= q < |r| && r[q] == b;
    assert p < q;
  }

  /** More points come first; on equal points the lower index does. */
  lemma PointsDecide(points: seq<int>, r: seq<nat>, a: nat, b: nat)
    requires Ordered(points, r) && a < |points| && b < |points|
    ensures points[a] > points[b] || (points[a] == points[b] && a < b) ==> Before(r, a, b)
  {
    if Ahead(points, a, b) {
      OrderedBefore(points, r, a, b);
    }
  }

  /** A single ranking gives n points to its first candidate, n - 1 to the next, and so on down to 1. */
  lemma {:induction false} OneRankingGives(rankings: seq<seq<nat>>, rank: seq<nat>, n: nat, p: nat)
    requires AllRankings(rankings, n) && IsRanking(rank, n) && p < n
    ensures AllRankings(rankings + [rank], n)
    ensures Tally(rankings + [rank], n)[rank[p]] == Tally(rankings, n)[rank[p]] + n - p
  {
    assert (rankings + [rank])[..|rankings|] == rankings;
    AwardedAt(Tally(rankings, n), rank, n, n, p);
  }

  /** Insert candidate c in front of the first candidate it is ahead of. */
  method InsertCandidate(points: seq<int>, r: seq<nat>, c: nat) returns (out: seq<nat>)
    requires c < |points| && (forall i :: 0 <= i < |r| ==> r[i] < c)
    requires forall i, j :: 0 <= i < j < |r| ==> Ahead(points, r[i], r[j])
    ensures |out| == |r| + 1 && (forall i :: 0 <= i < |out| ==> out[i] <= c)
    ensures forall i, j :: 0 <= i < j < |out| ==> Ahead(points, out[i], out[j])
  {
    var k := |r|;
    while k > 0 && points[r[k-1]] < points[c]
      invariant 0 <= k <= |r|
      invariant forall i :: k <= i < |r| ==> Ahead(points, c, r[i])
    {
      k := k - 1;
    }
    out := r[..k] + [c] + r[k..];
  }

  /** Sum the points of every list, then sort by points descending and index ascending. */
  method BordaAggregate(rankings: seq<seq<nat>>, n: nat) returns (r: seq<nat>)
    requires AllRankings(rankings, n)
    ensures Ordered(Tally(rankings, n), r)
  {
    var points := new int[n](i => 0);
    assert points[..] == seq(n, i => 0);
    for k := 0 to |rankings|
      invariant points[..] == Tally(rankings[..k], n)
    {
      var rank := rankings[k];
      assert rankings[..k+1][..k] == rankings[..k];
      for pos := 0 to |rank|
        invariant points[..] == Awarded(Tally(rankings[..k], n), rank, n, pos)
      {
        var candidate := rank[pos];
        points[candidate] := points[candidate] + (n - pos);
      }
    }
    assert rankings[..|rankings|] == rankings;
    var scores := points[..];
    r := [];
    for c := 0 to n
      invariant |r| == c && (forall i :: 0 <= i < c ==> r[i] < c)
      invariant forall i, j :: 0 <= i < j < c ==> Ahead(scores, r[i], r[j])
    {
      r := InsertCandidate(scores, r, c);
    }
  }

  /** If every contributing ranking puts a before b, so does the aggregate. */
  lemma AgreementRespected(rankings: seq<seq<nat>>, n: nat, r: seq<nat>, a: nat, b: nat)
    requires AllRankings(rankings, n) && rankings != [] && Ordered(Tally(rankings, n), r) && a < n && b < n
    requires forall i :: 0 <= i < |rankings| ==> Before(rankings[i], a, b)
    ensures Before(r, a, b)
  {
    AgreedTally(rankings, n, a, b);
    OrderedBefore(Tally(rankings, n), r, a, b);
  }

  /** Unanimous rankings come back unchanged. */
  lemma UnanimityKept(rank: seq<nat>, rankings: seq<seq<nat>>, n: nat, r: seq<nat>)
    requires AllRankings(rankings, n) && rankings != [] && Ordered(Tally(rankings, n), r)
    requires forall i :: 0 <= i < |rankings| ==> rankings[i] == rank
    ensures r == rank
  {
    var points := Tally(rankings, n);
    assert rankings[0] == rank && IsRanking(rank, n);
    forall i, j | 0 <= i < j < n ensures Ahead(points, rank[i], rank[j]) {
      forall k | 0 <= k < |rankings| ensures Before(rankings[k], rank[i], rank[j]) {
        assert rankings[k] == rank;
      }
      AgreedTally(rankings, n, rank[i], rank[j]);
    }
    SameOrder(points, r, rank, n);
  }

  lemma {:induction false} SameOrder(points: seq<int>, r: seq<nat>, s: seq<nat>, n: nat)
    requires |points| == n && Ordered(points, r) && Ordered(points, s)
    ensures r == s
  {
    forall i | 0 <= i < n ensures r[i] == s[i] {
      SameAt(points, r, s, i);
    }
  }

  lemma {:induction false} SameAt(points: seq<int>, r: seq<nat>, s: seq<nat>, i: nat)
    requires Ordered(points, r) && Ordered(points, s) && i < |r| && |r| == |s| == |points|
    ensures r[i] == s[i]
    decreases i
  {
    forall k | 0 <= k < i ensures r[k] == s[k] {
      SameAt(points, r, s, k);
    }
    RankingFull(s, |s|, r[i]);
    RankingFull(r, |r|, s[i]);
    var p :| 0 <= p < |s| && s[p] == r[i];
    var q :| 0 <= q < |r| && r[q] == s[i];
    assert p >= i && q >= i;
  }

  // ------------------------------------------------------------------- rerank

  /** One call per presentation, each freshly shuffled. */
  method AskAll(n: nat, calls: nat, random: (nat, nat) -> nat, replies: nat -> Option<Reply>)
    returns (orders: seq<seq<nat>>, rankings: seq<seq<nat>>)
    ensures |orders| == |rankings| == calls && AllRankings(orders, n) && AllRankings(rankings, n)
    ensures forall k :: 0 <= k < calls ==> Answers(orders[k], replies(k), n, rankings[k])
  {
    orders, rankings := [], [];
    for k := 0 to calls
      invariant |orders| == |rankings| == k && AllRankings(orders, n) && AllRankings(rankings, n)
      invariant forall j :: 0 <= j < k ==> Answers(orders[j], replies(j), n, rankings[j])
    {
      var order := Shuffle(n, seq(n, i requires 0 <= i => random(k, i)));
      var ranking := SingleRerank(order, replies(k), n);
      orders, rankings := orders + [order], rankings + [ranking];
    }
  }

  /** Whatever the model replies to each presentation, the result is a permutation of the candidates; with several
      calls it is ordered by the Borda points of all of them. */
  method Rerank(enabled: bool, blankQuery: bool, n: nat, calls: nat, random: (nat, nat) -> nat, replies: nat -> Option<Reply>)
    returns (r: seq<nat>, ghost orders: seq<seq<nat>>, ghost rankings: seq<seq<nat>>)
    requires calls >= 1
    ensures IsRanking(r, n) && AllRankings(rankings, n) && AllRankings(orders, n) && |orders| == |rankings|
    ensures forall k :: 0 <= k < |rankings| ==> Answers(orders[k], replies(k), n, rankings[k])
    ensures calls == 1 && rankings != [] ==> orders[0] == Identity(n)
    ensures !enabled || n <= 1 || blankQuery ==> r == Identity(n)
    ensures enabled && n > 1 && !blankQuery ==> |rankings| == calls
    ensures enabled && n > 1 && !blankQuery && calls == 1 ==> r == rankings[0]
    ensures enabled && n > 1 && !blankQuery && calls > 1 ==> Ordered(Tally(rankings, n), r)
  {
    if !enabled || n <= 1 || blankQuery {
      return Identity(n), [], [];
    }
    if calls == 1 {
      r := SingleRerank(Identity(n), replies(0), n);
      return r, [Identity(n)], [r];
    }
    var shuffled, collected := AskAll(n, calls, random, replies);
    orders, rankings := shuffled, collected;
    r := BordaAggregate(collected, n);
  }
}
