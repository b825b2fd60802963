/** Fisher-Yates: the swaps as a function of the random draws, and every order reachable through them. */
module Shuffling {
  import opened Common

  function Swapped<T>(s: seq<T>, i: nat, j: nat): seq<T>
    requires i < |s| && j < |s|
  {
    s[i := s[j]][j := s[i]]
  }

  /** The swaps for the first k places, from the last of them down: draws[i] picks the partner of place i. */
  function Shuffled<T>(s: seq<T>, k: nat, draws: seq<nat>): (r: seq<T>)
    requires k <= |s| && k <= |draws|
    ensures |r| == |s|
    decreases k
  {
    if k <= 1 then s else Shuffled(Swapped(s, k - 1, draws[k-1] % k), k - 1, draws)
  }

  lemma {:induction false} ShuffledLocally<T>(s: seq<T>, k: nat, draws: seq<nat>, more: seq<nat>)
    requires k <= |s| && k <= |draws|
    ensures Shuffled(s, k, draws + more) == Shuffled(s, k, draws)
    decreases k
  {
    if k > 1 {
      assert (draws + more)[k-1] == draws[k-1];
      ShuffledLocally(Swapped(s, k - 1, draws[k-1] % k), k - 1, draws, more);
    }
  }

  lemma SwapKeeps<T>(s: seq<T>, i: nat, j: nat)
    requires i < |s| && j < |s| && Distinct(s)
    ensures Distinct(Swapped(s, i, j)) && Elems(Swapped(s, i, j)) == Elems(s)
  {
    var u := Swapped(s, i, j);
    forall x | x in s ensures x in u {
      var p :| 0 <= p < |s| && s[p] == x;
      assert u[if p == j then i else if p == i then j else p] == x;
    }
  }

  /** A shuffle is a permutation. */
  lemma {:induction false} ShuffledElems<T>(s: seq<T>, k: nat, draws: seq<nat>)
    requires k <= |s| && k <= |draws| && Distinct(s)
    ensures Distinct(Shuffled(s, k, draws)) && Elems(Shuffled(s, k, draws)) == Elems(s)
    decreases k
  {
    if k > 1 {
      SwapKeeps(s, k - 1, draws[k-1] % k);
      ShuffledElems(Swapped(s, k - 1, draws[k-1] % k), k - 1, draws);
    }
  }

  /** s can still be turned into t by permuting its first k places. */
  ghost predicate Reachable<T>(s: seq<T>, t: seq<T>, k: nat) {
    && k <= |s| == |t| && Distinct(s) && Distinct(t) && Elems(s) == Elems(t)
    && forall m :: k <= m < |s| ==> s[m] == t[m]
  }

  lemma PlaceOf<T>(s: seq<T>, t: seq<T>, k: nat) returns (j: nat)
    requires Reachable(s, t, k) && k > 0
    ensures j < k && Reachable(Swapped(s, k - 1, j), t, k - 1)
  {
    assert t[k-1] in Elems(t);
    j :| 0 <= j < |s| && s[j] == t[k-1];
    SwapKeeps(s, k - 1, j);
  }

  lemma Remainder(j: nat, k: nat)
    requires j < k
    ensures j % k == j
  {
  }

  lemma {:induction false} ShuffledStep<T>(s: seq<T>, k: nat, draws: seq<nat>, j: nat)
    requires 1 <= k <= |s| && |draws| == k - 1 && j < k
    ensures Shuffled(s, k, draws + [j]) == Shuffled(Swapped(s, k - 1, j), k - 1, draws)
  {
    Remainder(j, k);
    assert (draws + [j])[k-1] == j;
    ShuffledLocally(Swapped(s, k - 1, j), k - 1, draws, [j]);
    assert k == 1 ==> Swapped(s, 0, 0) == s;
  }

  lemma AllInPlace<T>(s: seq<T>, t: seq<T>)
    requires Reachable(s, t, 0)
    ensures s == t
  {
  }

  lemma {:induction false} DrawsFor<T>(s: seq<T>, t: seq<T>, k: nat) returns (draws: seq<nat>)
    requires Reachable(s, t, k)
    ensures |draws| == k && Shuffled(s, k, draws) == t
    decreases k
  {
    if k == 0 {
      draws := [];
      AllInPlace(s, t);
    } else {
      var j := PlaceOf(s, t, k);
      var u := Swapped(s, k - 1, j);
      var rest := DrawsFor(u, t, k - 1);
      ShuffledStep(s, k, rest, j);
      draws := rest + [j];
    }
  }

  /** The loop, on the array. */
  method SwapInPlace<T>(out: array<T>, draws: seq<nat>)
    requires |draws| == out.Length
    modifies out
    ensures out[..] == Shuffled(old(out[..]), out.Length, draws)
  {
    var i := out.Length - 1;
    while i > 0
      invariant -1 <= i < out.Length
      invariant Shuffled(out[..], i + 1, draws) == Shuffled(old(out[..]), out.Length, draws)
    {
      var j := draws[i] % (i + 1);
      ghost var before := out[..];
      out[i], out[j] := out[j], out[i];
      assert out[..] == Swapped(before, i, j);
      i := i - 1;
    }
  }
}
