/**
 * The in-place shuffle of the index vector. The random generator is replaced by
 * the sequence of draws it would have produced: the Fisher-Yates loop visits
 * positions len-1 down to 1 and swaps position i with position draws[i], a draw
 * from 0..=i.
 */
module Shuffle {
  import opened Sequences

  /** The ordinals 0, 1, ..., n-1 in increasing order. */
  function Range(n: nat): (r: seq<nat>)
    ensures |r| == n && forall i :: 0 <= i < n ==> r[i] == i
  {
    seq(n, i requires 0 <= i < n => i)
  }

  /** One draw per position; the draw for position i lies in 0..=i. */
  predicate ValidDraws(draws: seq<nat>, n: nat) {
    |draws| == n && forall i :: 0 <= i < n ==> draws[i] <= i
  }

  function Swap<T>(s: seq<T>, i: nat, j: nat): (r: seq<T>)
    requires i < |s| && j < |s|
    ensures |r| == |s| && r[i] == s[j] && r[j] == s[i]
    ensures forall k :: 0 <= k < |s| && k != i && k != j ==> r[k] == s[k]
  {
    s[i := s[j]][j := s[i]]
  }

  lemma SwapPermutes<T>(s: seq<T>, i: nat, j: nat)
    requires i < |s| && j < |s|
    ensures multiset(Swap(s, i, j)) == multiset(s)
  {
    if i != j {
      var t := s[i := s[j]];
      assert multiset(t) == multiset(s) - multiset{s[i]} + multiset{s[j]};
      assert t[j] == s[j];
      assert multiset(t[j := s[i]]) == multiset(t) - multiset{s[j]} + multiset{s[i]};
    }
  }

  /** The steps of the shuffle for positions i, i-1, ..., 1, applied to `s`. */
  function ShuffleDown<T>(s: seq<T>, draws: seq<nat>, i: nat): seq<T>
    requires ValidDraws(draws, |s|) && i < |s|
    decreases i
  {
    if i == 0 then s else ShuffleDown(Swap(s, i, draws[i]), draws, i - 1)
  }

  /** The order the shuffle leaves `s` in, given the generator's draws. */
  function Shuffled<T>(s: seq<T>, draws: seq<nat>): (r: seq<T>)
    requires ValidDraws(draws, |s|)
    ensures |r| == |s| && multiset(r) == multiset(s)
  {
    if s == [] then s
    else
      ShuffleDownPermutes(s, draws, |s| - 1);
      ShuffleDown(s, draws, |s| - 1)
  }

  lemma {:induction false} ShuffleDownPermutes<T>(s: seq<T>, draws: seq<nat>, i: nat)
    requires ValidDraws(draws, |s|) && i < |s|
    ensures |ShuffleDown(s, draws, i)| == |s|
    ensures multiset(ShuffleDown(s, draws, i)) == multiset(s)
    decreases i
  {
    if i > 0 {
      SwapPermutes(s, i, draws[i]);
      ShuffleDownPermutes(Swap(s, i, draws[i]), draws, i - 1);
    }
  }

  /** The steps for positions i, i-1, ..., 1 read only the draws at those positions. */
  lemma {:induction false} ShuffleDownFrame<T>(s: seq<T>, d1: seq<nat>, d2: seq<nat>, i: nat)
    requires ValidDraws(d1, |s|) && ValidDraws(d2, |s|) && i < |s|
    requires forall k :: 0 < k <= i ==> d1[k] == d2[k]
    ensures ShuffleDown(s, d1, i) == ShuffleDown(s, d2, i)
    decreases i
  {
    if i > 0 {
      ShuffleDownFrame(Swap(s, i, d1[i]), d1, d2, i - 1);
    }
  }

  lemma SameSingletonPrefix<T>(s: seq<T>, t: seq<T>)
    requires |s| == |t| > 0
    requires multiset(s[..1]) == multiset(t[..1]) && s[1..] == t[1..]
    ensures s == t
  {
    assert s[0] in multiset(t[..1]);
    assert s == s[..1] + s[1..] && t == t[..1] + t[1..];
  }

  /** A position among the first i+1 of `s` that holds `t[i]`. */
  lemma SourceOf<T>(s: seq<T>, t: seq<T>, i: nat) returns (j: nat)
    requires |s| == |t| && i < |s|
    requires multiset(s[..i + 1]) == multiset(t[..i + 1])
    ensures j <= i && s[j] == t[i]
  {
    assert t[..i + 1][i] == t[i];
    assert t[i] in multiset(t[..i + 1]);
    assert t[i] in s[..i + 1];
    j :| 0 <= j <= i && s[j] == t[i];
  }

  /** Swapping position i with the position j holding t[i] puts t[i] in place. */
  lemma PlaceStep<T>(s: seq<T>, t: seq<T>, i: nat, j: nat)
    requires |s| == |t| && 0 < i < |s| && j <= i && s[j] == t[i]
    requires multiset(s[..i + 1]) == multiset(t[..i + 1]) && s[i + 1..] == t[i + 1..]
    ensures var s' := Swap(s, i, j);
      multiset(s'[..i]) == multiset(t[..i]) && s'[i..] == t[i..]
  {
    var s' := Swap(s, i, j);
    assert s'[..i + 1] == Swap(s[..i + 1], i, j);
    SwapPermutes(s[..i + 1], i, j);
    DropLast(s', t, i);
    assert s'[i + 1..] == s[i + 1..];
    assert s'[i..] == [s'[i]] + s'[i + 1..] && t[i..] == [t[i]] + t[i + 1..];
  }

  /** Equal multisets of the first i+1 elements with equal i-th elements leave equal multisets of the first i. */
  lemma DropLast<T>(u: seq<T>, t: seq<T>, i: nat)
    requires i < |u| && i < |t| && u[i] == t[i]
    requires multiset(u[..i + 1]) == multiset(t[..i + 1])
    ensures multiset(u[..i]) == multiset(t[..i])
  {
    var x := t[i];
    assert u[..i + 1] == u[..i] + [x] && t[..i + 1] == t[..i] + [x];
    forall y ensures multiset(u[..i])[y] == multiset(t[..i])[y] {
      assert (multiset(u[..i]) + multiset{x})[y] == (multiset(t[..i]) + multiset{x})[y];
    }
  }

  /**
   * Any rearrangement `t` of the first i+1 elements of `s` (the rest already
   * in place) is produced by the steps for positions i, ..., 1 for some draws.
   */
  lemma {:induction false} ShuffleDownReaches<T>(s: seq<T>, t: seq<T>, i: nat) returns (draws: seq<nat>)
    requires |s| == |t| && i < |s|
    requires multiset(s[..i + 1]) == multiset(t[..i + 1]) && s[i + 1..] == t[i + 1..]
    ensures ValidDraws(draws, |s|) && ShuffleDown(s, draws, i) == t
    decreases i
  {
    if i == 0 {
      draws := seq(|s|, k requires 0 <= k < |s| => 0);
      SameSingletonPrefix(s, t);
    } else {
      var j := SourceOf(s, t, i);
      PlaceStep(s, t, i, j);
      var s' := Swap(s, i, j);
      var d' := ShuffleDownReaches(s', t, i - 1);
      draws := d'[i := j];
      ShuffleDownFrame(s', draws, d', i - 1);
    }
  }

  /**
   * The draws are as general as an arbitrary permutation: every rearrangement
   * of `s` is the outcome of the shuffle for some valid draws.
   */
  lemma ShuffleReachesEveryOrder<T>(s: seq<T>, t: seq<T>)
    requires multiset(s) == multiset(t)
    ensures exists draws :: ValidDraws(draws, |s|) && Shuffled(s, draws) == t
  {
    assert |s| == |multiset(s)| == |t|;
    if s == [] {
      assert ValidDraws([], 0) && Shuffled(s, []) == t;
    } else {
      assert s[..|s|] == s && t[..|t|] == t;
      var draws := ShuffleDownReaches(s, t, |s| - 1);
      assert Shuffled(s, draws) == t;
    }
  }

  /** `slice.swap(i, j)`. */
  method SwapAt<T>(a: array<T>, i: nat, j: nat)
    requires i < a.Length && j < a.Length
    modifies a
    ensures a[..] == Swap(old(a[..]), i, j)
  {
    var t := a[i];
    a[i] := a[j];
    a[j] := t;
  }

  /** `indices.shuffle(&mut rng)`: the Fisher-Yates loop, in place. */
  method ShuffleInPlace<T>(a: array<T>, draws: seq<nat>)
    requires ValidDraws(draws, a.Length)
    modifies a
    ensures a[..] == Shuffled(old(a[..]), draws)
    ensures multiset(a[..]) == multiset(old(a[..]))
  {
    if a.Length == 0 { return; }
    var i := a.Length - 1;
    while i > 0
      invariant 0 <= i < a.Length
      invariant ShuffleDown(a[..], draws, i) == Shuffled(old(a[..]), draws)
    {
      SwapAt(a, i, draws[i]);
      i := i - 1;
    }
  }

  /** Number of times `v` occurs in 0..n-1. */
  lemma {:induction false} RangeCount(n: nat, v: nat)
    ensures multiset(Range(n))[v] == if v < n then 1 else 0
  {
    if n > 0 {
      assert Range(n) == Range(n - 1) + [n - 1];
      RangeCount(n - 1, v);
    }
  }

  /**
   * A sequence with the same elements as 0..n-1 has length n, holds only
   * ordinals below n, holds each of them exactly once, and repeats nothing.
   */
  lemma PermutationOfRange(p: seq<nat>, n: nat)
    requires multiset(p) == multiset(Range(n))
    ensures |p| == n
    ensures forall k :: 0 <= k < |p| ==> p[k] < n
    ensures forall v: nat :: v < n ==> multiset(p)[v] == 1 && v in p
    ensures Distinct(p)
  {
    assert |p| == |multiset(p)| == |multiset(Range(n))| == n;
    forall k | 0 <= k < |p| ensures p[k] < n {
      assert p[k] in multiset(p);
      RangeCount(n, p[k]);
    }
    forall v: nat | v < n ensures multiset(p)[v] == 1 && v in p {
      RangeCount(n, v);
    }
    forall a, b | 0 <= a < b < |p| ensures p[a] != p[b] {
      RepeatCounts(p, a, b);
      RangeCount(n, p[a]);
    }
  }

  /** An element found at two positions occurs at least twice. */
  lemma RepeatCounts<T>(p: seq<T>, a: nat, b: nat)
    requires a < b < |p|
    ensures p[a] == p[b] ==> multiset(p)[p[a]] >= 2
  {
    assert p == p[..b] + p[b..];
    assert p[a] in multiset(p[..b]) && p[b] in multiset(p[b..]);
  }
}
