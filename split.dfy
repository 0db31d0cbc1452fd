/**
 * `train_test_split`: shuffle the row ordinals, cut the shuffled vector at
 * `split_idx = ceil(height * (1 - test_size_perc))`, and row-select each part.
 * The first `split_idx` ordinals become the TEST frame and the rest the TRAIN
 * frame, exactly as lib.rs:46-47 names them. The fraction `test_size_perc` is the
 * rational `num / den`.
 */
module Split {
  import opened Wrappers
  import opened Sequences
  import opened Frame
  import opened Shuffle

  /** 2^32: `x as u32` keeps the value of `x` modulo this. */
  const U32Limit: nat := 0x1_0000_0000

  /** The least integer `r` with `a <= r * d`. */
  function CeilDiv(a: int, d: nat): (r: int)
    requires d > 0
    ensures (r - 1) * d < a <= r * d
  {
    var q := (-a) / d;
    assert -a == q * d + (-a) % d;
    -q
  }

  lemma MulCancelLess(a: int, b: int, d: nat)
    requires d > 0 && a * d < b * d
    ensures a < b
  {
  }

  lemma MulCancelLeq(a: int, b: int, d: nat)
    requires d > 0 && a * d <= b * d
    ensures a <= b
  {
    assert (b + 1) * d == b * d + d;
    MulCancelLess(a, b + 1, d);
  }

  /**
   * `split_idx`: `(height as f64 * (1.0 - num/den)).ceil() as usize`, computed
   * exactly. The cast to `usize` saturates, so a negative ceiling becomes 0.
   */
  function SplitIndex(h: nat, num: int, den: nat): (k: nat)
    requires den > 0
    ensures num <= den ==> (k - 1) * den < h * (den - num) <= k * den
    ensures num >= den ==> k == 0
    ensures 0 <= num ==> k <= h
    ensures num < 0 && h > 0 ==> k > h
  {
    var a := h * (den - num);
    var c := CeilDiv(a, den);
    CeilingBounds(h, num, den, a, c);
    if c < 0 then 0 else c
  }

  lemma CeilingBounds(h: nat, num: int, den: nat, a: int, c: int)
    requires den > 0 && a == h * (den - num) && (c - 1) * den < a <= c * den
    ensures num <= den ==> c >= 0
    ensures num >= den ==> c <= 0
    ensures 0 <= num ==> c <= h
    ensures num < 0 && h > 0 ==> c > h
  {
    CutIdentity(h, num, den);
    if num <= den {
      SignOfProduct(h, den - num);
      MulCancelLeq(0, c, den);
    }
    if num >= den {
      SignOfProduct(h, num - den);
      CutIdentity(h, den, num);
      MulCancelLess(c - 1, 0, den);
    }
    if 0 <= num {
      SignOfProduct(h, num);
      MulCancelLess(c - 1, h, den);
    }
    if num < 0 && h > 0 {
      PositiveProduct(h, -num);
      MulCancelLess(h, c, den);
    }
  }

  lemma CutIdentity(h: int, x: int, y: int)
    ensures h * (y - x) == h * y - h * x && h * (x - y) == -(h * (y - x))
  {
  }

  lemma SignOfProduct(a: nat, b: int)
    ensures b >= 0 ==> a * b >= 0
  {
  }

  lemma PositiveProduct(a: int, b: int)
    requires a > 0 && b > 0
    ensures a * b > 0
  {
  }

  /** The call at main.rs:17: 506 rows at `test_size_perc = 0.2` cut at 405, leaving 101. */
  lemma BostonSplitSizes()
    ensures SplitIndex(506, 1, 5) == 405 && 506 - SplitIndex(506, 1, 5) == 101
  {
  }

  /**
   * The convention as written: for a test fraction of at most one half, the
   * frame named "test" is at least as large as the one named "train".
   */
  lemma TestGetsLargerShare(h: nat, num: int, den: nat)
    requires den > 0 && 0 <= num && 2 * num <= den
    ensures 2 * SplitIndex(h, num, den) >= h
  {
    var k := SplitIndex(h, num, den);
    var cut := h * (den - num);
    assert cut <= k * den;
    HalfBelowCut(h, num, den);
    DoubleProduct(k, den);
    MulCancelLeq(h, 2 * k, den);
  }

  /** With 2 * num <= den, half of h * den is at most h * (den - num). */
  lemma HalfBelowCut(h: nat, num: int, den: nat)
    requires 0 <= num && 2 * num <= den
    ensures h * den <= 2 * (h * (den - num))
  {
    var rest: nat := den - 2 * num;
    assert 2 * (h * (den - num)) == h * den + h * rest;
  }

  lemma DoubleProduct(k: int, d: int)
    ensures 2 * (k * d) == (2 * k) * d
  {
  }

  /** `x as u32`: truncation to the low 32 bits. */
  function AsU32(x: nat): (r: nat)
    ensures r < U32Limit && r <= x
    ensures x < U32Limit ==> r == x
  {
    x % U32Limit
  }

  /** `iter().map(|&x| x as u32).collect()`. */
  function AsU32All(s: seq<nat>): (r: seq<nat>)
    ensures |r| == |s| && forall k :: 0 <= k < |s| ==> r[k] == AsU32(s[k])
  {
    seq(|s|, k requires 0 <= k < |s| => AsU32(s[k]))
  }

  /** Conversion loses nothing when every index fits in 32 bits. */
  lemma AsU32AllExact(s: seq<nat>, n: nat)
    requires n <= U32Limit && forall k :: 0 <= k < |s| ==> s[k] < n
    ensures AsU32All(s) == s
  {
  }

  /** The shuffled index vector for a frame of `n` rows. */
  function ShuffledIndices(n: nat, draws: seq<nat>): (p: seq<nat>)
    requires ValidDraws(draws, n)
    ensures |p| == n && forall k :: 0 <= k < n ==> p[k] < n
  {
    var p := Shuffled(Range(n), draws);
    PermutationOfRange(p, n);
    p
  }

  /** The shuffled indices are a permutation of 0..n-1: every ordinal exactly once. */
  lemma ShuffledIndicesPermutation(n: nat, draws: seq<nat>)
    requires ValidDraws(draws, n)
    ensures var p := ShuffledIndices(n, draws);
      && |p| == n
      && multiset(p) == multiset(Range(n))
      && (forall k :: 0 <= k < n ==> p[k] < n)
      && (forall v: nat :: v < n ==> multiset(p)[v] == 1)
      && Distinct(p)
  {
    PermutationOfRange(ShuffledIndices(n, draws), n);
  }

  function Elements(s: seq<nat>): set<nat> {
    set x | x in s
  }

  function Ordinals(n: nat): set<nat> {
    Elements(Range(n))
  }

  lemma {:induction false} DistinctCard(s: seq<nat>)
    requires Distinct(s)
    ensures |Elements(s)| == |s|
  {
    if s != [] {
      var t := s[..|s| - 1];
      assert Distinct(t);
      DistinctCard(t);
      assert s == t + [s[|s| - 1]];
      assert Elements(s) == Elements(t) + {s[|s| - 1]};
      assert s[|s| - 1] !in Elements(t);
    }
  }

  /**
   * The two index lists the cut produces: the first `k` shuffled ordinals and
   * the rest. They are disjoint, together hold exactly 0..n-1, and have sizes
   * `k` and `n - k`; the union has exactly `n` elements.
   */
  lemma SplitPartition(n: nat, draws: seq<nat>, k: nat)
    requires ValidDraws(draws, n) && k <= n
    ensures var p := ShuffledIndices(n, draws);
      && |p[..k]| == k && |p[k..]| == n - k
      && Elements(p[..k]) !! Elements(p[k..])
      && Elements(p[..k]) + Elements(p[k..]) == Ordinals(n)
      && |Elements(p[..k]) + Elements(p[k..])| == n
  {
    var p := ShuffledIndices(n, draws);
    ShuffledIndicesPermutation(n, draws);
    CutDisjoint(p, k);
    assert p == p[..k] + p[k..];
    assert Elements(p[..k]) + Elements(p[k..]) == Elements(p);
    ElementsOfPermutation(p, n);
    DistinctCard(p);
  }

  /** Cutting a sequence without repeats gives two parts with no common element. */
  lemma CutDisjoint(p: seq<nat>, k: nat)
    requires Distinct(p) && k <= |p|
    ensures Elements(p[..k]) !! Elements(p[k..])
  {
    forall a, b | 0 <= a < k && 0 <= b < |p| - k ensures p[..k][a] != p[k..][b] {
      assert p[..k][a] == p[a] && p[k..][b] == p[k + b];
    }
  }

  /** A permutation of 0..n-1 holds exactly the ordinals below n. */
  lemma ElementsOfPermutation(p: seq<nat>, n: nat)
    requires multiset(p) == multiset(Range(n))
    ensures Elements(p) == Ordinals(n)
  {
    forall v | v in Ordinals(n) ensures v in Elements(p) {
      assert v in multiset(Range(n));
    }
    forall v | v in Elements(p) ensures v in Ordinals(n) {
      assert v in multiset(p);
    }
  }

  /**
   * The split as a value: the frames `(train, test)` selected by the converted
   * ordinals, or the slice panic when `split_idx` exceeds the height.
   */
  function SplitFrames<T>(df: DataFrame<T>, num: int, den: nat, draws: seq<nat>)
    : (r: Result<(DataFrame<T>, DataFrame<T>)>)
    requires df.Valid() && den > 0 && ValidDraws(draws, df.Height())
    ensures r.Ok? <==> SplitIndex(df.Height(), num, den) <= df.Height()
    ensures r.Err? ==> r.error == SliceOutOfRange
    ensures r.Ok? ==> var (train, test) := r.value;
      && train.Valid() && test.Valid()
      && train.Names() == df.Names() && test.Names() == df.Names()
      && test.Height() == SplitIndex(df.Height(), num, den)
      && train.Height() + test.Height() == df.Height()
  {
    var n := df.Height();
    var p := ShuffledIndices(n, draws);
    var k := SplitIndex(n, num, den);
    ShuffledIndicesPermutation(n, draws);
    if k > n then Err(SliceOutOfRange)
    else
      Ok((TakeRows(df, AsU32All(p[k..])), TakeRows(df, AsU32All(p[..k]))))
  }

  /**
   * When the height fits in 32 bits, row `t` of the test frame is input row
   * `p[t]` and row `t` of the train frame is input row `p[split_idx + t]`, where
   * `p` is the shuffled permutation of 0..height-1.
   */
  lemma SplitRows<T>(df: DataFrame<T>, num: int, den: nat, draws: seq<nat>)
    requires df.Valid() && den > 0 && ValidDraws(draws, df.Height())
    requires df.Height() <= U32Limit
    requires SplitIndex(df.Height(), num, den) <= df.Height()
    ensures var p := ShuffledIndices(df.Height(), draws);
      var k := SplitIndex(df.Height(), num, den);
      var (train, test) := SplitFrames(df, num, den, draws).value;
      && (forall t :: 0 <= t < k ==> test.Row(t) == df.Row(p[t]))
      && (forall t :: 0 <= t < df.Height() - k ==> train.Row(t) == df.Row(p[k + t]))
  {
    var n := df.Height();
    var p := ShuffledIndices(n, draws);
    var k := SplitIndex(n, num, den);
    ShuffledIndicesPermutation(n, draws);
    AsU32AllExact(p[..k], n);
    AsU32AllExact(p[k..], n);
  }

  /**
   * `train_test_split(df, num/den)` with the generator's draws given. The
   * input frame is a value and is not changed.
   */
  method TrainTestSplit<T>(df: DataFrame<T>, num: int, den: nat, draws: seq<nat>)
    returns (r: Result<(DataFrame<T>, DataFrame<T>)>)
    requires df.Valid() && den > 0 && ValidDraws(draws, df.Height())
    ensures r == SplitFrames(df, num, den, draws)
  {
    var n := df.Height();
    var indices := new nat[n];
    var i := 0;
    while i < n
      invariant 0 <= i <= n
      invariant forall j :: 0 <= j < i ==> indices[j] == j
    {
      indices[i] := i;
      i := i + 1;
    }
    assert indices[..] == Range(n);
    ShuffleInPlace(indices, draws);
    ShuffledIndicesPermutation(n, draws);

    var splitIdx := SplitIndex(n, num, den);
    if splitIdx > n {
      return Err(SliceOutOfRange);
    }
    var testIndices := indices[..splitIdx];
    var trainIndices := indices[splitIdx..];

    var trainU32 := AsU32All(trainIndices);
    var testU32 := AsU32All(testIndices);

    // A converted index never exceeds the original, so neither `take` fails.
    var testDf := Take(df, testU32);
    var trainDf := Take(df, trainU32);
    assert testDf.Ok? && trainDf.Ok?;
    return Ok((trainDf.value, testDf.value));
  }
}
