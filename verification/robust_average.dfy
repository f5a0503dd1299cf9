/** The robust landmark estimators of position/position_extrapolator.py:
    `fancy_average_slow` (median-anchored Gaussian-weighted mean) and
    `optimize_array` (weight threshold, then greedy mode-seeking deduplication).

    `np.exp` has no counterpart on `real`; it is the parameter `exp`, of which
    only positivity and `exp(0) == 1` are assumed.  A sample's weight
    `exp(-0.5 * distance² / sigma²)` only needs the squared distance, so no
    square root is taken; the similarity test `distance > threshold` is the
    equivalent `distance² > threshold²` for a non-negative threshold. */
module RobustAverage {
  import opened Position
  import opened Statistics

  /** The Gaussian width, fixed at 1.0 in both functions. */
  const Sigma: real := 1.0

  /** What the model assumes of `np.exp`. */
  ghost predicate ExpLike(exp: real -> real) {
    (forall t :: exp(t) > 0.0) && exp(0.0) == 1.0
  }

  /** Squared Euclidean distance, `np.linalg.norm(a - b) ** 2`. */
  function SqDist(a: seq<real>, b: seq<real>): (d: real)
    requires |a| == |b|
    ensures d >= 0.0
  {
    if |a| == 0 then 0.0 else (a[0] - b[0]) * (a[0] - b[0]) + SqDist(a[1..], b[1..])
  }

  lemma {:induction false} SqDistSelf(a: seq<real>)
    ensures SqDist(a, a) == 0.0
  {
    if |a| > 0 {
      SqDistSelf(a[1..]);
    }
  }

  lemma {:induction false} SqDistSymmetric(a: seq<real>, b: seq<real>)
    requires |a| == |b|
    ensures SqDist(a, b) == SqDist(b, a)
  {
    if |a| > 0 {
      SqDistSymmetric(a[1..], b[1..]);
    }
  }

  /** Rows of six numbers, one per sample. */
  predicate SixWide(data: seq<seq<real>>) {
    forall i | 0 <= i < |data| :: |data[i]| == 6
  }

  /** `np.array([p.to_array_with_velocity() for p in positions])`. */
  function Samples(ps: seq<Position2D>): (data: seq<seq<real>>)
    ensures |data| == |ps| && SixWide(data)
    ensures forall i | 0 <= i < |ps| :: data[i] == ToArrayWithVelocity(ps[i])
  {
    seq(|ps|, i requires 0 <= i < |ps| => ToArrayWithVelocity(ps[i]))
  }

  /** Column `j` of the sample matrix. */
  function Column(data: seq<seq<real>>, j: nat): (c: seq<real>)
    requires SixWide(data) && j < 6
    ensures |c| == |data|
    ensures forall i | 0 <= i < |data| :: c[i] == data[i][j]
  {
    seq(|data|, i requires 0 <= i < |data| => data[i][j])
  }

  /** `np.median(all_data, axis=0)`. */
  function Medians(data: seq<seq<real>>): (m: seq<real>)
    requires |data| > 0 && SixWide(data)
    ensures |m| == 6
  {
    seq(6, j requires 0 <= j < 6 => Median(Column(data, j)))
  }

  /** `np.exp(-0.5 * distances ** 2 / sigma ** 2)` for every sample. */
  function GaussianWeights(data: seq<seq<real>>, medians: seq<real>, exp: real -> real): (w: seq<real>)
    requires SixWide(data) && |medians| == 6
    ensures |w| == |data|
  {
    seq(|data|, i requires 0 <= i < |data| => exp(-0.5 * SqDist(data[i], medians) / (Sigma * Sigma)))
  }

  /** The raw (unnormalised) weight of every pose, shared by both estimators. */
  function SampleWeights(ps: seq<Position2D>, exp: real -> real): (w: seq<real>)
    requires |ps| > 0
    ensures |w| == |ps|
    ensures ExpLike(exp) ==> AllPositive(w)
  {
    var data := Samples(ps);
    GaussianWeights(data, Medians(data), exp)
  }

  /** The normalised weights of `fancy_average_slow`: positive, summing to one. */
  function AverageWeights(ps: seq<Position2D>, exp: real -> real): (w: seq<real>)
    requires |ps| > 0 && ExpLike(exp)
    ensures |w| == |ps|
    ensures AllPositive(w)
    ensures Sum(w) == 1.0
  {
    Normalize(SampleWeights(ps, exp))
  }

  /** Component `j` of `a` lies between component `j` of two of the poses. */
  predicate ComponentWithin(ps: seq<Position2D>, a: seq<real>, j: nat)
    requires j < |a| == 6
  {
    && (exists i | 0 <= i < |ps| :: ToArrayWithVelocity(ps[i])[j] <= a[j])
    && (exists k | 0 <= k < |ps| :: a[j] <= ToArrayWithVelocity(ps[k])[j])
  }

  /** Every component of `a` stays within the range the poses span. */
  predicate WithinRange(ps: seq<Position2D>, a: seq<real>)
    requires |a| == 6
  {
    forall j: nat | j < 6 :: ComponentWithin(ps, a, j)
  }

  /** A component of a convex combination of the samples lies between that
      component of two of the poses: the least and the greatest. */
  lemma ConvexComponentWithin(ps: seq<Position2D>, w: seq<real>, avg: seq<real>, j: nat)
    requires |ps| > 0 && |w| == |ps| && AllPositive(w) && Sum(w) == 1.0
    requires |avg| == 6 && j < 6
    requires avg[j] == WeightedSum(w, Column(Samples(ps), j))
    ensures ComponentWithin(ps, avg, j)
  {
    var c := Column(Samples(ps), j);
    ConvexCombinationBounds(w, c, Min(c), Max(c));
    var i :| 0 <= i < |c| && c[i] == Min(c);
    var k :| 0 <= k < |c| && c[k] == Max(c);
    assert ToArrayWithVelocity(ps[i])[j] <= avg[j];
    assert avg[j] <= ToArrayWithVelocity(ps[k])[j];
  }

  /** `fancy_average_slow`: the normalised-weight average of the six-vectors,
      unpacked back into a pose. On an empty list the row-wise distance norm
      raises. */
  function FancyAverageSlow(ps: seq<Position2D>, exp: real -> real): (r: Position2D)
    requires |ps| > 0 && ExpLike(exp)
    ensures WithinRange(ps, ToArrayWithVelocity(r))
  {
    var w := AverageWeights(ps, exp);
    var avg := seq(6, j requires 0 <= j < 6 => WeightedSum(w, Column(Samples(ps), j)));
    ArrayWithVelocityRoundTrip(ps[0], avg);
    assert WithinRange(ps, avg) by {
      forall j: nat | j < 6
        ensures ComponentWithin(ps, avg, j)
      {
        ConvexComponentWithin(ps, w, avg, j);
      }
    }
    FromArrayWithVelocity(avg)
  }

  /** Each component of the average lies within any bounds that hold for that
      component of every input pose: the average never leaves the inputs'
      range. */
  lemma FancyAverageWithinBounds(ps: seq<Position2D>, exp: real -> real, j: nat, lo: real, hi: real)
    requires |ps| > 0 && ExpLike(exp) && j < 6
    requires forall i | 0 <= i < |ps| :: lo <= ToArrayWithVelocity(ps[i])[j] <= hi
    ensures lo <= ToArrayWithVelocity(FancyAverageSlow(ps, exp))[j] <= hi
  {
    var data := Samples(ps);
    var w := AverageWeights(ps, exp);
    var avg := seq(6, j requires 0 <= j < 6 => WeightedSum(w, Column(data, j)));
    ArrayWithVelocityRoundTrip(ps[0], avg);
    ConvexCombinationBounds(w, Column(data, j), lo, hi);
  }

  /** The average of copies of one pose is that pose, every field in place. */
  lemma FancyAverageOfIdentical(ps: seq<Position2D>, p: Position2D, exp: real -> real)
    requires |ps| > 0 && ExpLike(exp)
    requires forall i | 0 <= i < |ps| :: ps[i] == p
    ensures FancyAverageSlow(ps, exp) == p
  {
    var r := FancyAverageSlow(ps, exp);
    forall j | 0 <= j < 6
      ensures ToArrayWithVelocity(r)[j] == ToArrayWithVelocity(p)[j]
    {
      var c := ToArrayWithVelocity(p)[j];
      FancyAverageWithinBounds(ps, exp, j, c, c);
    }
    assert ToArrayWithVelocity(r) == ToArrayWithVelocity(p);
    ArrayWithVelocityRoundTrip(r, ToArrayWithVelocity(p));
    ArrayWithVelocityRoundTrip(p, ToArrayWithVelocity(p));
  }

  // ---------------------------------------------------------------------
  // optimize_array

  predicate Increasing(s: seq<nat>) {
    forall i, j | 0 <= i < j < |s| :: s[i] < s[j]
  }

  /** `np.where(weights > weight_threshold)[0]`: the indices passing the
      threshold, ascending. */
  function GoodIndices(w: seq<real>, threshold: real): (r: seq<nat>)
    ensures Increasing(r)
    ensures forall k | 0 <= k < |r| :: r[k] < |w| && w[r[k]] > threshold
    ensures forall i | 0 <= i < |w| && w[i] > threshold :: i in r
    ensures |r| <= |w|
  {
    if |w| == 0 then []
    else
      var last: nat := |w| - 1;
      GoodIndices(w[..last], threshold) + (if w[last] > threshold then [last] else [])
  }

  /** `np.argmax`: the position of the first largest value. */
  function ArgMax(v: seq<real>): (p: nat)
    requires |v| > 0
    ensures p < |v|
    ensures forall k | 0 <= k < |v| :: v[k] <= v[p]
    ensures forall k | 0 <= k < p :: v[k] < v[p]
  {
    if |v| == 1 then 0
    else
      var q := ArgMax(v[..|v| - 1]);
      if v[|v| - 1] > v[q] then |v| - 1 else q
  }

  /** `weights[remaining_indices]`. */
  function Gather(w: seq<real>, idx: seq<nat>): (g: seq<real>)
    requires forall k | 0 <= k < |idx| :: idx[k] < |w|
    ensures |g| == |idx|
    ensures forall k | 0 <= k < |idx| :: g[k] == w[idx[k]]
  {
    seq(|idx|, k requires 0 <= k < |idx| => w[idx[k]])
  }

  /** Indices into the sample matrix. */
  predicate InRange(idx: seq<nat>, n: nat) {
    forall k | 0 <= k < |idx| :: idx[k] < n
  }

  /** Sample `a` is more than the threshold away from sample `b`:
      `np.linalg.norm(a - b) > similarity_threshold`, squared. */
  predicate Far(data: seq<seq<real>>, a: nat, b: nat, st2: real)
    requires SixWide(data) && a < |data| && b < |data|
  {
    SqDist(data[a], data[b]) > st2
  }

  /** `remaining_indices[point_distances > similarity_threshold]`. */
  function Farther(data: seq<seq<real>>, rem: seq<nat>, c: nat, st2: real): (r: seq<nat>)
    requires SixWide(data) && InRange(rem, |data|) && c < |data|
    ensures |r| <= |rem|
    ensures InRange(r, |data|)
  {
    if |rem| == 0 then []
    else
      var rest := Farther(data, rem[1..], c, st2);
      if Far(data, rem[0], c, st2) then [rem[0]] + rest else rest
  }

  /** With every sample within the threshold of `c`, nothing is far from it. */
  lemma {:induction false} FartherNone(data: seq<seq<real>>, rem: seq<nat>, c: nat, st2: real)
    requires SixWide(data) && InRange(rem, |data|) && c < |data| && Clustered(data, st2)
    ensures Farther(data, rem, c, st2) == []
  {
    if |rem| > 0 {
      FartherNone(data, rem[1..], c, st2);
    }
  }

  /** The filter keeps exactly the candidates far from `c`, in their order. */
  lemma {:induction false} FartherSpec(data: seq<seq<real>>, rem: seq<nat>, c: nat, st2: real)
    requires SixWide(data) && InRange(rem, |data|) && c < |data|
    ensures forall x | x in Farther(data, rem, c, st2) :: x in rem && x < |data| && Far(data, x, c, st2)
    ensures forall k | 0 <= k < |rem| && Far(data, rem[k], c, st2) :: rem[k] in Farther(data, rem, c, st2)
    ensures Increasing(rem) ==> Increasing(Farther(data, rem, c, st2))
  {
    if |rem| > 0 {
      FartherSpec(data, rem[1..], c, st2);
      var rest := Farther(data, rem[1..], c, st2);
      var r := Farther(data, rem, c, st2);
      assert forall k | 1 <= k < |rem| :: rem[k] == rem[1..][k - 1];
      assert forall x | x in rest :: x in rem;
      if Increasing(rem) {
        forall k | 0 <= k < |rest|
          ensures rem[0] < rest[k]
        {
          assert rest[k] in rest;
          var q :| 0 <= q < |rem| - 1 && rem[1..][q] == rest[k];
          assert rem[q + 1] == rest[k];
        }
      }
    }
  }

  /** The kept sample is not farther than a non-negative threshold from
      itself, so every pass drops at least that sample. */
  lemma {:induction false} FartherShrinks(data: seq<seq<real>>, rem: seq<nat>, c: nat, st2: real)
    requires SixWide(data) && InRange(rem, |data|) && c < |data|
    requires c in rem && st2 >= 0.0
    ensures |Farther(data, rem, c, st2)| < |rem|
    ensures c !in Farther(data, rem, c, st2)
  {
    SqDistSelf(data[c]);
    assert !Far(data, c, c, st2);
    FartherSpec(data, rem, c, st2);
    if rem[0] != c {
      assert c in rem[1..];
      FartherShrinks(data, rem[1..], c, st2);
    }
  }

  /** The body of the `while` loop, as a recursion over the remaining indices:
      keep the first highest-weight remaining sample, drop every remaining
      sample within the threshold of it, repeat until nothing remains. */
  function Greedy(data: seq<seq<real>>, w: seq<real>, rem: seq<nat>, st2: real): (g: seq<nat>)
    requires SixWide(data) && |w| == |data| && InRange(rem, |data|) && st2 >= 0.0
    ensures InRange(g, |data|)
    ensures |g| == 0 <==> |rem| == 0
    decreases |rem|
  {
    if |rem| == 0 then []
    else
      var cur := rem[ArgMax(Gather(w, rem))];
      FartherShrinks(data, rem, cur, st2);
      [cur] + Greedy(data, w, Farther(data, rem, cur, st2), st2)
  }

  /** One step of the greedy pass: the heaviest remaining index, then the
      pass over the candidates far from it. */
  lemma GreedyUnfold(data: seq<seq<real>>, w: seq<real>, rem: seq<nat>, st2: real)
    requires SixWide(data) && |w| == |data| && InRange(rem, |data|) && st2 >= 0.0 && |rem| > 0
    ensures InRange(Farther(data, rem, rem[ArgMax(Gather(w, rem))], st2), |data|)
    ensures Greedy(data, w, rem, st2)
      == [rem[ArgMax(Gather(w, rem))]] + Greedy(data, w, Farther(data, rem, rem[ArgMax(Gather(w, rem))], st2), st2)
  {
  }

  /** The pass keeps at most as many indices as it is given. */
  lemma {:induction false} GreedyLength(data: seq<seq<real>>, w: seq<real>, rem: seq<nat>, st2: real)
    requires SixWide(data) && |w| == |data| && InRange(rem, |data|) && st2 >= 0.0
    ensures |Greedy(data, w, rem, st2)| <= |rem|
    decreases |rem|
  {
    if |rem| > 0 {
      var cur := rem[ArgMax(Gather(w, rem))];
      FartherShrinks(data, rem, cur, st2);
      GreedyLength(data, w, Farther(data, rem, cur, st2), st2);
    }
  }

  /** Index `a` is picked before index `b`: a higher weight, or the same weight
      and a lower index. */
  predicate Before(w: seq<real>, a: nat, b: nat)
    requires a < |w| && b < |w|
  {
    w[a] > w[b] || (w[a] == w[b] && a < b)
  }

  /** The sample picked in one pass comes before every sample that survives
      the pass, and is far from each of them. */
  lemma PickDominates(data: seq<seq<real>>, w: seq<real>, rem: seq<nat>, st2: real)
    requires SixWide(data) && |w| == |data| && InRange(rem, |data|) && st2 >= 0.0
    requires Increasing(rem) && |rem| > 0
    ensures var cur := rem[ArgMax(Gather(w, rem))];
      forall x | x in Farther(data, rem, cur, st2) ::
        x in rem && x != cur && x < |data| && Far(data, x, cur, st2) && Before(w, cur, x)
  {
    var p := ArgMax(Gather(w, rem));
    var cur := rem[p];
    var f := Farther(data, rem, cur, st2);
    FartherSpec(data, rem, cur, st2);
    FartherShrinks(data, rem, cur, st2);
    forall x | x in f
      ensures x in rem && x != cur && x < |data| && Far(data, x, cur, st2) && Before(w, cur, x)
    {
      var q :| 0 <= q < |rem| && rem[q] == x;
      assert Gather(w, rem)[q] == w[x];
      if w[cur] == w[x] {
        assert q >= p;
      }
    }
  }

  /** Every kept index was a candidate. */
  lemma {:induction false} GreedyFromCandidates(data: seq<seq<real>>, w: seq<real>, rem: seq<nat>, st2: real)
    requires SixWide(data) && |w| == |data| && InRange(rem, |data|) && st2 >= 0.0
    ensures forall x | x in Greedy(data, w, rem, st2) :: x in rem
    decreases |rem|
  {
    if |rem| > 0 {
      var cur := rem[ArgMax(Gather(w, rem))];
      var f := Farther(data, rem, cur, st2);
      FartherSpec(data, rem, cur, st2);
      FartherShrinks(data, rem, cur, st2);
      GreedyFromCandidates(data, w, f, st2);
      assert Greedy(data, w, rem, st2) == [cur] + Greedy(data, w, f, st2);
    }
  }

  /** Kept samples are distinct, pairwise far apart, and in pick order. */
  predicate PairwiseSeparated(data: seq<seq<real>>, w: seq<real>, st2: real, g: seq<nat>)
    requires SixWide(data) && |w| == |data| && InRange(g, |data|)
  {
    forall k1, k2 | 0 <= k1 < k2 < |g| ::
      g[k1] != g[k2] && Far(data, g[k2], g[k1], st2) && Before(w, g[k1], g[k2])
  }

  lemma ConsSeparated(data: seq<seq<real>>, w: seq<real>, st2: real, cur: nat, rest: seq<nat>)
    requires SixWide(data) && |w| == |data| && InRange(rest, |data|) && cur < |data|
    requires PairwiseSeparated(data, w, st2, rest)
    requires forall k | 0 <= k < |rest| :: rest[k] != cur && Far(data, rest[k], cur, st2) && Before(w, cur, rest[k])
    ensures InRange([cur] + rest, |data|)
    ensures PairwiseSeparated(data, w, st2, [cur] + rest)
  {
    var g := [cur] + rest;
    forall k1, k2 | 0 <= k1 < k2 < |g|
      ensures g[k1] != g[k2] && Far(data, g[k2], g[k1], st2) && Before(w, g[k1], g[k2])
    {
      assert g[k2] == rest[k2 - 1];
      if k1 > 0 {
        assert g[k1] == rest[k1 - 1];
      }
    }
  }

  lemma {:induction false} GreedyPairwise(data: seq<seq<real>>, w: seq<real>, rem: seq<nat>, st2: real)
    requires SixWide(data) && |w| == |data| && InRange(rem, |data|) && st2 >= 0.0
    requires Increasing(rem)
    ensures InRange(Greedy(data, w, rem, st2), |data|)
    ensures PairwiseSeparated(data, w, st2, Greedy(data, w, rem, st2))
    decreases |rem|
  {
    if |rem| > 0 {
      var cur := rem[ArgMax(Gather(w, rem))];
      var f := Farther(data, rem, cur, st2);
      FartherShrinks(data, rem, cur, st2);
      FartherSpec(data, rem, cur, st2);
      PickDominates(data, w, rem, st2);
      GreedyPairwise(data, w, f, st2);
      GreedyFromCandidates(data, w, f, st2);
      var rest := Greedy(data, w, f, st2);
      assert forall k | 0 <= k < |rest| :: rest[k] in rest;
      ConsSeparated(data, w, st2, cur, rest);
      assert Greedy(data, w, rem, st2) == [cur] + rest;
    }
  }

  /** Sample `x` is kept or within the threshold of a kept sample, looking
      through the kept list from its head. */
  predicate Covered(data: seq<seq<real>>, st2: real, x: nat, g: seq<nat>)
    requires SixWide(data) && x < |data| && InRange(g, |data|)
  {
    |g| > 0 && (x == g[0] || !Far(data, x, g[0], st2) || Covered(data, st2, x, g[1..]))
  }

  /** The same, as a search over the whole kept list. */
  lemma {:induction false} CoveredMeans(data: seq<seq<real>>, st2: real, x: nat, g: seq<nat>)
    requires SixWide(data) && x < |data| && InRange(g, |data|)
    ensures Covered(data, st2, x, g) <==> x in g || exists k | 0 <= k < |g| :: !Far(data, x, g[k], st2)
  {
    if |g| > 0 {
      CoveredMeans(data, st2, x, g[1..]);
      if x in g && x != g[0] {
        var k :| 0 <= k < |g| && g[k] == x;
        assert g[1..][k - 1] == x;
      }
      if (exists k | 0 <= k < |g| :: !Far(data, x, g[k], st2)) && Far(data, x, g[0], st2) {
        var k :| 0 <= k < |g| && !Far(data, x, g[k], st2);
        assert g[1..][k - 1] == g[k];
      }
      if exists k | 0 <= k < |g| - 1 :: !Far(data, x, g[1..][k], st2) {
        var k :| 0 <= k < |g| - 1 && !Far(data, x, g[1..][k], st2);
        assert g[k + 1] == g[1..][k];
      }
    }
  }

  /** Every candidate is kept or within the threshold of a kept sample. */
  lemma {:induction false} GreedyCovers(data: seq<seq<real>>, w: seq<real>, rem: seq<nat>, st2: real)
    requires SixWide(data) && |w| == |data| && InRange(rem, |data|) && st2 >= 0.0
    ensures InRange(Greedy(data, w, rem, st2), |data|)
    ensures forall k | 0 <= k < |rem| :: Covered(data, st2, rem[k], Greedy(data, w, rem, st2))
    decreases |rem|
  {
    if |rem| > 0 {
      var cur := rem[ArgMax(Gather(w, rem))];
      var f := Farther(data, rem, cur, st2);
      FartherShrinks(data, rem, cur, st2);
      GreedyCovers(data, w, f, st2);
      var rest := Greedy(data, w, f, st2);
      assert Greedy(data, w, rem, st2) == [cur] + rest;
      forall k | 0 <= k < |rem|
        ensures Covered(data, st2, rem[k], [cur] + rest)
      {
        var x := rem[k];
        assert ([cur] + rest)[1..] == rest;
        if x != cur && Far(data, x, cur, st2) {
          assert x in f by {
            FartherSpec(data, rem, cur, st2);
          }
          var q :| 0 <= q < |f| && f[q] == x;
        }
      }
    }
  }

  /** The indices `optimize_array` keeps from poses weighted by `w`: those
      over the weight threshold, thinned by the greedy pass. */
  function KeptIndices(ps: seq<Position2D>, w: seq<real>, weightThreshold: real, similarityThreshold: real): (kept: seq<nat>)
    requires |w| == |ps| && similarityThreshold >= 0.0
    ensures InRange(kept, |ps|)
  {
    Greedy(Samples(ps), w, GoodIndices(w, weightThreshold), similarityThreshold * similarityThreshold)
  }

  /** `data[kept_indices]`, read back as poses. */
  function Select(ps: seq<Position2D>, kept: seq<nat>): (r: seq<Position2D>)
    requires InRange(kept, |ps|)
    ensures |r| == |kept|
    ensures forall k | 0 <= k < |kept| :: r[k] == ps[kept[k]]
  {
    seq(|kept|, k requires 0 <= k < |kept| => ps[kept[k]])
  }

  /** The pruning step of `optimize_array` for given weights. */
  function Prune(ps: seq<Position2D>, w: seq<real>, weightThreshold: real, similarityThreshold: real): seq<Position2D>
    requires |w| == |ps| && similarityThreshold >= 0.0
  {
    Select(ps, KeptIndices(ps, w, weightThreshold, similarityThreshold))
  }

  /** When the source's `optimize_array` returns. Fewer than two poses return
      before the threshold is read, and the loop runs only over indices whose
      weight passes `weightThreshold`. Once it runs, a negative similarity
      threshold keeps the picked index among the candidates (its distance 0
      exceeds the threshold), so the loop never ends. */
  predicate LoopEnds(ps: seq<Position2D>, weightThreshold: real, similarityThreshold: real, exp: real -> real) {
    || |ps| < 2
    || similarityThreshold >= 0.0
    || forall i | 0 <= i < |ps| :: SampleWeights(ps, exp)[i] <= weightThreshold
  }

  /** `optimize_array`: fewer than two poses come back unchanged; otherwise the
      poses at the kept indices, in the order they were kept, under the
      Gaussian weights of `SampleWeights`. With a negative similarity
      threshold the call returns only when no weight passes, and then the
      loop does not run and nothing is kept. */
  function OptimizeArray(ps: seq<Position2D>, weightThreshold: real, similarityThreshold: real, exp: real -> real): (r: seq<Position2D>)
    requires LoopEnds(ps, weightThreshold, similarityThreshold, exp)
    ensures |r| <= |ps|
    ensures forall k | 0 <= k < |r| :: r[k] in ps
  {
    if |ps| < 2 then ps
    else if similarityThreshold < 0.0 then []
    else
      var w := SampleWeights(ps, exp);
      PruneLength(ps, w, weightThreshold, similarityThreshold);
      PruneKeepsHeavy(ps, w, weightThreshold, similarityThreshold);
      Prune(ps, w, weightThreshold, similarityThreshold)
  }

  /** The two poses are more than `threshold` apart in the six-vector space. */
  predicate PosesFar(p: Position2D, q: Position2D, threshold: real) {
    SqDist(ToArrayWithVelocity(p), ToArrayWithVelocity(q)) > threshold * threshold
  }

  /** Fewer than two poses are returned as they are. */
  lemma OptimizeArraySmall(ps: seq<Position2D>, weightThreshold: real, similarityThreshold: real, exp: real -> real)
    requires |ps| < 2
    ensures OptimizeArray(ps, weightThreshold, similarityThreshold, exp) == ps
  {
  }

  /** The result is the poses at the kept indices, and every kept pose is an
      input pose whose weight passed the threshold. */
  lemma PruneKeepsHeavy(ps: seq<Position2D>, w: seq<real>, weightThreshold: real, similarityThreshold: real)
    requires |w| == |ps| && similarityThreshold >= 0.0
    ensures var kept := KeptIndices(ps, w, weightThreshold, similarityThreshold);
      var r := Prune(ps, w, weightThreshold, similarityThreshold);
      && |r| == |kept|
      && forall k | 0 <= k < |kept| :: r[k] == ps[kept[k]] && w[kept[k]] > weightThreshold
  {
    var good := GoodIndices(w, weightThreshold);
    GreedyFromCandidates(Samples(ps), w, good, similarityThreshold * similarityThreshold);
    var kept := KeptIndices(ps, w, weightThreshold, similarityThreshold);
    forall k | 0 <= k < |kept|
      ensures w[kept[k]] > weightThreshold
    {
      assert kept[k] in kept;
      var q :| 0 <= q < |good| && good[q] == kept[k];
    }
  }

  /** No index is kept twice, kept poses are pairwise more than
      `similarityThreshold` apart, and they come by non-increasing weight with
      ties in index order. */
  lemma PruneSeparated(ps: seq<Position2D>, w: seq<real>, weightThreshold: real, similarityThreshold: real)
    requires |w| == |ps| && similarityThreshold >= 0.0
    ensures var kept := KeptIndices(ps, w, weightThreshold, similarityThreshold);
      forall k1, k2 | 0 <= k1 < k2 < |kept| ::
        && kept[k1] != kept[k2]
        && PosesFar(ps[kept[k1]], ps[kept[k2]], similarityThreshold)
        && (w[kept[k1]] > w[kept[k2]] || (w[kept[k1]] == w[kept[k2]] && kept[k1] < kept[k2]))
  {
    var data := Samples(ps);
    var st2 := similarityThreshold * similarityThreshold;
    GreedyPairwise(data, w, GoodIndices(w, weightThreshold), st2);
    var kept := KeptIndices(ps, w, weightThreshold, similarityThreshold);
    forall k1, k2 | 0 <= k1 < k2 < |kept|
      ensures PosesFar(ps[kept[k1]], ps[kept[k2]], similarityThreshold)
    {
      assert Far(data, kept[k2], kept[k1], st2);
      SqDistSymmetric(data[kept[k1]], data[kept[k2]]);
    }
  }

  /** Every pose whose weight passed the threshold is kept or within
      `similarityThreshold` of a kept pose. */
  lemma PruneCovers(ps: seq<Position2D>, w: seq<real>, weightThreshold: real, similarityThreshold: real)
    requires |w| == |ps| && similarityThreshold >= 0.0
    ensures var kept := KeptIndices(ps, w, weightThreshold, similarityThreshold);
      forall i | 0 <= i < |ps| && w[i] > weightThreshold ::
        i in kept || exists k | 0 <= k < |kept| :: !PosesFar(ps[i], ps[kept[k]], similarityThreshold)
  {
    var data := Samples(ps);
    var st2 := similarityThreshold * similarityThreshold;
    var good := GoodIndices(w, weightThreshold);
    GreedyCovers(data, w, good, st2);
    var kept := KeptIndices(ps, w, weightThreshold, similarityThreshold);
    forall i | 0 <= i < |ps| && w[i] > weightThreshold
      ensures i in kept || exists k | 0 <= k < |kept| :: !PosesFar(ps[i], ps[kept[k]], similarityThreshold)
    {
      var q :| 0 <= q < |good| && good[q] == i;
      CoveredMeans(data, st2, i, kept);
      if i !in kept {
        var k :| 0 <= k < |kept| && !Far(data, i, kept[k], st2);
        assert !PosesFar(ps[i], ps[kept[k]], similarityThreshold);
      }
    }
  }

  /** Pruning never adds poses. */
  lemma PruneLength(ps: seq<Position2D>, w: seq<real>, weightThreshold: real, similarityThreshold: real)
    requires |w| == |ps| && similarityThreshold >= 0.0
    ensures |Prune(ps, w, weightThreshold, similarityThreshold)| <= |ps|
  {
    GreedyLength(Samples(ps), w, GoodIndices(w, weightThreshold), similarityThreshold * similarityThreshold);
  }

  /** The result is empty exactly when no pose passed the weight threshold. */
  lemma PruneEmpty(ps: seq<Position2D>, w: seq<real>, weightThreshold: real, similarityThreshold: real)
    requires |w| == |ps| && similarityThreshold >= 0.0
    ensures Prune(ps, w, weightThreshold, similarityThreshold) == []
      <==> forall i | 0 <= i < |ps| :: w[i] <= weightThreshold
  {
    var good := GoodIndices(w, weightThreshold);
    if exists i | 0 <= i < |ps| :: w[i] > weightThreshold {
      var i :| 0 <= i < |ps| && w[i] > weightThreshold;
      assert i in good;
    }
  }

  /** For two or more poses, `optimize_array` returns nothing exactly when no
      weight passes the weight threshold, whatever the sign of the similarity
      threshold (the negative case returns only then). */
  lemma OptimizeArrayEmpty(ps: seq<Position2D>, weightThreshold: real, similarityThreshold: real, exp: real -> real)
    requires |ps| >= 2 && LoopEnds(ps, weightThreshold, similarityThreshold, exp)
    ensures OptimizeArray(ps, weightThreshold, similarityThreshold, exp) == []
      <==> forall i | 0 <= i < |ps| :: SampleWeights(ps, exp)[i] <= weightThreshold
  {
    if similarityThreshold >= 0.0 {
      PruneEmpty(ps, SampleWeights(ps, exp), weightThreshold, similarityThreshold);
    }
  }

  /** No two samples are farther apart than the threshold. */
  predicate Clustered(data: seq<seq<real>>, st2: real)
    requires SixWide(data)
  {
    forall i, j | 0 <= i < |data| && 0 <= j < |data| :: !Far(data, i, j, st2)
  }

  /** With a threshold wider than the spread of all poses, exactly one pose is
      kept: the first of the highest weight among those that passed (`heavy`
      names one pose that passed). */
  lemma PruneCollapse(ps: seq<Position2D>, w: seq<real>, weightThreshold: real, similarityThreshold: real, heavy: nat)
    requires |w| == |ps| && similarityThreshold >= 0.0
    requires heavy < |ps| && w[heavy] > weightThreshold
    requires Clustered(Samples(ps), similarityThreshold * similarityThreshold)
    ensures var good := GoodIndices(w, weightThreshold);
      && |good| > 0
      && Prune(ps, w, weightThreshold, similarityThreshold) == [ps[good[ArgMax(Gather(w, good))]]]
  {
    var data := Samples(ps);
    var good := GoodIndices(w, weightThreshold);
    var st2 := similarityThreshold * similarityThreshold;
    assert heavy in good;
    var cur := good[ArgMax(Gather(w, good))];
    FartherNone(data, good, cur, st2);
    GreedyUnfold(data, w, good, st2);
    assert KeptIndices(ps, w, weightThreshold, similarityThreshold) == [cur];
  }

  /** Rows that are all one vector have that vector as their medians, so
      every row weighs `exp(0) = 1`. */
  lemma {:induction false} GaussianOfIdentical(data: seq<seq<real>>, v: seq<real>, exp: real -> real)
    requires SixWide(data) && |data| > 0 && |v| == 6 && ExpLike(exp)
    requires forall i | 0 <= i < |data| :: data[i] == v
    ensures forall i | 0 <= i < |data| :: GaussianWeights(data, Medians(data), exp)[i] == 1.0
  {
    assert Medians(data) == v by {
      forall j | 0 <= j < 6
        ensures Medians(data)[j] == v[j]
      {
        MedianOfConstant(Column(data, j), v[j]);
      }
    }
    SqDistSelf(v);
  }

  /** Identical poses all weigh `exp(0) = 1`. */
  lemma IdenticalWeights(ps: seq<Position2D>, p: Position2D, exp: real -> real)
    requires |ps| > 0 && ExpLike(exp)
    requires forall i | 0 <= i < |ps| :: ps[i] == p
    ensures forall i | 0 <= i < |ps| :: SampleWeights(ps, exp)[i] == 1.0
  {
    GaussianOfIdentical(Samples(ps), ToArrayWithVelocity(p), exp);
  }

  /** Copies of one pose collapse to a single copy under any weights, once
      one of them passes the weight threshold. */
  lemma PruneOfIdentical(ps: seq<Position2D>, p: Position2D, w: seq<real>, weightThreshold: real, similarityThreshold: real)
    requires |w| == |ps| && similarityThreshold >= 0.0 && |ps| > 0
    requires forall i | 0 <= i < |ps| :: ps[i] == p
    requires w[0] > weightThreshold
    ensures Prune(ps, w, weightThreshold, similarityThreshold) == [p]
  {
    SqDistSelf(ToArrayWithVelocity(p));
    assert forall i | 0 <= i < |ps| :: Samples(ps)[i] == ToArrayWithVelocity(p);
    PruneCollapse(ps, w, weightThreshold, similarityThreshold, 0);
  }

  /** Two or more copies of one pose collapse to a single copy, for any weight
      threshold below 1 and any non-negative similarity threshold (with a negative
      one the weights of identical poses all pass, so the loop would not end). */
  lemma OptimizeArrayOfIdentical(ps: seq<Position2D>, p: Position2D, weightThreshold: real, similarityThreshold: real, exp: real -> real)
    requires similarityThreshold >= 0.0 && |ps| >= 2 && ExpLike(exp) && weightThreshold < 1.0
    requires forall i | 0 <= i < |ps| :: ps[i] == p
    ensures OptimizeArray(ps, weightThreshold, similarityThreshold, exp) == [p]
  {
    IdenticalWeights(ps, p, exp);
    PruneOfIdentical(ps, p, SampleWeights(ps, exp), weightThreshold, similarityThreshold);
  }

  /** `optimize_array` as the source writes it: fewer than two poses come
      back unchanged; otherwise the rows and their Gaussian weights, the
      indices whose weight passes the threshold, then the loop that takes
      the heaviest remaining index, keeps it, and drops every remaining index
      within the similarity threshold of it, and finally the poses at the
      kept indices. It computes the functional definition above. */
  method OptimizeArrayLoop(ps: seq<Position2D>, weightThreshold: real, similarityThreshold: real, exp: real -> real)
    returns (r: seq<Position2D>)
    requires LoopEnds(ps, weightThreshold, similarityThreshold, exp)
    ensures r == OptimizeArray(ps, weightThreshold, similarityThreshold, exp)
  {
    if |ps| < 2 {
      return ps;
    }
    if similarityThreshold < 0.0 {
      // Only reached when no weight passes (`NothingPasses`), so the loop
      // has nothing to start from.
      return [];
    }
    var data := Samples(ps);
    var w := SampleWeights(ps, exp);
    var good := GoodIndices(w, weightThreshold);
    NonNegativeProduct(similarityThreshold, similarityThreshold);
    var st2 := similarityThreshold * similarityThreshold;
    ghost var target := Greedy(data, w, good, st2);
    var kept := [];
    var remaining := good;
    assert kept + Greedy(data, w, remaining, st2) == target;
    while |remaining| > 0
      invariant InRange(remaining, |data|)
      invariant kept + Greedy(data, w, remaining, st2) == target
      decreases |remaining|
    {
      var current := remaining[ArgMax(Gather(w, remaining))];
      var next := Farther(data, remaining, current, st2);
      GreedyStep(data, w, good, remaining, kept, current, next, st2);
      remaining := next;
      kept := kept + [current];
    }
    assert Greedy(data, w, remaining, st2) == [];
    assert kept + [] == kept;
    r := Select(ps, kept);
  }

  /** A negative similarity threshold lets the call return only when no index
      passes the weight threshold. */
  lemma NothingPasses(ps: seq<Position2D>, weightThreshold: real, similarityThreshold: real, exp: real -> real)
    requires |ps| >= 2 && similarityThreshold < 0.0 && LoopEnds(ps, weightThreshold, similarityThreshold, exp)
    ensures GoodIndices(SampleWeights(ps, exp), weightThreshold) == []
  {
    GoodIndicesNone(SampleWeights(ps, exp), weightThreshold);
  }

  /** With no weight above the threshold no index passes. */
  lemma {:induction false} GoodIndicesNone(w: seq<real>, threshold: real)
    requires forall i | 0 <= i < |w| :: w[i] <= threshold
    ensures GoodIndices(w, threshold) == []
  {
    if |w| > 0 {
      GoodIndicesNone(w[..|w| - 1], threshold);
    }
  }

  /** One turn of the loop keeps its invariant: the index kept now followed
      by the pass over what is left is the pass over what was left. */
  lemma GreedyStep(data: seq<seq<real>>, w: seq<real>, good: seq<nat>, remaining: seq<nat>, kept: seq<nat>,
                   current: nat, next: seq<nat>, st2: real)
    requires SixWide(data) && |w| == |data| && InRange(good, |data|) && InRange(remaining, |data|) && st2 >= 0.0
    requires |remaining| > 0 && current == remaining[ArgMax(Gather(w, remaining))]
    requires next == Farther(data, remaining, current, st2)
    requires kept + Greedy(data, w, remaining, st2) == Greedy(data, w, good, st2)
    ensures InRange(next, |data|) && |next| < |remaining|
    ensures (kept + [current]) + Greedy(data, w, next, st2) == Greedy(data, w, good, st2)
  {
    GreedyUnfold(data, w, remaining, st2);
    FartherShrinks(data, remaining, current, st2);
    AppendStep(kept, current, Greedy(data, w, next, st2), Greedy(data, w, remaining, st2));
  }

  lemma AppendStep(kept: seq<nat>, x: nat, rest: seq<nat>, all: seq<nat>)
    requires all == [x] + rest
    ensures kept + all == (kept + [x]) + rest
  {
  }
}
