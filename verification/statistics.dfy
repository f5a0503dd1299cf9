/** The NumPy reductions the robust average relies on, over `real`:
    `np.median` of one column, `np.sum`, normalising weights to sum to one, and
    the weighted sum `np.sum(values * weights)`. */
module Statistics {

  predicate Sorted(s: seq<real>) {
    forall i, j | 0 <= i < j < |s| :: s[i] <= s[j]
  }

  /** Inserts `x` into a sorted sequence. */
  function Insert(x: real, s: seq<real>): (r: seq<real>)
    requires Sorted(s)
    ensures Sorted(r)
    ensures multiset(r) == multiset(s) + multiset{x}
    ensures |r| == |s| + 1
    ensures r[0] == if |s| == 0 || x <= s[0] then x else s[0]
  {
    if |s| == 0 then [x]
    else if x <= s[0] then [x] + s
    else
      assert s == [s[0]] + s[1..];
      [s[0]] + Insert(x, s[1..])
  }

  /** Insertion sort: the ascending permutation of `s`. */
  function Sort(s: seq<real>): (r: seq<real>)
    ensures Sorted(r)
    ensures multiset(r) == multiset(s)
    ensures |r| == |s|
  {
    if |s| == 0 then []
    else
      assert s == [s[0]] + s[1..];
      Insert(s[0], Sort(s[1..]))
  }

  /** `np.median` of a non-empty column: the middle element of the sorted
      values, or the mean of the two middle ones when the count is even. */
  function Median(s: seq<real>): (m: real)
    requires |s| > 0
    ensures Sort(s)[(|s| - 1) / 2] <= m <= Sort(s)[|s| / 2]
    ensures |s| % 2 == 1 ==> m == Sort(s)[|s| / 2]
    ensures |s| % 2 == 0 ==> m == (Sort(s)[|s| / 2 - 1] + Sort(s)[|s| / 2]) / 2.0
  {
    var t := Sort(s);
    var n := |t|;
    assert t[(n - 1) / 2] <= t[n / 2];
    if n % 2 == 1 then
      assert (n - 1) / 2 == n / 2;
      t[n / 2]
    else
      assert (n - 1) / 2 == n / 2 - 1;
      (t[n / 2 - 1] + t[n / 2]) / 2.0
  }

  /** Every element of the sorted sequence is an element of the input, so it
      keeps any bounds the input keeps. */
  lemma SortElementBounds(s: seq<real>, k: int, lo: real, hi: real)
    requires 0 <= k < |s|
    requires forall i | 0 <= i < |s| :: lo <= s[i] <= hi
    ensures Sort(s)[k] in s
    ensures lo <= Sort(s)[k] <= hi
  {
    var t := Sort(s);
    assert t[k] in multiset(t);
    assert t[k] in multiset(s);
    var i :| 0 <= i < |s| && s[i] == t[k];
  }

  /** The median lies within any bounds that hold for every value. */
  lemma MedianBounds(s: seq<real>, lo: real, hi: real)
    requires |s| > 0
    requires forall i | 0 <= i < |s| :: lo <= s[i] <= hi
    ensures lo <= Median(s) <= hi
  {
    var n := |s|;
    SortElementBounds(s, n / 2, lo, hi);
    if n % 2 == 0 {
      SortElementBounds(s, n / 2 - 1, lo, hi);
    }
  }

  /** For an odd count the median is one of the values. */
  lemma MedianOddIsElement(s: seq<real>)
    requires |s| % 2 == 1
    ensures Median(s) in s
  {
    var t := Sort(s);
    assert t[|s| / 2] in multiset(t);
  }

  /** The median of a constant column is that constant. */
  lemma MedianOfConstant(s: seq<real>, c: real)
    requires |s| > 0
    requires forall i | 0 <= i < |s| :: s[i] == c
    ensures Median(s) == c
  {
    MedianBounds(s, c, c);
  }

  /** The least value of a non-empty sequence. */
  function Min(s: seq<real>): (m: real)
    requires |s| > 0
    ensures m in s
    ensures forall i | 0 <= i < |s| :: m <= s[i]
  {
    if |s| == 1 then s[0]
    else
      var rest := Min(s[1..]);
      assert forall i | 1 <= i < |s| :: s[i] == s[1..][i - 1];
      if s[0] <= rest then s[0] else rest
  }

  /** The greatest value of a non-empty sequence. */
  function Max(s: seq<real>): (m: real)
    requires |s| > 0
    ensures m in s
    ensures forall i | 0 <= i < |s| :: s[i] <= m
  {
    if |s| == 1 then s[0]
    else
      var rest := Max(s[1..]);
      assert forall i | 1 <= i < |s| :: s[i] == s[1..][i - 1];
      if s[0] >= rest then s[0] else rest
  }

  /** `np.sum`. */
  function Sum(w: seq<real>): real {
    if |w| == 0 then 0.0 else w[0] + Sum(w[1..])
  }

  predicate AllPositive(w: seq<real>) {
    forall i | 0 <= i < |w| :: w[i] > 0.0
  }

  /** A non-empty sum of positive weights is positive. */
  lemma {:induction false} SumPositive(w: seq<real>)
    requires |w| > 0 && AllPositive(w)
    ensures Sum(w) > 0.0
  {
    if |w| > 1 {
      SumPositive(w[1..]);
    }
  }

  /** Each element divided by `d`. */
  function DivideAll(w: seq<real>, d: real): (r: seq<real>)
    requires d != 0.0
    ensures |r| == |w|
  {
    seq(|w|, i requires 0 <= i < |w| => w[i] / d)
  }

  lemma {:induction false} SumDivideAll(w: seq<real>, d: real)
    requires d != 0.0
    ensures Sum(DivideAll(w, d)) == Sum(w) / d
  {
    if |w| > 0 {
      assert DivideAll(w, d)[1..] == DivideAll(w[1..], d);
      SumDivideAll(w[1..], d);
      assert (w[0] + Sum(w[1..])) / d == w[0] / d + Sum(w[1..]) / d;
    }
  }

  /** `weights / np.sum(weights)`: for positive weights the result is positive
      and sums to one. */
  function Normalize(w: seq<real>): (r: seq<real>)
    requires |w| > 0 && AllPositive(w)
    ensures |r| == |w|
    ensures AllPositive(r)
    ensures Sum(r) == 1.0
  {
    SumPositive(w);
    SumDivideAll(w, Sum(w));
    assert Sum(w) / Sum(w) == 1.0;
    DivideAll(w, Sum(w))
  }

  /** `np.sum(values * weights)` for one column. */
  function WeightedSum(w: seq<real>, v: seq<real>): real
    requires |w| == |v|
  {
    if |w| == 0 then 0.0 else w[0] * v[0] + WeightedSum(w[1..], v[1..])
  }

  /** With non-negative weights, the weighted sum of values in `[lo, hi]` lies
      between `lo` and `hi` times the total weight. */
  lemma {:induction false} WeightedSumBounds(w: seq<real>, v: seq<real>, lo: real, hi: real)
    requires |w| == |v|
    requires forall i | 0 <= i < |w| :: w[i] >= 0.0
    requires forall i | 0 <= i < |v| :: lo <= v[i] <= hi
    ensures lo * Sum(w) <= WeightedSum(w, v) <= hi * Sum(w)
  {
    if |w| > 0 {
      var s', ws' := Sum(w[1..]), WeightedSum(w[1..], v[1..]);
      WeightedSumBounds(w[1..], v[1..], lo, hi);
      NonNegativeProduct(w[0], v[0] - lo);
      NonNegativeProduct(w[0], hi - v[0]);
      assert lo * Sum(w) == lo * w[0] + lo * s';
      assert hi * Sum(w) == hi * w[0] + hi * s';
      assert WeightedSum(w, v) == w[0] * v[0] + ws';
    }
  }

  lemma NonNegativeProduct(a: real, b: real)
    requires a >= 0.0 && b >= 0.0
    ensures a * b >= 0.0
  {
  }

  /** A convex combination (weights non-negative, summing to one) of values in
      `[lo, hi]` lies in `[lo, hi]`. */
  lemma ConvexCombinationBounds(w: seq<real>, v: seq<real>, lo: real, hi: real)
    requires |w| == |v|
    requires forall i | 0 <= i < |w| :: w[i] >= 0.0
    requires Sum(w) == 1.0
    requires forall i | 0 <= i < |v| :: lo <= v[i] <= hi
    ensures lo <= WeightedSum(w, v) <= hi
  {
    WeightedSumBounds(w, v, lo, hi);
  }
}
