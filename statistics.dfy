/** The statistics that score one observation against the recent history
    (main.py): the trailing window `data[-window_size:]`, its arithmetic mean
    (`np.mean`), its population standard deviation (`np.std`, which divides by
    N) and the z-score guarded against a zero standard deviation.

    Values are mathematical reals: floating-point rounding is not modelled.
    numpy's square root is not available to the verifier, so the standard
    deviation is computed through a parameter `root` that `IsSqrt` constrains
    to be the non-negative square root. */
module Statistics {
  import opened Results
  import opened Reals

  function Min(a: int, b: int): int { if a <= b then a else b }

  /** Where Python's slice `data[-k:]` starts in a list of length `n`: a negative
      start counts from the end and is clamped at 0, a non-negative one is
      clamped at `n`. In particular `data[-0:]` is the whole list. */
  function SliceStart(n: nat, k: int): (start: nat)
    ensures start <= n
  {
    if k > 0 then (if k <= n then n - k else 0)
    else if k == 0 then 0
    else if -k <= n then -k else n
  }

  /** `data[-windowSize:]`: for a positive window size, the last
      `windowSize` elements of `data` (all of them when there are fewer),
      in their original order. */
  function TrailingWindow(data: seq<real>, windowSize: int): (w: seq<real>)
    ensures windowSize >= 1 ==> |w| == Min(windowSize, |data|)
    ensures windowSize >= 1 ==> forall i :: 0 <= i < |w| ==> w[i] == data[|data| - |w| + i]
    ensures windowSize >= 1 && |data| > 0 ==> |w| > 0 && w[|w| - 1] == data[|data| - 1]
  {
    data[SliceStart(|data|, windowSize)..]
  }

  /** With a window size of 0 the slice `data[-0:]` is the whole history. */
  lemma TrailingWindowOfZero(data: seq<real>)
    ensures TrailingWindow(data, 0) == data
  {
  }

  function Sum(s: seq<real>): real
  {
    if |s| == 0 then 0.0 else s[0] + Sum(s[1..])
  }

  /** Sum of the squared deviations of the elements of `s` from `c`. */
  function SumSq(s: seq<real>, c: real): real
  {
    if |s| == 0 then 0.0 else Sq(s[0] - c) + SumSq(s[1..], c)
  }

  /** `np.mean`: the arithmetic mean, not a number (None) for an empty slice. */
  function Mean(s: seq<real>): (m: Option<real>)
    ensures m.Some? <==> |s| > 0
    ensures m.Some? ==> m.value * (|s| as real) == Sum(s)
  {
    if |s| == 0 then None else Some(Sum(s) / (|s| as real))
  }

  /** The population variance: the mean squared deviation from the mean,
      dividing by N and not by N - 1. None for an empty slice. */
  function Variance(s: seq<real>): (v: Option<real>)
    ensures v.Some? <==> |s| > 0
    ensures v.Some? ==> v.value >= 0.0
    ensures v.Some? ==> v.value * (|s| as real) == SumSq(s, Mean(s).value)
  {
    if |s| == 0 then None
    else
      var m := Sum(s) / (|s| as real);
      SumSqNonnegative(s, m);
      Some(SumSq(s, m) / (|s| as real))
  }

  /** `moving_average(data, window_size)` (main.py:44-59). */
  function MovingAverage(data: seq<real>, windowSize: int): (m: Option<real>)
    ensures windowSize >= 1 ==> (m.Some? <==> |data| > 0)
    ensures windowSize >= 1 && m.Some? ==>
              var n := Min(windowSize, |data|);
              m.value * (n as real) == Sum(data[|data| - n..])
  {
    assert windowSize >= 1 ==> TrailingWindow(data, windowSize) == data[|data| - Min(windowSize, |data|)..];
    Mean(TrailingWindow(data, windowSize))
  }

  /** The square of `standard_deviation(data, window_size)`. */
  function MovingVariance(data: seq<real>, windowSize: int): (v: Option<real>)
    ensures windowSize >= 1 ==> (v.Some? <==> |data| > 0)
    ensures v.Some? ==> v.value >= 0.0
  {
    Variance(TrailingWindow(data, windowSize))
  }

  /** `root` is the non-negative square root on the non-negative reals. */
  ghost predicate IsSqrt(root: real -> real)
  {
    forall v :: v >= 0.0 ==> root(v) >= 0.0 && Sq(root(v)) == v
  }

  /** `standard_deviation(data, window_size)` (main.py:61-76): the
      non-negative number whose square is the population variance of the
      trailing window. */
  function StandardDeviation(data: seq<real>, windowSize: int, root: real -> real): (sd: Option<real>)
    ensures sd.Some? <==> MovingVariance(data, windowSize).Some?
    ensures IsSqrt(root) && sd.Some? ==>
              sd.value >= 0.0 && Sq(sd.value) == MovingVariance(data, windowSize).value
  {
    match MovingVariance(data, windowSize)
    case None => None
    case Some(v) => Some(root(v))
  }

  /** `z_score(data_point, mean, std_dev)` (main.py:78-94): how many standard
      deviations `x` lies from `mean`, and 0 whenever the standard deviation
      is not positive. */
  function ZScore(x: real, mean: real, sd: real): (z: real)
    ensures sd > 0.0 ==> z * sd == x - mean
    ensures sd <= 0.0 ==> z == 0.0
  {
    if sd > 0.0 then (x - mean) / sd else 0.0
  }

  /** The anomaly test of main.py:236, a strict comparison. */
  predicate IsAnomaly(z: real, threshold: real)
  {
    Abs(z) > threshold
  }

  // ---------------------------------------------------------------------
  // Facts about sums

  lemma {:induction false} SumSqNonnegative(s: seq<real>, c: real)
    ensures SumSq(s, c) >= 0.0
  {
    if |s| > 0 {
      SqNonnegative(s[0] - c);
      SumSqNonnegative(s[1..], c);
    }
  }

  /** The squared deviations from `c` add up to 0 exactly when every element is `c`. */
  lemma {:induction false} SumSqZeroIff(s: seq<real>, c: real)
    ensures SumSq(s, c) == 0.0 <==> forall i :: 0 <= i < |s| ==> s[i] == c
  {
    if |s| > 0 {
      var d := s[0] - c;
      SqNonnegative(d);
      SqZero(d);
      SumSqNonnegative(s[1..], c);
      SumSqZeroIff(s[1..], c);
      assert forall i :: 0 <= i < |s[1..]| ==> s[1..][i] == s[i + 1];
      if d == 0.0 {
        assert SumSq(s, c) == SumSq(s[1..], c);
      } else {
        assert SumSq(s, c) > 0.0;
      }
    }
  }

  lemma {:induction false} SumOfConstant(s: seq<real>, c: real)
    requires forall i :: 0 <= i < |s| ==> s[i] == c
    ensures Sum(s) == (|s| as real) * c
  {
    if |s| > 0 {
      assert forall i :: 0 <= i < |s[1..]| ==> s[1..][i] == s[i + 1];
      SumOfConstant(s[1..], c);
    }
  }

  lemma {:induction false} SumBetween(s: seq<real>, lo: real, hi: real)
    requires forall i :: 0 <= i < |s| ==> lo <= s[i] <= hi
    ensures (|s| as real) * lo <= Sum(s) <= (|s| as real) * hi
  {
    if |s| > 0 {
      assert forall i :: 0 <= i < |s[1..]| ==> s[1..][i] == s[i + 1];
      SumBetween(s[1..], lo, hi);
    }
  }

  // ---------------------------------------------------------------------
  // Facts about the window statistics

  /** The mean lies between any lower and upper bound of the window. */
  lemma MeanBetween(s: seq<real>, lo: real, hi: real)
    requires |s| > 0
    requires forall i :: 0 <= i < |s| ==> lo <= s[i] <= hi
    ensures lo <= Mean(s).value <= hi
  {
    var n := |s| as real;
    SumBetween(s, lo, hi);
    var m := Mean(s).value;
    assert m * n == Sum(s);
  }

  /** A window whose values are all `c` has mean `c` and variance 0. */
  lemma ConstantWindow(s: seq<real>, c: real)
    requires |s| > 0
    requires forall i :: 0 <= i < |s| ==> s[i] == c
    ensures Mean(s) == Some(c)
    ensures Variance(s) == Some(0.0)
  {
    SumOfConstant(s, c);
    var n := |s| as real;
    assert Mean(s).value * n == c * n;
    assert Mean(s).value == c;
    SumSqZeroIff(s, c);
  }

  /** The population variance of a non-empty window is 0 exactly when all
      its values are equal. */
  lemma VarianceZeroIffConstant(s: seq<real>)
    requires |s| > 0
    ensures Variance(s) == Some(0.0) <==>
            forall i, j :: 0 <= i < |s| && 0 <= j < |s| ==> s[i] == s[j]
  {
    if forall i, j :: 0 <= i < |s| && 0 <= j < |s| ==> s[i] == s[j] {
      ConstantWindow(s, s[0]);
    } else {
      var m := Mean(s).value;
      if Variance(s) == Some(0.0) {
        assert SumSq(s, m) == 0.0;
        SumSqZeroIff(s, m);
        assert false;
      }
    }
  }

  /** The standard deviation of a non-empty trailing window is 0 exactly when
      every value in the window is the same. */
  lemma StandardDeviationZeroIffConstant(data: seq<real>, windowSize: int, root: real -> real)
    requires IsSqrt(root)
    requires |TrailingWindow(data, windowSize)| > 0
    ensures var w := TrailingWindow(data, windowSize);
            StandardDeviation(data, windowSize, root) == Some(0.0) <==>
            forall i, j :: 0 <= i < |w| && 0 <= j < |w| ==> w[i] == w[j]
  {
    var w := TrailingWindow(data, windowSize);
    VarianceZeroIffConstant(w);
    var sd := StandardDeviation(data, windowSize, root).value;
    assert Sq(sd) == Variance(w).value;
    SqZero(sd);
    if sd == 0.0 {
      assert Variance(w).value == 0.0;
    } else {
      assert Variance(w).value > 0.0;
    }
  }

  /** The worked example of test_anomaly_detection.py: for [1, 2, 3, 4, 5] and
      a window of 3 the window is [3, 4, 5], the mean is 4 and the squared
      standard deviation is 2/3 (dividing by 3, not by 2). */
  lemma WindowStatisticsExample(root: real -> real)
    requires IsSqrt(root)
    ensures TrailingWindow([1.0, 2.0, 3.0, 4.0, 5.0], 3) == [3.0, 4.0, 5.0]
    ensures MovingAverage([1.0, 2.0, 3.0, 4.0, 5.0], 3) == Some(4.0)
    ensures MovingVariance([1.0, 2.0, 3.0, 4.0, 5.0], 3) == Some(2.0 / 3.0)
    ensures var sd := StandardDeviation([1.0, 2.0, 3.0, 4.0, 5.0], 3, root).value;
            sd > 0.0 && Sq(sd) == 2.0 / 3.0
  {
    var w := [3.0, 4.0, 5.0];
    assert TrailingWindow([1.0, 2.0, 3.0, 4.0, 5.0], 3) == w;
    assert Sum(w) == 12.0 by {
      assert w[1..] == [4.0, 5.0];
      assert w[1..][1..] == [5.0];
      assert w[1..][1..][1..] == [];
    }
    assert SumSq(w, 4.0) == 2.0 by {
      assert Sq(-1.0) == 1.0 && Sq(0.0) == 0.0 && Sq(1.0) == 1.0;
      assert w[1..] == [4.0, 5.0];
      assert w[1..][1..] == [5.0];
      assert w[1..][1..][1..] == [];
    }
  }

  // ---------------------------------------------------------------------
  // Facts about the z-score and the anomaly test

  /** For a positive standard deviation, |z| scaled back by it is the distance to the mean. */
  lemma AbsZScore(x: real, mean: real, sd: real)
    requires sd > 0.0
    ensures Mul(Abs(ZScore(x, mean, sd)), sd) == Abs(x - mean)
  {
    var z := ZScore(x, mean, sd);
    assert Mul(z, sd) == x - mean;
    assert Mul(-z, sd) == -Mul(z, sd);
  }

  /** The example of test_anomaly_detection.py:37-48. */
  lemma ZScoreExample(x: real, mean: real)
    ensures ZScore(10.0, 5.0, 2.0) == 2.5
    ensures ZScore(x, mean, 0.0) == 0.0
  {
  }

  /** A point exactly `threshold` standard deviations from the mean is not an anomaly. */
  lemma AtThresholdNotAnomaly(x: real, mean: real, sd: real, threshold: real)
    requires sd > 0.0
    requires Abs(x - mean) == threshold * sd
    ensures !IsAnomaly(ZScore(x, mean, sd), threshold)
  {
    AbsZScore(x, mean, sd);
    MulStrictMonotone(threshold, Abs(ZScore(x, mean, sd)), sd);
  }

  /** For a fixed mean and standard deviation, moving a point further from the
      mean never turns an anomaly into a normal point. */
  lemma AnomalyMonotone(x1: real, x2: real, mean: real, sd: real, threshold: real)
    requires Abs(x1 - mean) <= Abs(x2 - mean)
    requires IsAnomaly(ZScore(x1, mean, sd), threshold)
    ensures IsAnomaly(ZScore(x2, mean, sd), threshold)
  {
    if sd > 0.0 {
      AbsZScore(x1, mean, sd);
      AbsZScore(x2, mean, sd);
      MulStrictMonotone(Abs(ZScore(x2, mean, sd)), Abs(ZScore(x1, mean, sd)), sd);
    }
  }

  /** The anomaly test without the square root: when `sd` is positive and its
      square is `variance`, |z| > t exactly when (x - mean)^2 > t^2 * variance. */
  lemma AnomalySquaredForm(x: real, mean: real, sd: real, variance: real, threshold: real)
    requires sd > 0.0 && Sq(sd) == variance
    requires threshold >= 0.0
    ensures IsAnomaly(ZScore(x, mean, sd), threshold) <==>
            Sq(x - mean) > Mul(Sq(threshold), variance)
  {
    var a, d := Abs(ZScore(x, mean, sd)), Abs(x - mean);
    var b := Mul(threshold, sd);
    AbsZScore(x, mean, sd);
    MulStrictMonotone(threshold, a, sd);
    MulNonnegative(threshold, sd);
    SqStrictMonotone(b, d);
    SqAbs(x - mean);
    SqMul(threshold, sd);
  }
}
