/** Exact-arithmetic column statistics behind the 3-sigma anomaly test:
    sum, mean, sample variance (one delta degree of freedom, as pandas'
    `Series.std` uses by default) and the count of values beyond three
    standard deviations, stated without square roots. */
module Stats {
  import opened Seqs
  import opened RealArith

  function Sum(xs: seq<real>): real {
    if |xs| == 0 then 0.0 else xs[0] + Sum(xs[1..])
  }

  /** Arithmetic mean; pandas reports NaN for no values, which never reaches this model. */
  function Mean(xs: seq<real>): real
    requires |xs| > 0
  {
    Sum(xs) / (|xs| as real)
  }

  /** Sum of squared deviations from `m`. */
  function SqDev(xs: seq<real>, m: real): (r: real)
    ensures r >= 0.0
  {
    if |xs| == 0 then 0.0 else Sq(xs[0] - m) + SqDev(xs[1..], m)
  }

  /** Sample variance: the square of pandas' `std()`, which is NaN below two values. */
  function Variance(xs: seq<real>): (v: real)
    requires |xs| >= 2
    ensures v >= 0.0
  {
    SqDev(xs, Mean(xs)) / ((|xs| - 1) as real)
  }

  /** `x` lies strictly outside [m - 3s, m + 3s] where s*s == v (see `OutsideIffBeyondThreeSigma`). */
  predicate Outside(x: real, m: real, v: real) {
    Sq(x - m) > 9.0 * v
  }

  /** `Outside` as a predicate value, for counting. */
  function OutsideOf(m: real, v: real): real -> bool {
    x => Outside(x, m, v)
  }

  /** The interval test of the anomaly check (validation_service.py:32-38):
      strictly below m - 3*sigma or strictly above m + 3*sigma. */
  function BeyondThreeSigmaOf(m: real, sigma: real): real -> bool {
    x => x < m - 3.0 * sigma || x > m + 3.0 * sigma
  }

  /** Number of 3-sigma outliers among the non-null values `xs` of one column:
      none below two values or with zero spread, where pandas skips the column. */
  function Outliers(xs: seq<real>): (n: nat)
    ensures n <= |xs|
    ensures (|xs| < 2 || Variance(xs) == 0.0) ==> n == 0
  {
    if |xs| < 2 then 0
    else
      var v := Variance(xs);
      if v == 0.0 then 0 else Count(xs, OutsideOf(Mean(xs), v))
  }

  // ---------------------------------------------------------------------------
  // The squared test is the anomaly check's interval test
  // ---------------------------------------------------------------------------

  /** For any positive standard deviation `sigma` with `Sq(sigma) == v`, the
      squared test flags exactly the values strictly below `m - 3*sigma` or
      strictly above `m + 3*sigma`; values on either bound are not flagged. */
  lemma OutsideIffBeyondThreeSigma(x: real, m: real, v: real, sigma: real)
    requires sigma > 0.0 && Sq(sigma) == v
    ensures Outside(x, m, v) <==> (x < m - 3.0 * sigma || x > m + 3.0 * sigma)
  {
    var t := 3.0 * sigma;
    assert Sq(t) == 9.0 * v;
    BeyondThreshold(x - m, t);
  }

  // ---------------------------------------------------------------------------
  // Order does not matter
  // ---------------------------------------------------------------------------

  lemma {:induction false} SumConcat(a: seq<real>, b: seq<real>)
    ensures Sum(a + b) == Sum(a) + Sum(b)
  {
    if |a| == 0 {
      assert a + b == b;
    } else {
      assert (a + b)[1..] == a[1..] + b;
      SumConcat(a[1..], b);
    }
  }

  lemma {:induction false} SqDevConcat(a: seq<real>, b: seq<real>, m: real)
    ensures SqDev(a + b, m) == SqDev(a, m) + SqDev(b, m)
  {
    if |a| == 0 {
      assert a + b == b;
    } else {
      assert (a + b)[1..] == a[1..] + b;
      SqDevConcat(a[1..], b, m);
    }
  }

  lemma SumRemoveAt(xs: seq<real>, k: nat)
    requires k < |xs|
    ensures Sum(xs) == Sum(RemoveAt(xs, k)) + xs[k]
  {
    SplitAt(xs, k);
    SumConcat(xs[..k], [xs[k]] + xs[k + 1..]);
    SumConcat([xs[k]], xs[k + 1..]);
    SumConcat(xs[..k], xs[k + 1..]);
  }

  lemma SqDevRemoveAt(xs: seq<real>, k: nat, m: real)
    requires k < |xs|
    ensures SqDev(xs, m) == SqDev(RemoveAt(xs, k), m) + Sq(xs[k] - m)
  {
    SplitAt(xs, k);
    SqDevConcat(xs[..k], [xs[k]] + xs[k + 1..], m);
    SqDevConcat([xs[k]], xs[k + 1..], m);
    SqDevConcat(xs[..k], xs[k + 1..], m);
  }

  lemma {:induction false} SumPerm(a: seq<real>, b: seq<real>)
    requires multiset(a) == multiset(b)
    ensures Sum(a) == Sum(b)
    decreases |a|
  {
    if |a| == 0 {
      assert |b| == |multiset(b)| == 0;
    } else {
      var k := PermHead(a, b);
      SumPerm(a[1..], RemoveAt(b, k));
      SumRemoveAt(b, k);
    }
  }

  lemma {:induction false} SqDevPerm(a: seq<real>, b: seq<real>, m: real)
    requires multiset(a) == multiset(b)
    ensures SqDev(a, m) == SqDev(b, m)
    decreases |a|
  {
    if |a| == 0 {
      assert |b| == |multiset(b)| == 0;
    } else {
      var k := PermHead(a, b);
      SqDevPerm(a[1..], RemoveAt(b, k), m);
      SqDevRemoveAt(b, k, m);
    }
  }

  /** The outlier count of a column does not depend on the order of its values. */
  lemma OutliersPerm(a: seq<real>, b: seq<real>)
    requires multiset(a) == multiset(b)
    ensures Outliers(a) == Outliers(b)
  {
    assert |a| == |multiset(a)| == |b|;
    if |a| >= 2 {
      SumPerm(a, b);
      SqDevPerm(a, b, Mean(a));
      CountPerm(a, b, OutsideOf(Mean(a), Variance(a)));
    }
  }

  // ---------------------------------------------------------------------------
  // Constant columns
  // ---------------------------------------------------------------------------

  lemma {:induction false} SumConst(xs: seq<real>, c: real)
    requires forall i :: 0 <= i < |xs| ==> xs[i] == c
    ensures Sum(xs) == (|xs| as real) * c
  {
    if |xs| > 0 {
      SumConst(xs[1..], c);
    }
  }

  lemma {:induction false} SqDevConst(xs: seq<real>, c: real, m: real)
    requires forall i :: 0 <= i < |xs| ==> xs[i] == c
    ensures SqDev(xs, m) == (|xs| as real) * Sq(c - m)
  {
    if |xs| > 0 {
      SqDevConst(xs[1..], c, m);
    }
  }

  /** A column whose values are all equal has zero spread and no outliers,
      however many values it holds. */
  lemma ConstantHasNoOutliers(xs: seq<real>)
    requires forall i :: 0 <= i < |xs| ==> xs[i] == xs[0]
    ensures |xs| >= 2 ==> Variance(xs) == 0.0
    ensures Outliers(xs) == 0
  {
    if |xs| >= 2 {
      var n := |xs| as real;
      SumConst(xs, xs[0]);
      assert Mean(xs) == n * xs[0] / n == xs[0];
      SqDevConst(xs, xs[0], xs[0]);
    }
  }

  // ---------------------------------------------------------------------------
  // Samuelson's inequality: no outliers below eleven values
  // ---------------------------------------------------------------------------

  // The statements below name every real quantity by a parameter tied to its
  // defining term, so that products are only ever formed of plain variables.

  /** Cauchy-Schwarz for deviations: L * sum (y - m)^2 >= (sum (y - m))^2. */
  lemma {:induction false} DeviationCauchy(ys: seq<real>, m: real, len: real, s: real, q: real)
    requires len == |ys| as real && s == Sum(ys) && q == SqDev(ys, m)
    ensures len * q >= Sq(s - len * m)
  {
    if |ys| > 0 {
      var t := ys[1..];
      var L, st, qt, e := len - 1.0, Sum(t), SqDev(t, m), ys[0] - m;
      assert ys == [ys[0]] + t;
      DeviationCauchy(t, m, L, st, qt);
      CauchyStepAt(len, L, q, qt, s - len * m, st - L * m, e, m, s, st);
    }
  }

  /** The other values' squared deviations from the column mean, times their
      count, bound the squared deviation of the value left out. */
  lemma RemainderBound(xs: seq<real>, k: nat, n: real, m: real, qr: real, d2: real)
    requires |xs| >= 2 && k < |xs|
    requires n == |xs| as real && m == Mean(xs)
    requires qr == SqDev(RemoveAt(xs, k), m) && d2 == Sq(xs[k] - m)
    ensures (n - 1.0) * qr >= d2
  {
    var r := RemoveAt(xs, k);
    var s, sr := Sum(xs), Sum(r);
    MeanTimesCount(xs, n, m);
    SumRemoveAt(xs, k);
    DeviationCauchy(r, m, n - 1.0, sr, qr);
    assert sr - (n - 1.0) * m == -(xs[k] - m);
    SqNeg(xs[k] - m);
  }

  /** One value's squared deviation is at most (n-1)/n of the column's total. */
  lemma SamuelsonBound(xs: seq<real>, k: nat, n: real, m: real, q: real, d2: real)
    requires |xs| >= 2 && k < |xs|
    requires n == |xs| as real && m == Mean(xs)
    requires q == SqDev(xs, m) && d2 == Sq(xs[k] - m)
    ensures (n - 1.0) * q >= n * d2
  {
    var qr := SqDev(RemoveAt(xs, k), m);
    RemainderBound(xs, k, n, m, qr, d2);
    SqDevRemoveAt(xs, k, m);
    SamuelsonStep(n, q, qr, d2);
  }

  /** No value of a column of at most ten values is flagged. */
  lemma NoOutliersBelowEleven(xs: seq<real>)
    requires |xs| <= 10
    ensures Outliers(xs) == 0
  {
    if |xs| >= 2 && Variance(xs) != 0.0 {
      var n, m, v := |xs| as real, Mean(xs), Variance(xs);
      var q := SqDev(xs, m);
      VarianceTimesDegrees(xs, n, m, v);
      forall k | 0 <= k < |xs|
        ensures !OutsideOf(m, v)(xs[k])
      {
        var d2 := Sq(xs[k] - m);
        SamuelsonBound(xs, k, n, m, q, d2);
        SmallSampleStep(n, d2, q, v);
      }
      CountZeroIffNone(xs, OutsideOf(m, v));
    }
  }

  // ---------------------------------------------------------------------------
  // The bound is tight: one differing value among k copies
  // ---------------------------------------------------------------------------

  /** `k` copies of `a` followed by one other value `b`: the lone value is
      flagged exactly when k >= 10, and no copy ever is. So eleven values
      are the fewest with which anything can be flagged. */
  lemma SingleOutlier(xs: seq<real>, k: nat, a: real, b: real)
    requires k >= 1 && |xs| == k + 1
    requires forall i :: 0 <= i < k ==> xs[i] == a
    requires xs[k] == b && a != b
    ensures Outliers(xs) == (if k >= 10 then 1 else 0)
  {
    var K, m := k as real, Mean(xs);
    var n := K + 1.0;
    var e := (b - a) / n;
    OneOffCentre(xs, k, a, b, K, n, m, e);
    var sq := Sq(e);
    SqPos(e);
    var v := Variance(xs);
    OneOffVariance(xs, k, a, b, K, n, m, e, sq, v);
    OneOffFlags(K, sq, n, v);
    AtLeastTenCopies(k);
    assert !OutsideOf(m, v)(a);
    assert OutsideOf(m, v)(b) <==> k >= 10;
    var front := xs[..k];
    assert xs == front + [b];
    CountConcat(front, [b], OutsideOf(m, v));
    CountZeroIffNone(front, OutsideOf(m, v));
  }

  /** The copies lie `e` below the mean and the lone value `k*e` above it. */
  lemma OneOffCentre(xs: seq<real>, k: nat, a: real, b: real, K: real, n: real, m: real, e: real)
    requires k >= 1 && |xs| == k + 1
    requires forall i :: 0 <= i < k ==> xs[i] == a
    requires xs[k] == b
    requires K == k as real && n == K + 1.0 && m == Mean(xs) && e == (b - a) / n
    ensures a - m == -e && b - m == K * e
  {
    var front := xs[..k];
    assert xs == front + [b];
    SumConcat(front, [b]);
    SumConst(front, a);
    MeanTimesCount(xs, n, m);
    DivTimes(b - a, n);
    OneOffMean(K, a, b, m, e, n);
    assert e * n == e * K + e;
  }

  lemma OneOffVariance(xs: seq<real>, k: nat, a: real, b: real, K: real, n: real, m: real, e: real, sq: real, v: real)
    requires k >= 1 && |xs| == k + 1
    requires forall i :: 0 <= i < k ==> xs[i] == a
    requires xs[k] == b
    requires K == k as real && n == K + 1.0 && m == Mean(xs)
    requires a - m == -e && b - m == K * e && sq == Sq(e) && v == Variance(xs)
    ensures Sq(b - m) == K * K * sq && v == n * sq
  {
    var front := xs[..k];
    assert xs == front + [b];
    var qf, qb := SqDev(front, m), SqDev([b], m);
    SqDevConcat(front, [b], m);
    SqDevConst(front, a, m);
    SqNeg(e);
    assert qf == K * sq;
    assert qb == Sq(K * e);
    VarianceTimesDegrees(xs, n, m, v);
    OneOffSpread(K, e, sq, n, qf + qb, v);
  }

  // ---------------------------------------------------------------------------
  // Steps of real arithmetic used above
  // ---------------------------------------------------------------------------

  lemma MeanTimesCount(xs: seq<real>, n: real, m: real)
    requires |xs| > 0 && n == |xs| as real && m == Mean(xs)
    ensures m * n == Sum(xs)
  {
    DivTimes(Sum(xs), n);
  }

  lemma VarianceTimesDegrees(xs: seq<real>, n: real, m: real, v: real)
    requires |xs| >= 2 && n == |xs| as real && m == Mean(xs) && v == Variance(xs)
    ensures v * (n - 1.0) == SqDev(xs, m)
  {
    DivTimes(SqDev(xs, m), n - 1.0);
  }
}
