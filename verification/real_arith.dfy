/** Steps of exact real arithmetic used by the column statistics, each kept
    apart from sequence reasoning so that the solver sees only the algebra. */
module RealArith {

  /** The value `d`. Writing a square as `d * Copy(d)` keeps it a product of
      two terms for the solver, which otherwise rewrites a syntactic square
      `d * d` in a way that loses the sign facts proved about it. */
  function Copy(d: real): real {
    d
  }

  function Sq(d: real): (r: real)
    ensures r >= 0.0
  {
    d * Copy(d)
  }

  lemma SqNeg(d: real)
    ensures Sq(-d) == Sq(d)
  {
  }

  lemma SqSum(a: real, b: real)
    ensures Sq(a + b) == Sq(a) + 2.0 * a * b + Sq(b)
  {
  }

  lemma SqScale(a: real, c: real)
    ensures Sq(a * c) == Sq(a) * Sq(c)
  {
  }

  lemma MulPos(x: real, y: real)
    requires x > 0.0 && y > 0.0
    ensures x * y > 0.0
  {
  }

  lemma MulNonneg(x: real, y: real)
    requires x >= 0.0 && y >= 0.0
    ensures x * y >= 0.0
  {
  }

  lemma SqPos(d: real)
    requires d != 0.0
    ensures Sq(d) > 0.0
  {
    if d > 0.0 {
      MulPos(d, d);
    } else {
      MulPos(-d, -d);
      SqNeg(d);
    }
  }

  /** Multiplying both sides by a positive factor preserves the order. */
  lemma CancelPositive(x: real, y: real, c: real)
    requires c > 0.0
    ensures x > y <==> x * c > y * c
  {
    assert x * c - y * c == (x - y) * c;
    if x > y {
      MulPos(x - y, c);
    } else {
      MulNonneg(y - x, c);
      assert (y - x) * c == -((x - y) * c);
    }
  }

  lemma DivTimes(x: real, y: real)
    requires y != 0.0
    ensures (x / y) * y == x
  {
  }

  /** a*b > c*e for a > c >= 0 and b > e >= 0. */
  lemma ProdStrict(a: real, b: real, c: real, e: real)
    requires a > c >= 0.0 && b > e >= 0.0
    ensures a * b > c * e
  {
    assert a * b - c * e == (a - c) * b + c * (b - e);
    MulPos(a - c, b);
    MulNonneg(c, b - e);
  }

  /** a*b <= c*e for c >= a >= 0 and e >= b >= 0. */
  lemma ProdWeak(a: real, b: real, c: real, e: real)
    requires c >= a >= 0.0 && e >= b >= 0.0
    ensures a * b <= c * e
  {
    assert c * e - a * b == (c - a) * e + a * (e - b);
    MulNonneg(c - a, e);
    MulNonneg(a, e - b);
  }

  /** |d| > t exactly when d^2 > t^2, for positive t. */
  lemma BeyondThreshold(d: real, t: real)
    requires t > 0.0
    ensures Sq(d) > Sq(t) <==> (d < -t || d > t)
  {
    var a := if d >= 0.0 then d else -d;
    SqNeg(d);
    if a > t {
      ProdStrict(a, Copy(a), t, Copy(t));
    } else {
      ProdWeak(a, Copy(a), t, Copy(t));
    }
  }

  lemma CopyTimes(L: real, x: real)
    ensures Copy(L) * (L * x) == Sq(L) * x
  {
  }

  /** The quadratic L*e^2 - 2*S*e + Q has no sign change when L*Q >= S^2. */
  lemma QuadStep(L: real, S: real, Q: real, e: real)
    requires L > 0.0 && L * Q >= Sq(S)
    ensures Q + L * Sq(e) >= 2.0 * S * e
  {
    var cL := Copy(L);
    var w := cL * e;
    SqSum(S, -w);
    SqNeg(w);
    SqScale(L, e);
    CopyTimes(L, Sq(e));
    var x := Q + L * Sq(e) - 2.0 * S * e;
    assert cL * x == cL * Q + Sq(L) * Sq(e) - 2.0 * S * w;
    assert cL * Q == L * Q;
    assert cL * x >= Sq(S - w);
    CancelPositive(x, 0.0, cL);
  }

  /** Inductive step of Cauchy-Schwarz for deviations:
      L*Q >= S^2 gives (L+1)*(Q+e^2) >= (S+e)^2. */
  lemma CauchyStep(L: real, S: real, Q: real, e: real)
    requires L >= 0.0 && Q >= 0.0 && L * Q >= Sq(S)
    requires L == 0.0 ==> S == 0.0 && Q == 0.0
    ensures (L + 1.0) * (Q + Sq(e)) >= Sq(S + e)
  {
    SqSum(S, e);
    if L > 0.0 {
      QuadStep(L, S, Q, e);
    }
    assert (L + 1.0) * (Q + Sq(e)) == L * Q + L * Sq(e) + Q + Sq(e);
  }

  /** `CauchyStep` with the deviation sums written out: one more value `e + m`
      extends the bound from `L` values to `len = L + 1`. */
  lemma CauchyStepAt(len: real, L: real, q: real, qt: real, D: real, d: real,
                     e: real, m: real, s: real, st: real)
    requires L >= 0.0 && qt >= 0.0 && L * qt >= Sq(d)
    requires L == 0.0 ==> d == 0.0 && qt == 0.0
    requires len == L + 1.0 && q == Sq(e) + qt
    requires D == s - len * m && d == st - L * m && s == (e + m) + st
    ensures len * q >= Sq(D)
  {
    assert len * m == L * m + m;
    assert D == d + e;
    CauchyStep(L, d, qt, e);
    assert len * q == (L + 1.0) * (qt + Sq(e));
  }

  /** Samuelson's step: (n-1)*qr >= d2 and q = qr + d2 give (n-1)*q >= n*d2. */
  lemma SamuelsonStep(n: real, q: real, qr: real, d2: real)
    requires q == qr + d2
    requires (n - 1.0) * qr >= d2
    ensures (n - 1.0) * q >= n * d2
  {
    assert (n - 1.0) * q == (n - 1.0) * qr + (n - 1.0) * d2;
  }

  /** With n <= 10 values, (n-1)*ss >= n*q and v = ss/(n-1) give q <= 9*v. */
  lemma SmallSampleStep(n: real, q: real, ss: real, v: real)
    requires 2.0 <= n <= 10.0
    requires q >= 0.0 && v * (n - 1.0) == ss
    requires (n - 1.0) * ss >= n * q
    ensures q <= 9.0 * v
  {
    // (n-1)^2 - 9n = n*(n-11) + 1 <= 0 for 1 <= n <= 10.
    var a := (n - 1.0) * (n - 1.0) - 9.0 * n;
    MulNonneg(n, 10.0 - n);
    assert a == 1.0 - n - n * (10.0 - n);
    MulNonneg(-a, q);
    if q > 9.0 * v {
      CancelPositive(q, 9.0 * v, n - 1.0);
      CancelPositive((n - 1.0) * q, 9.0 * ss, n - 1.0);
      assert false;
    }
  }

  /** The mean of k copies of `a` and one `b` lies (b-a)/(k+1) above `a`. */
  lemma OneOffMean(K: real, a: real, b: real, m: real, e: real, n: real)
    requires n == K + 1.0 && n > 0.0
    requires m * n == K * a + b && e * n == b - a
    ensures m == a + e
  {
    assert a * n == a * (K + 1.0) == a * K + a;
    assert a * K == K * a;
    calc {
      (a + e) * n;
      a * n + e * n;
      (K * a + a) + (b - a);
      m * n;
    }
    if m > a + e {
      CancelPositive(m, a + e, n);
    } else if m < a + e {
      CancelPositive(a + e, m, n);
    }
  }

  /** Squared deviations k*e^2 + (k*e)^2 over k degrees of freedom give the
      variance (k+1)*e^2. */
  lemma OneOffSpread(K: real, e: real, s: real, n: real, q: real, v: real)
    requires K >= 1.0 && n == K + 1.0 && s == Sq(e)
    requires q == K * s + Sq(K * e)
    requires v * K == q
    ensures Sq(K * e) == K * K * s
    ensures v == n * s
  {
    SqScale(K, e);
    assert Sq(K) == K * K;
    assert q == K * (n * s);
    if v > n * s {
      CancelPositive(v, n * s, K);
    } else if v < n * s {
      CancelPositive(n * s, v, K);
    }
  }

  /** With variance (k+1)*e^2: the lone value, k*e away, is beyond the bound
      exactly when k*k > 9*(k+1); a copy, e away, never is. */
  lemma OneOffFlags(K: real, s: real, n: real, v: real)
    requires K >= 1.0 && n == K + 1.0 && s > 0.0 && v == n * s
    ensures K * K * s > 9.0 * v <==> K * K > 9.0 * n
    ensures !(s > 9.0 * v)
  {
    assert 9.0 * v == (9.0 * n) * s;
    CancelPositive(K * K, 9.0 * n, s);
    MulNonneg(s, 9.0 * n - 1.0);
    assert s * (9.0 * n - 1.0) == 9.0 * v - s;
  }

  /** k*k > 9*(k+1) holds from k = 10 on and fails below. */
  lemma AtLeastTenCopies(k: nat)
    ensures (k as real) * (k as real) > 9.0 * ((k as real) + 1.0) <==> k >= 10
  {
    var kr := k as real;
    if k >= 10 {
      MulNonneg(kr - 10.0, kr);
      assert (kr - 10.0) * kr == kr * kr - 10.0 * kr;
    } else {
      assert kr <= 9.0;
      MulNonneg(9.0 - kr, kr);
      assert (9.0 - kr) * kr == 9.0 * kr - kr * kr;
    }
  }
}
