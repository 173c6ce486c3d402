/** Means, variances, correlation and moments of src/utils.c over the reals. */
module Moments {
  import opened Text
  import opened OrderStatistics

  // --- Sums --------------------------------------------------------------------------------

  function Times(x: real, y: real): real { x * y }

  /** The sum of the products x[i] * y[i]. */
  function Dot(xs: seq<real>, ys: seq<real>): real
    requires |xs| == |ys|
  {
    if xs == [] then 0.0
    else Dot(xs[..|xs| - 1], ys[..|xs| - 1]) + Times(xs[|xs| - 1], ys[|xs| - 1])
  }

  /** The sum of the k-th powers. */
  function PowerSum(xs: seq<real>, k: nat): real {
    if xs == [] then 0.0 else PowerSum(xs[..|xs| - 1], k) + Power(xs[|xs| - 1], k)
  }

  function Power(x: real, k: nat): real {
    if k == 0 then 1.0 else Power(x, k - 1) * x
  }

  function Mean(xs: seq<real>): real
    requires |xs| > 0
  {
    SumOf(xs) / |xs| as real
  }

  function Centred(xs: seq<real>, m: real): (r: seq<real>)
    ensures |r| == |xs|
    ensures forall i :: 0 <= i < |xs| ==> r[i] == xs[i] - m
  {
    seq(|xs|, i requires 0 <= i < |xs| => xs[i] - m)
  }

  /** The deviations from the mean. */
  function Deviated(xs: seq<real>): (r: seq<real>)
    requires |xs| > 0
    ensures |r| == |xs|
  {
    Centred(xs, Mean(xs))
  }

  lemma CentredPrefix(xs: seq<real>, m: real)
    requires xs != []
    ensures Centred(xs, m)[..|xs| - 1] == Centred(xs[..|xs| - 1], m)
  {
  }

  lemma {:induction false} CentredSum(xs: seq<real>, m: real)
    ensures SumOf(Centred(xs, m)) == SumOf(xs) - |xs| as real * m
  {
    if xs != [] {
      CentredPrefix(xs, m);
      CentredSum(xs[..|xs| - 1], m);
    }
  }

  /** The deviations from the mean cancel out. */
  lemma DeviationsCancel(xs: seq<real>)
    requires |xs| > 0
    ensures SumOf(Deviated(xs)) == 0.0
  {
    CentredSum(xs, Mean(xs));
  }

  // --- The loops ---------------------------------------------------------------------------

  method ArithmeticMeanValue(xs: seq<real>) returns (mean: real)
    requires |xs| > 0
    ensures mean == Mean(xs)
  {
    var sum := 0.0;
    var i := 0;
    while i < |xs|
      invariant 0 <= i <= |xs| && sum == SumOf(xs[..i])
    {
      assert xs[..i + 1][..i] == xs[..i];
      sum := sum + xs[i];
      i := i + 1;
    }
    assert xs[..|xs|] == xs;
    mean := sum / |xs| as real;
  }

  lemma DotStep(xs: seq<real>, ys: seq<real>, i: nat)
    requires |xs| == |ys| && i < |xs|
    ensures Dot(xs[..i + 1], ys[..i + 1]) == Dot(xs[..i], ys[..i]) + Times(xs[i], ys[i])
  {
    assert xs[..i + 1][..i] == xs[..i] && ys[..i + 1][..i] == ys[..i];
  }

  lemma PowerStep(xs: seq<real>, k: nat, i: nat)
    requires i < |xs|
    ensures PowerSum(xs[..i + 1], k) == PowerSum(xs[..i], k) + Power(xs[i], k)
  {
    assert xs[..i + 1][..i] == xs[..i];
  }

  lemma Powers(x: real)
    ensures Power(x, 2) == x * x && Power(x, 3) == x * x * x && Power(x, 4) == x * x * x * x
  {
    assert Power(x, 1) == x;
  }

  /** What the covariance divides by: n for the population, n - 1 for a sample. */
  function Covariance(xs: seq<real>, ys: seq<real>, df: nat): Option<real>
    requires |xs| == |ys| > 0 && df <= 1
  {
    if df == |xs| then None else Some(Dot(Deviated(xs), Deviated(ys)) / (|xs| - df) as real)
  }

  function Variance(xs: seq<real>, df: nat): Option<real>
    requires |xs| > 0 && df <= 1
  {
    if df == |xs| then None else Some(PowerSum(Deviated(xs), 2) / (|xs| - df) as real)
  }

  /** variance_value; None is NaN. */
  method VarianceValue(xs: seq<real>, df: nat) returns (variance: Option<real>)
    requires |xs| > 0 && df <= 1
    ensures variance == Variance(xs, df)
  {
    if df == |xs| {
      return None;
    }
    var mean := ArithmeticMeanValue(xs);
    ghost var ds := Deviated(xs);
    var sum := 0.0;
    var i := 0;
    hide PowerSum, Power;
    PowerSumEmpty(2);
    while i < |xs|
      invariant 0 <= i <= |xs| && sum == PowerSum(ds[..i], 2)
    {
      PowerStep(ds, 2, i);
      Powers(ds[i]);
      sum := sum + (xs[i] - mean) * (xs[i] - mean);
      i := i + 1;
    }
    assert ds[..|xs|] == ds;
    variance := Some(sum / (|xs| - df) as real);
  }

  lemma PowerSumEmpty(k: nat)
    ensures PowerSum([], k) == 0.0
  {
  }

  /** covariance_value. */
  method CovarianceValue(xs: seq<real>, ys: seq<real>, df: nat) returns (covariance: Option<real>)
    requires |xs| == |ys| > 0 && df <= 1
    ensures covariance == Covariance(xs, ys, df)
  {
    if df == |xs| {
      return None;
    }
    hide Dot;
    var meanA := ArithmeticMeanValue(xs);
    var meanB := ArithmeticMeanValue(ys);
    var sum := CrossSum(xs, ys, meanA, meanB);
    covariance := Some(sum / (|xs| - df) as real);
  }

  method CrossSum(xs: seq<real>, ys: seq<real>, meanA: real, meanB: real) returns (sum: real)
    requires |xs| == |ys|
    ensures sum == Dot(Centred(xs, meanA), Centred(ys, meanB))
  {
    ghost var as_, bs := Centred(xs, meanA), Centred(ys, meanB);
    sum := 0.0;
    var i := 0;
    DotEmpty();
    hide Dot, Centred;
    while i < |xs|
      invariant 0 <= i <= |xs| && sum == Dot(as_[..i], bs[..i])
    {
      DotStep(as_, bs, i);
      sum := sum + (xs[i] - meanA) * (ys[i] - meanB);
      i := i + 1;
    }
    assert as_[..|xs|] == as_ && bs[..|xs|] == bs;
  }

  /** dot_product_value. */
  method DotProductValue(xs: seq<real>, ys: seq<real>) returns (sum: real)
    requires |xs| == |ys|
    ensures sum == Dot(xs, ys)
  {
    sum := 0.0;
    var i := 0;
    while i < |xs|
      invariant 0 <= i <= |xs| && sum == Dot(xs[..i], ys[..i])
    {
      DotStep(xs, ys, i);
      sum := sum + xs[i] * ys[i];
      i := i + 1;
    }
    assert xs[..|xs|] == xs && ys[..|xs|] == ys;
  }

  lemma {:induction false} DotSelf(xs: seq<real>)
    ensures Dot(xs, xs) == PowerSum(xs, 2) && Dot(xs, xs) >= 0.0
  {
    if xs != [] {
      DotSelf(xs[..|xs| - 1]);
      Powers(xs[|xs| - 1]);
      ZeroSquare(xs[|xs| - 1]);
    }
  }

  /** The covariance of a column with itself is its variance, for either df. */
  lemma CovarianceOfSelf(xs: seq<real>, df: nat)
    requires |xs| > 0 && df <= 1
    ensures Covariance(xs, xs, df) == Variance(xs, df)
  {
    DotSelf(Deviated(xs));
  }

  lemma {:induction false} DotSymmetric(xs: seq<real>, ys: seq<real>)
    requires |xs| == |ys|
    ensures Dot(xs, ys) == Dot(ys, xs)
  {
    if xs != [] {
      DotSymmetric(xs[..|xs| - 1], ys[..|xs| - 1]);
    }
  }

  /** The sum of (x - a) * (y - b), from the sums of x * y, of x and of y. */
  function Shifted(d: real, s: real, t: real, a: real, b: real, n: real): real {
    d - b * s - a * t + n * (a * b)
  }

  lemma {:induction false} DotCentred(xs: seq<real>, ys: seq<real>, a: real, b: real)
    requires |xs| == |ys|
    ensures Dot(Centred(xs, a), Centred(ys, b))
         == Shifted(Dot(xs, ys), SumOf(xs), SumOf(ys), a, b, |xs| as real)
  {
    if xs != [] {
      var n := |xs| - 1;
      CentredPrefix(xs, a);
      CentredPrefix(ys, b);
      DotCentred(xs[..n], ys[..n], a, b);
      hide Centred, Shifted, Times;
      ShiftedStep(Dot(xs[..n], ys[..n]), SumOf(xs[..n]), SumOf(ys[..n]), xs[n], ys[n], a, b, n as real);
    }
  }

  lemma ShiftedStep(d: real, s: real, t: real, x: real, y: real, a: real, b: real, n: real)
    ensures Shifted(d, s, t, a, b, n) + Times(x - a, y - b)
         == Shifted(d + Times(x, y), s + x, t + y, a, b, n + 1.0)
  {
    assert (x - a) * (y - b) == x * y - b * x - a * y + a * b;
    assert b * (s + x) == b * s + b * x;
    assert a * (t + y) == a * t + a * y;
    assert (n + 1.0) * (a * b) == n * (a * b) + a * b;
  }

  /** The same sum from one pass over the data. */
  function OnePass(d: real, s: real, t: real, n: real): real
    requires n != 0.0
  {
    d - s * t / n
  }

  lemma MeansCancel(d: real, s: real, t: real, a: real, b: real, n: real)
    requires n > 0.0 && a == s / n && b == t / n
    ensures Shifted(d, s, t, a, b, n) == OnePass(d, s, t, n)
  {
    assert s == a * n && t == b * n;
    var m := a * b;
    assert b * s == m * n && a * t == m * n;
    assert s * t == (m * n) * n;
    assert s * t / n == m * n;
  }

  lemma DeviatedDot(xs: seq<real>, ys: seq<real>)
    requires |xs| == |ys| > 0
    ensures Dot(Deviated(xs), Deviated(ys)) == OnePass(Dot(xs, ys), SumOf(xs), SumOf(ys), |xs| as real)
  {
    hide Dot, SumOf, Centred, Shifted, OnePass;
    DotCentred(xs, ys, Mean(xs), Mean(ys));
    MeansCancel(Dot(xs, ys), SumOf(xs), SumOf(ys), Mean(xs), Mean(ys), |xs| as real);
  }

  /** The two-pass covariance agrees with the one-pass sums. */
  lemma CovarianceOnePass(xs: seq<real>, ys: seq<real>, df: nat)
    requires |xs| == |ys| > 0 && df <= 1 && df != |xs|
    ensures Covariance(xs, ys, df)
         == Some(OnePass(Dot(xs, ys), SumOf(xs), SumOf(ys), |xs| as real) / (|xs| - df) as real)
  {
    hide Dot, SumOf, Deviated, OnePass;
    DeviatedDot(xs, ys);
  }

  // --- Pearson -----------------------------------------------------------------------------

  function Minus(xs: seq<real>, l: real, ys: seq<real>): (r: seq<real>)
    requires |xs| == |ys|
    ensures |r| == |xs|
    ensures forall i :: 0 <= i < |xs| ==> r[i] == xs[i] - l * ys[i]
  {
    seq(|xs|, i requires 0 <= i < |xs| => xs[i] - l * ys[i])
  }

  lemma MinusPrefix(xs: seq<real>, l: real, ys: seq<real>)
    requires |xs| == |ys| > 0
    ensures Minus(xs, l, ys)[..|xs| - 1] == Minus(xs[..|xs| - 1], l, ys[..|ys| - 1])
  {
    var n := |xs| - 1;
    forall i | 0 <= i < n ensures Minus(xs, l, ys)[..n][i] == Minus(xs[..n], l, ys[..n])[i] {
      assert ys[..n][i] == ys[i];
    }
  }

  /** The squared length of x - l*y, from the three sums of products. */
  function QuadraticForm(a: real, s: real, b: real, l: real): real { a - 2.0 * l * s + l * l * b }

  lemma DotUnfold(xs: seq<real>, ys: seq<real>)
    requires |xs| == |ys| > 0
    ensures var n := |xs| - 1; Dot(xs, ys) == Dot(xs[..n], ys[..n]) + Times(xs[n], ys[n])
  {
  }

  lemma {:induction false} Quadratic(xs: seq<real>, ys: seq<real>, l: real)
    requires |xs| == |ys|
    ensures var zs := Minus(xs, l, ys);
      Dot(zs, zs) == QuadraticForm(Dot(xs, xs), Dot(xs, ys), Dot(ys, ys), l)
  {
    hide *;
    var zs := Minus(xs, l, ys);
    if xs == [] {
      QuadraticEmpty(l);
      assert ys == [] && zs == [];
    } else {
      var n := |xs| - 1;
      MinusPrefix(xs, l, ys);
      assert zs[n] == xs[n] - l * ys[n];
      assert zs[..n] == Minus(xs[..n], l, ys[..n]);
      Quadratic(xs[..n], ys[..n], l);
      DotUnfold(xs, xs);
      DotUnfold(xs, ys);
      DotUnfold(ys, ys);
      DotUnfold(zs, zs);
      QuadraticStep(Dot(xs[..n], xs[..n]), Dot(xs[..n], ys[..n]), Dot(ys[..n], ys[..n]), xs[n], ys[n], l,
                    Dot(xs, xs), Dot(xs, ys), Dot(ys, ys), zs[n]);
    }
  }

  lemma QuadraticEmpty(l: real)
    ensures Dot([], []) == QuadraticForm(Dot([], []), Dot([], []), Dot([], []), l)
  {
  }

  lemma QuadraticStep(a: real, s: real, b: real, x: real, y: real, l: real,
                      a': real, s': real, b': real, z: real)
    requires a' == a + Times(x, x) && s' == s + Times(x, y) && b' == b + Times(y, y) && z == x - l * y
    ensures QuadraticForm(a, s, b, l) + Times(z, z) == QuadraticForm(a', s', b', l)
  {
    var p := l * y;
    assert (x - p) * (x - p) == x * x - 2.0 * (x * p) + p * p;
    assert x * p == l * (x * y);
    assert p * p == l * l * (y * y);
    assert l * (s + x * y) == l * s + l * (x * y);
    assert l * l * (b + y * y) == l * l * b + l * l * (y * y);
  }

  /** Cauchy-Schwarz for the three sums pearson_corr_value accumulates. */
  lemma CauchySchwarz(xs: seq<real>, ys: seq<real>)
    requires |xs| == |ys|
    ensures Times(Dot(xs, ys), Dot(xs, ys)) <= Times(Dot(xs, xs), Dot(ys, ys))
  {
    var s, a, b := Dot(xs, ys), Dot(xs, xs), Dot(ys, ys);
    DotSelf(xs);
    DotSelf(ys);
    if b == 0.0 {
      DotWithZero(xs, ys);
      ZeroFactor(s, s);
      ZeroFactor(a, b);
    } else {
      var l := s / b;
      Quadratic(xs, ys, l);
      DotSelf(Minus(xs, l, ys));
      hide Dot, Minus, QuadraticForm, Times;
      Discriminant(a, s, b, l);
    }
  }

  lemma {:induction false} DotWithZero(xs: seq<real>, ys: seq<real>)
    requires |xs| == |ys| && Dot(ys, ys) == 0.0
    ensures Dot(xs, ys) == 0.0
  {
    if xs != [] {
      var n := |xs| - 1;
      DotSelf(ys[..n]);
      ZeroSquare(ys[n]);
      ZeroFactor(xs[n], ys[n]);
      DotWithZero(xs[..n], ys[..n]);
    }
  }

  lemma NonNegative(x: real, y: real)
    requires x >= 0.0 && y >= 0.0
    ensures x * y >= 0.0 && Times(x, y) >= 0.0
  {
  }

  lemma ZeroFactor(x: real, y: real)
    ensures y == 0.0 ==> x * y == 0.0
  {
  }

  lemma Positive(x: real, y: real)
    requires x > 0.0 && y > 0.0
    ensures x * y > 0.0
  {
  }

  lemma Distribute(p: real, q: real, m: real)
    ensures (p - q) * m == p * m - q * m
  {
  }

  /** A positive factor does not change the sign. */
  lemma CancelFactor(x: real, m: real)
    requires m > 0.0 && x * m >= 0.0
    ensures x >= 0.0
  {
    if x < 0.0 {
      Positive(-x, m);
    }
  }

  lemma ZeroSquare(y: real)
    ensures y * y >= 0.0 && (y != 0.0 ==> y * y > 0.0)
  {
    if y > 0.0 {
      Positive(y, y);
    } else if y < 0.0 {
      var z := -y;
      Positive(z, z);
      assert z * z == y * y;
    }
  }

  lemma Discriminant(a: real, s: real, b: real, l: real)
    requires b > 0.0 && l == s / b && QuadraticForm(a, s, b, l) >= 0.0
    ensures Times(s, s) <= Times(a, b)
  {
    assert s == l * b;
    assert l * l * b == l * s;
    assert 2.0 * l * s == 2.0 * (l * s);
    var c := a - l * s;
    NonNegative(c, b);
    assert c * b == a * b - (l * s) * b;
    assert (l * s) * b == s * s;
  }

  /** sqrtl, as far as the model needs it. */
  ghost predicate IsSqrt(sqrt: real -> real) {
    forall x :: x >= 0.0 ==> sqrt(x) >= 0.0 && sqrt(x) * sqrt(x) == x
  }

  function Per(x: real, n: real): real
    requires n != 0.0
  {
    x / n
  }

  /** The coefficient from the two variances and the covariance. */
  function CorrelationOf(a: real, b: real, c: real, sqrt: real -> real): Option<real> {
    var sds := Times(sqrt(a), sqrt(b));
    if sds == 0.0 then None else Some(Per(c, sds))
  }

  /** The coefficient from the three sums. */
  function Correlation(sumA: real, sumB: real, sumCo: real, n: real, sqrt: real -> real): Option<real>
    requires n > 0.0
  {
    CorrelationOf(Per(sumA, n), Per(sumB, n), Per(sumCo, n), sqrt)
  }

  /** The Pearson coefficient; None is NaN, which dividing zero by zero gives too. */
  function Pearson(xs: seq<real>, ys: seq<real>, df: nat, sqrt: real -> real): Option<real>
    requires |xs| == |ys| > 0 && df <= 1
  {
    if df == |xs| then None else
    var (as_, bs) := (Deviated(xs), Deviated(ys));
    Correlation(Dot(as_, as_), Dot(bs, bs), Dot(as_, bs), (|xs| - df) as real, sqrt)
  }

  /** pearson_corr_value: one loop accumulates the three sums. */
  method PearsonCorrValue(xs: seq<real>, ys: seq<real>, df: nat, sqrt: real -> real)
    returns (cor: Option<real>)
    requires |xs| == |ys| > 0 && df <= 1
    ensures cor == Pearson(xs, ys, df, sqrt)
  {
    if df == |xs| {
      return None;
    }
    var meanA := ArithmeticMeanValue(xs);
    var meanB := ArithmeticMeanValue(ys);
    var sumA, sumB, sumCo := ThreeSums(xs, ys, meanA, meanB);
    hide Dot, Correlation;
    cor := Correlate(sumA, sumB, sumCo, (|xs| - df) as real, sqrt);
  }

  method Correlate(sumA: real, sumB: real, sumCo: real, n: real, sqrt: real -> real)
    returns (cor: Option<real>)
    requires n > 0.0
    ensures cor == Correlation(sumA, sumB, sumCo, n, sqrt)
  {
    hide Per, Times;
    var covariance := Per(sumCo, n);
    var sdA, sdB := sqrt(Per(sumA, n)), sqrt(Per(sumB, n));
    var sds := Times(sdA, sdB);
    cor := if sds == 0.0 then None else Some(Per(covariance, sds));
  }

  method ThreeSums(xs: seq<real>, ys: seq<real>, meanA: real, meanB: real)
    returns (sumA: real, sumB: real, sumCo: real)
    requires |xs| == |ys|
    ensures var (as_, bs) := (Centred(xs, meanA), Centred(ys, meanB));
      sumA == Dot(as_, as_) && sumB == Dot(bs, bs) && sumCo == Dot(as_, bs)
  {
    ghost var as_, bs := Centred(xs, meanA), Centred(ys, meanB);
    sumA, sumB, sumCo := 0.0, 0.0, 0.0;
    var i := 0;
    DotEmpty();
    hide Dot, Centred;
    while i < |xs|
      invariant 0 <= i <= |xs|
      invariant sumA == Dot(as_[..i], as_[..i])
      invariant sumB == Dot(bs[..i], bs[..i])
      invariant sumCo == Dot(as_[..i], bs[..i])
    {
      var a, b := xs[i] - meanA, ys[i] - meanB;
      assert a == as_[i] && b == bs[i];
      DotStep(as_, as_, i);
      DotStep(bs, bs, i);
      DotStep(as_, bs, i);
      sumA, sumB, sumCo := sumA + a * a, sumB + b * b, sumCo + a * b;
      i := i + 1;
    }
    assert as_[..|xs|] == as_ && bs[..|xs|] == bs;
  }

  lemma DotEmpty()
    ensures Dot([], []) == 0.0
  {
  }

  /** The coefficient lies between -1 and 1. */
  lemma PearsonBounded(xs: seq<real>, ys: seq<real>, df: nat, sqrt: real -> real)
    requires |xs| == |ys| > 0 && df <= 1 && IsSqrt(sqrt)
    ensures var r := Pearson(xs, ys, df, sqrt); r.Some? ==> -1.0 <= r.value <= 1.0
  {
    if df != |xs| {
      var as_, bs := Deviated(xs), Deviated(ys);
      CauchySchwarz(as_, bs);
      DotSelf(as_);
      DotSelf(bs);
      hide Dot, Deviated, Correlation, IsSqrt, Times;
      CorrelationBounded(Dot(as_, as_), Dot(bs, bs), Dot(as_, bs), (|xs| - df) as real, sqrt);
    }
  }

  lemma CorrelationBounded(a: real, b: real, s: real, n: real, sqrt: real -> real)
    requires n > 0.0 && a >= 0.0 && b >= 0.0 && Times(s, s) <= Times(a, b) && IsSqrt(sqrt)
    ensures var r := Correlation(a, b, s, n, sqrt); r.Some? ==> -1.0 <= r.value <= 1.0
  {
    Ratio(a, n);
    Ratio(b, n);
    ScaledProducts(s, a, b, n);
    hide Per, Times;
    SquaresBound(Per(a, n), Per(b, n), Per(s, n), sqrt);
  }

  lemma SquaresBound(a: real, b: real, c: real, sqrt: real -> real)
    requires a >= 0.0 && b >= 0.0 && Times(c, c) <= Times(a, b) && IsSqrt(sqrt)
    ensures var r := CorrelationOf(a, b, c, sqrt); r.Some? ==> -1.0 <= r.value <= 1.0
  {
    hide Per, Times;
    RatioBound(c, a, b, sqrt(a), sqrt(b));
  }

  lemma Ratio(a: real, n: real)
    requires a >= 0.0 && n > 0.0
    ensures Per(a, n) >= 0.0
  {
  }

  lemma ScaledProducts(s: real, a: real, b: real, n: real)
    requires n > 0.0 && Times(s, s) <= Times(a, b)
    ensures Times(Per(s, n), Per(s, n)) <= Times(Per(a, n), Per(b, n))
  {
    hide Times, Per;
    ProductOfScaled(s, s, n);
    ProductOfScaled(a, b, n);
    PositiveSquare(n);
    CancelOrder(Times(Per(s, n), Per(s, n)), Times(Per(a, n), Per(b, n)), Times(n, n));
  }

  lemma ProductOfScaled(x: real, y: real, n: real)
    requires n > 0.0
    ensures Times(x, y) == Times(Times(Per(x, n), Per(y, n)), Times(n, n))
  {
    var x', y' := x / n, y / n;
    assert x == x' * n && y == y' * n;
    assert (x' * n) * (y' * n) == (x' * y') * (n * n);
  }

  lemma PositiveSquare(n: real)
    requires n > 0.0
    ensures Times(n, n) > 0.0
  {
    PositiveTimes(n, n);
  }

  lemma PositiveTimes(x: real, y: real)
    requires x > 0.0 && y > 0.0
    ensures Times(x, y) > 0.0
  {
  }

  lemma CancelOrder(p: real, q: real, m: real)
    requires m > 0.0 && Times(p, m) <= Times(q, m)
    ensures p <= q
  {
    Distribute(q, p, m);
    CancelFactor(q - p, m);
  }

  lemma RatioBound(c: real, a: real, b: real, sa: real, sb: real)
    requires Times(c, c) <= Times(a, b) && sa >= 0.0 && sb >= 0.0 && sa * sa == a && sb * sb == b
    ensures var d := Times(sa, sb); d != 0.0 ==> -1.0 <= Per(c, d) <= 1.0
  {
    var d := sa * sb;
    NonNegative(sa, sb);
    assert d * d == (sa * sa) * (sb * sb);
    if d != 0.0 {
      AbsBound(c, d);
      BoundedRatio(c, d);
    }
  }

  lemma BoundedRatio(c: real, d: real)
    requires d > 0.0 && -d <= c <= d
    ensures -1.0 <= Per(c, d) <= 1.0
  {
    var r := Per(c, d);
    assert r * d == c;
    Distribute(1.0, r, d);
    Distribute(r, -1.0, d);
    CancelFactor(1.0 - r, d);
    CancelFactor(r + 1.0, d);
  }

  lemma AbsBound(c: real, d: real)
    requires d > 0.0 && c * c <= d * d
    ensures -d <= c <= d
  {
    var p, q := d - c, d + c;
    assert p * q == d * d - c * c;
    if p < 0.0 {
      Positive(-p, q);
    }
    if q < 0.0 {
      Positive(p, -q);
    }
  }

  // --- Skewness and kurtosis ---------------------------------------------------------------

  /** The k-th central moment. */
  function Moment(xs: seq<real>, k: nat): real
    requires |xs| > 0
  {
    PowerSum(Deviated(xs), k) / |xs| as real
  }

  /** The sums skewness_value accumulates. */
  method SkewnessSums(xs: seq<real>, mean: real) returns (sum2: real, sum3: real)
    ensures sum2 == PowerSum(Centred(xs, mean), 2) && sum3 == PowerSum(Centred(xs, mean), 3)
  {
    ghost var ds := Centred(xs, mean);
    sum2, sum3 := 0.0, 0.0;
    var i := 0;
    PowerSumEmpty(2);
    PowerSumEmpty(3);
    hide PowerSum, Power, Centred;
    while i < |xs|
      invariant 0 <= i <= |xs|
      invariant sum2 == PowerSum(ds[..i], 2) && sum3 == PowerSum(ds[..i], 3)
    {
      var t := xs[i] - mean;
      Powers(t);
      PowerStep(ds, 2, i);
      PowerStep(ds, 3, i);
      sum2, sum3 := sum2 + t * t, sum3 + t * t * t;
      i := i + 1;
    }
    assert ds[..|xs|] == ds;
  }

  /** The sums excess_kurtosis_value accumulates. */
  method KurtosisSums(xs: seq<real>, mean: real) returns (sum2: real, sum4: real)
    ensures sum2 == PowerSum(Centred(xs, mean), 2) && sum4 == PowerSum(Centred(xs, mean), 4)
  {
    ghost var ds := Centred(xs, mean);
    sum2, sum4 := 0.0, 0.0;
    var i := 0;
    PowerSumEmpty(2);
    PowerSumEmpty(4);
    hide PowerSum, Power, Centred;
    while i < |xs|
      invariant 0 <= i <= |xs|
      invariant sum2 == PowerSum(ds[..i], 2) && sum4 == PowerSum(ds[..i], 4)
    {
      var t := xs[i] - mean;
      Powers(t);
      PowerStep(ds, 2, i);
      PowerStep(ds, 4, i);
      sum2, sum4 := sum2 + t * t, sum4 + t * t * t * t;
      i := i + 1;
    }
    assert ds[..|xs|] == ds;
  }

  /** Skewness from the moments; None is NaN, which zero over zero gives for constant data. */
  function SkewnessOf(m2: real, m3: real, n: nat, df: nat, sqrt: real -> real): Option<real> {
    var root := sqrt(Cube(m2));
    if root == 0.0 then None
    else if df == 0 then Some(Per(m3, root))
    else if n <= 2 then None
    else Some(Times(Per(sqrt(OrderedPairs(n)), (n - 2) as real), Per(m3, root)))
  }

  function OrderedPairs(n: nat): (r: real)
    requires n > 0
    ensures r >= 0.0
  {
    (n * (n - 1)) as real
  }

  /** Excess kurtosis from the moments. */
  function KurtosisOf(m2: real, m4: real, n: nat, df: nat): Option<real> {
    if m2 == 0.0 then None else
    var k := Per(m4, Squared(m2)) - 3.0;
    if df == 0 then Some(k)
    else if n <= 3 then None
    else
      NonZeroTimes((n - 2) as real, (n - 3) as real);
      Some(Adjusted(n as real, Times((n - 2) as real, (n - 3) as real), k))
  }

  /** The sample's correction; d is (n-2)*(n-3). */
  function Adjusted(n: real, d: real, k: real): real
    requires d != 0.0
  {
    Per(n - 1.0, d) * ((n + 1.0) * k + 6.0)
  }

  function Squared(m: real): (r: real)
    requires m != 0.0
    ensures r != 0.0
  {
    NonZeroTimes(m, m);
    Times(m, m)
  }

  lemma NonZeroTimes(x: real, y: real)
    requires x != 0.0 && y != 0.0
    ensures Times(x, y) != 0.0
  {
  }

  function Cube(m: real): (r: real)
    ensures m > 0.0 ==> r > 0.0
    ensures m == 0.0 ==> r == 0.0
  {
    if m > 0.0 then
      PositiveTimes(m, m);
      PositiveTimes(Times(m, m), m);
      Times(Times(m, m), m)
    else Times(Times(m, m), m)
  }

  function Skewness(xs: seq<real>, df: nat, sqrt: real -> real): Option<real> {
    if |xs| <= 1 then None else SkewnessOf(Moment(xs, 2), Moment(xs, 3), |xs|, df, sqrt)
  }

  function ExcessKurtosis(xs: seq<real>, df: nat): Option<real> {
    if |xs| <= 1 then None else KurtosisOf(Moment(xs, 2), Moment(xs, 4), |xs|, df)
  }

  /** skewness_value. */
  method SkewnessValue(xs: seq<real>, df: nat, sqrt: real -> real) returns (skewness: Option<real>)
    requires df <= 1
    ensures skewness == Skewness(xs, df, sqrt)
  {
    if |xs| <= 1 {
      return None;
    }
    hide PowerSum, SkewnessOf;
    var mean := ArithmeticMeanValue(xs);
    var moment2, moment3 := SkewnessSums(xs, mean);
    moment2, moment3 := moment2 / |xs| as real, moment3 / |xs| as real;
    skewness := SkewnessOf(moment2, moment3, |xs|, df, sqrt);
  }

  /** excess_kurtosis_value. */
  method ExcessKurtosisValue(xs: seq<real>, df: nat) returns (kurtosis: Option<real>)
    requires df <= 1
    ensures kurtosis == ExcessKurtosis(xs, df)
  {
    if |xs| <= 1 {
      return None;
    }
    hide PowerSum, KurtosisOf;
    var mean := ArithmeticMeanValue(xs);
    var moment2, moment4 := KurtosisSums(xs, mean);
    moment2, moment4 := moment2 / |xs| as real, moment4 / |xs| as real;
    kurtosis := KurtosisOf(moment2, moment4, |xs|, df);
  }

  /** The sum of (t*t - a*t - b) squared over the values t. */
  function ResidualSum(ts: seq<real>, a: real, b: real): real {
    if ts == [] then 0.0 else ResidualSum(ts[..|ts| - 1], a, b) + Residual(ts[|ts| - 1], a, b)
  }

  function Residual(t: real, a: real, b: real): real {
    var r := t * t - a * t - b;
    r * r
  }

  /** The same sum from the power sums. */
  function Quartic(s1: real, s2: real, s3: real, s4: real, n: real, a: real, b: real): real {
    s4 - 2.0 * a * s3 + (a * a - 2.0 * b) * s2 + 2.0 * (a * b) * s1 + n * (b * b)
  }

  lemma {:induction false} ResidualsNonNegative(ts: seq<real>, a: real, b: real)
    ensures ResidualSum(ts, a, b) >= 0.0
  {
    if ts != [] {
      ResidualsNonNegative(ts[..|ts| - 1], a, b);
      var t := ts[|ts| - 1];
      ZeroSquare(t * t - a * t - b);
    }
  }

  lemma {:induction false} ResidualSums(ts: seq<real>, a: real, b: real)
    ensures ResidualSum(ts, a, b)
         == Quartic(SumOf(ts), PowerSum(ts, 2), PowerSum(ts, 3), PowerSum(ts, 4), |ts| as real, a, b)
  {
    hide Quartic, Residual, Power;
    if ts == [] {
      QuarticZero(a, b);
    } else {
      var n := |ts| - 1;
      var us := ts[..n];
      ResidualSums(us, a, b);
      QuarticStep(SumOf(us), PowerSum(us, 2), PowerSum(us, 3), PowerSum(us, 4), n as real, ts[n], a, b);
    }
  }

  lemma QuarticZero(a: real, b: real)
    ensures Quartic(0.0, 0.0, 0.0, 0.0, 0.0, a, b) == 0.0
  {
  }

  lemma QuarticStep(s1: real, s2: real, s3: real, s4: real, n: real, t: real, a: real, b: real)
    ensures Quartic(s1, s2, s3, s4, n, a, b) + Residual(t, a, b)
         == Quartic(s1 + t, s2 + Power(t, 2), s3 + Power(t, 3), s4 + Power(t, 4), n + 1.0, a, b)
  {
    Powers(t);
    var p, q := t * t, a * t;
    assert t * t * t * t == p * p && a * (t * t * t) == p * q;
    assert Residual(t, a, b) == p * p + q * q + b * b - 2.0 * (p * q) - 2.0 * (b * p) + 2.0 * (b * q);
    assert q * q == (a * a) * p;
    assert b * q == (a * b) * t;
  }

  lemma MomentForm(s2: real, s3: real, s4: real, n: real, a: real, b: real)
    requires n > 0.0 && Quartic(0.0, s2, s3, s4, n, a, b) >= 0.0
    ensures s4 / n - 2.0 * a * (s3 / n) + (a * a - 2.0 * b) * (s2 / n) + b * b >= 0.0
  {
    var m2, m3, m4 := s2 / n, s3 / n, s4 / n;
    assert s2 == m2 * n && s3 == m3 * n && s4 == m4 * n;
    var x, y := 2.0 * a * m3, (a * a - 2.0 * b) * m2;
    assert 2.0 * a * s3 == x * n;
    assert (a * a - 2.0 * b) * s2 == y * n;
    var r := m4 - x + y + b * b;
    assert r * n == m4 * n - x * n + y * n + (b * b) * n;
    CancelFactor(r, n);
  }

  /** With a = m3 / m2 and b = m2 the quadratic form is the moment inequality. */
  lemma MomentAlgebra(m2: real, m3: real, m4: real, a: real)
    requires m2 > 0.0 && a * m2 == m3
    requires m4 - 2.0 * a * m3 + (a * a - 2.0 * m2) * m2 + m2 * m2 >= 0.0
    ensures m2 * m4 >= m3 * m3 + m2 * m2 * m2
  {
    var c := a * m3;
    assert (a * a - 2.0 * m2) * m2 == a * (a * m2) - 2.0 * (m2 * m2);
    var r := m4 - c - m2 * m2;
    assert r >= 0.0;
    NonNegative(m2, r);
    assert m2 * c == m3 * m3;
    assert m2 * r == m2 * m4 - m2 * c - m2 * (m2 * m2);
  }

  lemma SecondMomentNonNegative(xs: seq<real>)
    requires |xs| > 0
    ensures Moment(xs, 2) >= 0.0
  {
    DotSelf(Deviated(xs));
  }

  /** For all data, m2 * m4 >= m3 squared + m2 cubed. */
  lemma MomentInequality(xs: seq<real>)
    requires |xs| > 0
    ensures var (m2, m3, m4) := (Moment(xs, 2), Moment(xs, 3), Moment(xs, 4));
      m2 * m4 >= m3 * m3 + m2 * m2 * m2
  {
    SecondMomentNonNegative(xs);
    if Moment(xs, 2) == 0.0 {
      ZeroMoments(xs);
    } else {
      SpreadMoments(xs);
    }
  }

  /** Without deviation all moments vanish. */
  lemma ZeroMoments(xs: seq<real>)
    requires |xs| > 0 && Moment(xs, 2) == 0.0
    ensures Moment(xs, 3) == Moment(xs, 4) == 0.0
  {
    var ds := Deviated(xs);
    ZeroSquares(ds);
    DotSelf(ds);
    assert PowerSum(ds, 2) == 0.0 by {
      hide PowerSum, Deviated;
    }
    hide Deviated, Dot;
    ZeroPowers(ds, 3);
    ZeroPowers(ds, 4);
  }

  lemma {:induction false} ZeroPowers(ds: seq<real>, k: nat)
    requires k > 0 && forall i :: 0 <= i < |ds| ==> ds[i] == 0.0
    ensures PowerSum(ds, k) == 0.0
  {
    if ds != [] {
      ZeroPowers(ds[..|ds| - 1], k);
      assert Power(0.0, k) == Power(0.0, k - 1) * 0.0 == 0.0;
    }
  }

  lemma SpreadMoments(xs: seq<real>)
    requires |xs| > 0 && Moment(xs, 2) > 0.0
    ensures var (m2, m3, m4) := (Moment(xs, 2), Moment(xs, 3), Moment(xs, 4));
      m2 * m4 >= m3 * m3 + m2 * m2 * m2
  {
    var ds := Deviated(xs);
    var n := |xs| as real;
    var m2, m3, m4 := Moment(xs, 2), Moment(xs, 3), Moment(xs, 4);
    var a := m3 / m2;
    DeviationsCancel(xs);
    ResidualSums(ds, a, m2);
    ResidualsNonNegative(ds, a, m2);
    MomentForm(PowerSum(ds, 2), PowerSum(ds, 3), PowerSum(ds, 4), n, a, m2);
    hide PowerSum, Deviated, Quartic, ResidualSum;
    MomentAlgebra(m2, m3, m4, a);
  }

  /** Population excess kurtosis is at least skewness squared minus two, whenever neither is NaN. */
  lemma KurtosisSkewnessBound(xs: seq<real>, sqrt: real -> real)
    requires IsSqrt(sqrt)
    ensures var (k, s) := (ExcessKurtosis(xs, 0), Skewness(xs, 0, sqrt));
      k.Some? && s.Some? ==> k.value >= s.value * s.value - 2.0
  {
    if |xs| > 1 {
      var m2 := Moment(xs, 2);
      SecondMomentNonNegative(xs);
      if m2 > 0.0 {
        MomentInequality(xs);
        hide Moment;
        BoundFromMoments(m2, Moment(xs, 3), Moment(xs, 4), |xs|, sqrt);
      }
    }
  }

  lemma BoundFromMoments(m2: real, m3: real, m4: real, n: nat, sqrt: real -> real)
    requires m2 > 0.0 && m2 * m4 >= m3 * m3 + m2 * m2 * m2 && IsSqrt(sqrt)
    ensures var (k, s) := (KurtosisOf(m2, m4, n, 0), SkewnessOf(m2, m3, n, 0, sqrt));
      k.Some? && s.Some? ==> k.value >= s.value * s.value - 2.0
  {
    var cube := Cube(m2);
    var root := sqrt(cube);
    assert root * root == cube;
    assert m2 * m2 * m2 == cube;
    if root != 0.0 {
      hide Per, IsSqrt;
      RatioOfSquares(m3, root, cube);
      KurtosisRatio(m2, m3, m4, cube);
    }
  }

  lemma RatioOfSquares(x: real, r: real, c: real)
    requires r != 0.0 && r * r == c && c > 0.0
    ensures Per(x, r) * Per(x, r) == Per(x * x, c)
  {
    var q := x / r;
    assert x == q * r;
    assert x * x == (q * q) * c;
  }

  lemma KurtosisRatio(m2: real, m3: real, m4: real, cube: real)
    requires m2 > 0.0 && cube == Times(Times(m2, m2), m2) && cube > 0.0 && m2 * m4 >= m3 * m3 + cube
    ensures Per(m4, Squared(m2)) >= Per(m3 * m3, cube) + 1.0
  {
    var u, v := m4 / Squared(m2), (m3 * m3) / cube;
    assert m4 == u * (m2 * m2);
    assert m2 * m4 == u * cube;
    assert m3 * m3 == v * cube;
    assert (u - v - 1.0) * cube == u * cube - v * cube - cube;
    CancelFactor(u - v - 1.0, cube);
  }

  /** The second moment vanishes, and both statistics are NaN, exactly for constant data. */
  lemma ConstantData(xs: seq<real>, sqrt: real -> real)
    requires |xs| > 1 && IsSqrt(sqrt)
    ensures var constant := forall i :: 0 <= i < |xs| ==> xs[i] == xs[0];
      && (ExcessKurtosis(xs, 0) == None <==> constant)
      && (Skewness(xs, 0, sqrt) == None <==> constant)
  {
    var ds := Deviated(xs);
    ZeroSquares(ds);
    DotSelf(ds);
    if forall i :: 0 <= i < |xs| ==> xs[i] == xs[0] {
      SumOfConstant(xs, xs[0]);
      MeanOfConstant(SumOf(xs), xs[0], |xs| as real);
    }
    hide Dot, PowerSum;
    RootOfCube(Moment(xs, 2), sqrt);
    assert (Moment(xs, 2) == 0.0) == (PowerSum(ds, 2) == 0.0);
    if Moment(xs, 2) == 0.0 {
      assert forall i :: 0 <= i < |xs| ==> ds[i] == xs[i] - Mean(xs);
    }
  }

  lemma MeanOfConstant(sum: real, c: real, n: real)
    requires n > 0.0 && sum == n * c
    ensures sum / n == c
  {
  }

  lemma {:induction false} SumOfConstant(xs: seq<real>, c: real)
    requires forall i :: 0 <= i < |xs| ==> xs[i] == c
    ensures SumOf(xs) == |xs| as real * c
  {
    if xs != [] {
      SumOfConstant(xs[..|xs| - 1], c);
    }
  }

  lemma {:induction false} ZeroSquares(ds: seq<real>)
    ensures Dot(ds, ds) >= 0.0
    ensures Dot(ds, ds) == 0.0 <==> forall i :: 0 <= i < |ds| ==> ds[i] == 0.0
  {
    if ds != [] {
      var n := |ds| - 1;
      ZeroSquares(ds[..n]);
      var q := Times(ds[n], ds[n]);
      SquareZero(ds[n], q);
      assert Dot(ds, ds) == Dot(ds[..n], ds[..n]) + q;
      hide Dot;
      assert (forall i :: 0 <= i < n ==> ds[..n][i] == 0.0) <==> (forall i :: 0 <= i < n ==> ds[i] == 0.0);
      assert (forall i :: 0 <= i < |ds| ==> ds[i] == 0.0)
        <==> ((forall i :: 0 <= i < n ==> ds[i] == 0.0) && ds[n] == 0.0);
    }
  }

  lemma SquareZero(y: real, q: real)
    requires Times(y, y) == q
    ensures q >= 0.0 && (q == 0.0 <==> y == 0.0)
  {
    if y > 0.0 {
      PositiveTimes(y, y);
    } else if y < 0.0 {
      PositiveTimes(-y, -y);
      NegatedSquare(y);
    }
  }

  lemma NegatedSquare(y: real)
    ensures Times(-y, -y) == Times(y, y)
  {
  }

  lemma RootOfCube(m: real, sqrt: real -> real)
    requires m >= 0.0 && IsSqrt(sqrt)
    ensures sqrt(Cube(m)) == 0.0 <==> m == 0.0
  {
    var r := sqrt(Cube(m));
    SquareZero(r, Cube(m));
  }

  // --- The coefficients without roots ------------------------------------------------------

  /** r is the root of y/x with the sign of s, said without dividing. */
  predicate SignedRoot(r: real, x: real, y: real, s: real) {
    Times(Times(r, r), x) == y && Times(r, s) >= 0.0
  }

  lemma RatioTimes(x: real, d: real)
    requires d != 0.0
    ensures Times(Per(x, d), d) == x
  {
  }

  lemma Assoc(a: real, b: real, c: real)
    ensures Times(Times(a, b), c) == Times(a, Times(b, c)) && Times(a, b) == Times(b, a)
  {
    assert (a * b) * c == a * (b * c);
  }

  /** (a b)(c d) = (a c)(b d). */
  lemma Swap(a: real, b: real, c: real, d: real)
    ensures Times(Times(a, b), Times(c, d)) == Times(Times(a, c), Times(b, d))
  {
    hide *;
    Assoc(a, b, Times(c, d));
    Assoc(b, c, d);
    Assoc(c, b, d);
    Assoc(b, c, 0.0);
    Assoc(a, c, Times(b, d));
  }

  lemma SquareNonNegative(x: real)
    ensures Times(x, x) >= 0.0
  {
  }

  lemma PositiveQuotient(x: real, d: real)
    requires d > 0.0
    ensures Times(Per(x, d), x) >= 0.0
  {
    var q := x / d;
    assert x == q * d;
    assert q * x == (q * q) * d;
    SquareNonNegative(q);
    NonNegative(Times(q, q), d);
  }

  /** A quotient by a root. */
  lemma QuotientByRoot(x: real, root: real, c: real)
    requires root > 0.0 && Times(root, root) == c
    ensures SignedRoot(Per(x, root), c, Times(x, x), x)
  {
    var r := Per(x, root);
    RatioTimes(x, root);
    PositiveQuotient(x, root);
    hide *;
    hide Per, Times;
    Swap(r, r, root, root);
    Swap(r, root, r, root);
  }

  /** Multiplying by a positive number keeps the sign, and by its square the square. */
  lemma ScaledRoot(r: real, x: real, y: real, s: real, f: real)
    requires SignedRoot(r, x, y, s) && f >= 0.0
    ensures SignedRoot(Times(f, r), x, Times(Times(f, f), y), s)
  {
    hide Times;
    Swap(f, r, f, r);
    Assoc(Times(f, f), Times(r, r), x);
    Assoc(f, r, s);
    NonNegative(f, Times(r, s));
  }

  // Pearson

  lemma PearsonQuotient(a: real, b: real, c: real, n: real, sa: real, sb: real)
    requires n > 0.0 && sa >= 0.0 && sb >= 0.0
    requires Times(sa, sa) == Per(a, n) && Times(sb, sb) == Per(b, n) && Times(sa, sb) > 0.0
    ensures SignedRoot(Per(Per(c, n), Times(sa, sb)), Times(a, b), Times(c, c), c)
  {
    hide Per, Times;
    var (d, q) := (Times(sa, sb), Per(c, n));
    Swap(sa, sb, sa, sb);
    QuotientByRoot(q, d, Times(Per(a, n), Per(b, n)));
    PerSign(q, d, c, n);
    ProductOfScaled(a, b, n);
    ProductOfScaled(c, c, n);
    var r := Per(q, d);
    Assoc(Times(r, r), Times(Per(a, n), Per(b, n)), Times(n, n));
  }

  /** The sign of a number survives division by positive ones. */
  lemma PerSign(q: real, d: real, c: real, n: real)
    requires n > 0.0 && d > 0.0 && q == Per(c, n)
    ensures Times(Per(q, d), c) >= 0.0
  {
    PositiveQuotient(q, d);
    RatioTimes(c, n);
    hide Per, Times;
    Assoc(Per(q, d), q, n);
    NonNegative(Times(Per(q, d), q), n);
  }

  lemma RootOf(x: real, sqrt: real -> real)
    requires x >= 0.0 && IsSqrt(sqrt)
    ensures sqrt(x) >= 0.0 && Times(sqrt(x), sqrt(x)) == x
  {
  }

  /** The coefficient is the root of C*C / (A*B) with the sign of C, where A and B are the sums of the
      squared deviations and C that of their products; there is none exactly if a column does not vary
      or there are too few values. */
  lemma PearsonIs(xs: seq<real>, ys: seq<real>, df: nat, sqrt: real -> real)
    requires |xs| == |ys| > 0 && df <= 1 && IsSqrt(sqrt)
    ensures var (as_, bs) := (Deviated(xs), Deviated(ys));
      var (a, b, c, r) := (Dot(as_, as_), Dot(bs, bs), Dot(as_, bs), Pearson(xs, ys, df, sqrt));
      && (r.None? <==> |xs| == df || a == 0.0 || b == 0.0)
      && (r.Some? ==> SignedRoot(r.value, Times(a, b), Times(c, c), c))
  {
    if |xs| != df {
      var (as_, bs) := (Deviated(xs), Deviated(ys));
      DotSelf(as_);
      DotSelf(bs);
      hide Dot, Deviated, IsSqrt, Correlation, SignedRoot;
      CorrelationIs(Dot(as_, as_), Dot(bs, bs), Dot(as_, bs), (|xs| - df) as real, sqrt);
    }
  }

  lemma CorrelationIs(a: real, b: real, c: real, n: real, sqrt: real -> real)
    requires n > 0.0 && a >= 0.0 && b >= 0.0 && IsSqrt(sqrt)
    ensures var r := Correlation(a, b, c, n, sqrt);
      && (r.None? <==> a == 0.0 || b == 0.0)
      && (r.Some? ==> SignedRoot(r.value, Times(a, b), Times(c, c), c))
  {
    Ratio(a, n);
    Ratio(b, n);
    hide Per, Times, IsSqrt, SignedRoot;
    var (va, vb) := (Per(a, n), Per(b, n));
    RootOf(va, sqrt);
    RootOf(vb, sqrt);
    RootZero(a, n, va, sqrt(va));
    RootZero(b, n, vb, sqrt(vb));
    ProductZero(sqrt(va), sqrt(vb));
    NonNegative(sqrt(va), sqrt(vb));
    if Times(sqrt(va), sqrt(vb)) != 0.0 {
      PearsonQuotient(a, b, c, n, sqrt(va), sqrt(vb));
    }
  }

  lemma RootZero(a: real, n: real, v: real, s: real)
    requires n > 0.0 && v == Per(a, n) && Times(s, s) == v
    ensures s == 0.0 <==> a == 0.0
  {
    RatioTimes(a, n);
    if s != 0.0 {
      NonZeroTimes(s, s);
    }
  }

  lemma ProductZero(x: real, y: real)
    ensures Times(x, y) == 0.0 <==> x == 0.0 || y == 0.0
  {
    if x != 0.0 && y != 0.0 {
      NonZeroTimes(x, y);
    }
  }

  // Skewness

  /** Both sides multiplied by the same number, and the sign taken from a multiple. */
  lemma RescaledRoot(r: real, x: real, y: real, s: real, f: real, n: real)
    requires SignedRoot(r, x, y, s) && n >= 0.0
    ensures SignedRoot(r, Times(x, f), Times(y, f), Times(s, n))
  {
    hide Times;
    Assoc(Times(r, r), x, f);
    Assoc(r, s, n);
    NonNegative(Times(r, s), n);
  }

  lemma CubeScaled(x: real, n: real)
    requires n > 0.0
    ensures Times(Cube(Per(x, n)), Cube(n)) == Cube(x)
  {
    var y := x / n;
    RatioTimes(x, n);
    hide Times, Per;
    CubeIs(y);
    CubeIs(n);
    CubeIs(x);
    Swap(Times(y, y), y, Times(n, n), n);
    Swap(y, y, n, n);
  }

  lemma CubeIs(x: real)
    ensures Cube(x) == Times(Times(x, x), x)
  {
  }

  lemma SquareScaled(x: real, n: real)
    requires n > 0.0
    ensures Times(Times(Per(x, n), Per(x, n)), Cube(n)) == Times(n, Times(x, x))
  {
    var y := Per(x, n);
    RatioTimes(x, n);
    hide Times, Per;
    CubeIs(n);
    Assoc(Times(y, y), Times(n, n), n);
    Swap(y, y, n, n);
    Assoc(n, Times(x, x), 0.0);
  }

  lemma PopulationSkewness(s2: real, s3: real, n: real, root: real)
    requires n > 0.0 && root > 0.0 && Times(root, root) == Cube(Per(s2, n))
    ensures SignedRoot(Per(Per(s3, n), root), Cube(s2), Times(n, Times(s3, s3)), s3)
  {
    hide Times, Per, Cube, SignedRoot;
    var m3 := Per(s3, n);
    QuotientByRoot(m3, root, Cube(Per(s2, n)));
    RescaledRoot(Per(m3, root), Cube(Per(s2, n)), Times(m3, m3), m3, Cube(n), n);
    CubeScaled(s2, n);
    SquareScaled(s3, n);
    RatioTimes(s3, n);
  }

  lemma SampleFactor(g: real, d: real, q: real)
    requires d > 0.0
    ensures Times(d, Times(Per(g, d), q)) == Times(g, q)
  {
    RatioTimes(g, d);
    hide Per, Times;
    Assoc(d, Per(g, d), q);
    Assoc(Per(g, d), d, 0.0);
  }

  lemma CubeRoot(m: real, sqrt: real -> real)
    requires m >= 0.0 && IsSqrt(sqrt)
    ensures Cube(m) >= 0.0 && sqrt(Cube(m)) >= 0.0 && Times(sqrt(Cube(m)), sqrt(Cube(m))) == Cube(m)
    ensures sqrt(Cube(m)) == 0.0 <==> m == 0.0
  {
    RootOf(Cube(m), sqrt);
    hide Cube, IsSqrt;
    ProductZero(sqrt(Cube(m)), sqrt(Cube(m)));
  }

  lemma PerZero(x: real, n: real)
    requires n > 0.0
    ensures Per(x, n) == 0.0 <==> x == 0.0
  {
    RatioTimes(x, n);
  }

  /** What is multiplied and compared for the skewness of a sample: the squares of n - 2 times the
      coefficient, and of its numerator. */
  lemma SkewnessOfIs(s2: real, s3: real, n: nat, df: nat, sqrt: real -> real)
    requires n > 1 && df <= 1 && s2 >= 0.0 && IsSqrt(sqrt)
    ensures var r := SkewnessOf(Per(s2, n as real), Per(s3, n as real), n, df, sqrt);
      && (r.None? <==> s2 == 0.0 || (df == 1 && n == 2))
      && (r.Some? && df == 0 ==> SignedRoot(r.value, Cube(s2), Times(n as real, Times(s3, s3)), s3))
      && (r.Some? && df == 1 ==>
          SignedRoot(Times((n - 2) as real, r.value), Cube(s2),
                     Times(OrderedPairs(n), Times(n as real, Times(s3, s3))), s3))
  {
    var (m2, m3) := (Per(s2, n as real), Per(s3, n as real));
    Ratio(s2, n as real);
    PerZero(s2, n as real);
    CubeRoot(m2, sqrt);
    hide Times, Per, Cube, SignedRoot, IsSqrt, OrderedPairs;
    var root := sqrt(Cube(m2));
    if root != 0.0 {
      PopulationSkewness(s2, s3, n as real, root);
      if df == 1 && n > 2 {
        SampleSkewness(n, Per(m3, root), Cube(s2), Times(n as real, Times(s3, s3)), s3, sqrt);
      }
    }
  }

  lemma SampleSkewness(n: nat, q: real, x: real, y: real, s: real, sqrt: real -> real)
    requires n > 2 && SignedRoot(q, x, y, s) && IsSqrt(sqrt)
    ensures SignedRoot(Times((n - 2) as real, Times(Per(sqrt(OrderedPairs(n)), (n - 2) as real), q)), x,
                       Times(OrderedPairs(n), y), s)
  {
    var k := OrderedPairs(n);
    RootOf(k, sqrt);
    hide Times, Per, SignedRoot, IsSqrt, OrderedPairs;
    SampleFactor(sqrt(k), (n - 2) as real, q);
    ScaledRoot(q, x, y, s, sqrt(k));
  }

  /** The skewness r, from the sums S2 and S3 of the squared and cubed deviations of n values: for a
      population r*r = n*S3*S3 / (S2*S2*S2) with the sign of S3, for a sample the square of (n-2)*r is
      n*(n-1) times that; there is none exactly for constant data or too few values. */
  lemma SkewnessIs(xs: seq<real>, df: nat, sqrt: real -> real)
    requires xs != [] && df <= 1 && IsSqrt(sqrt)
    ensures var (n, r) := (|xs|, Skewness(xs, df, sqrt));
      var (s2, s3) := (PowerSum(Deviated(xs), 2), PowerSum(Deviated(xs), 3));
      && (r.None? <==> n == 1 || s2 == 0.0 || (df == 1 && n == 2))
      && (r.Some? && df == 0 ==> SignedRoot(r.value, Cube(s2), Times(n as real, Times(s3, s3)), s3))
      && (r.Some? && df == 1 ==>
          SignedRoot(Times((n - 2) as real, r.value), Cube(s2),
                     Times(OrderedPairs(n), Times(n as real, Times(s3, s3))), s3))
  {
    DotSelf(Deviated(xs));
    hide PowerSum, Deviated, SkewnessOf, IsSqrt, SignedRoot, Cube, Times, Dot, OrderedPairs;
    if |xs| > 1 {
      SkewnessOfIs(PowerSum(Deviated(xs), 2), PowerSum(Deviated(xs), 3), |xs|, df, sqrt);
    }
  }

  // Kurtosis

  lemma PopulationKurtosis(s2: real, s4: real, n: real)
    requires n > 0.0 && s2 != 0.0 && Per(s2, n) != 0.0
    ensures Times(Per(Per(s4, n), Squared(Per(s2, n))), Times(s2, s2)) == Times(n, s4)
  {
    var (m2, m4) := (Per(s2, n), Per(s4, n));
    var q := Per(m4, Squared(m2));
    RatioTimes(m4, Squared(m2));
    SquaredIs(m2);
    ProductOfScaled(s2, s2, n);
    RatioTimes(s4, n);
    hide Times, Per, Squared;
    Assoc(q, Times(m2, m2), Times(n, n));
    Assoc(m4, n, n);
    Assoc(s4, n, 0.0);
  }

  lemma SquaredIs(m: real)
    requires m != 0.0
    ensures Squared(m) == Times(m, m)
  {
  }

  lemma SampleKurtosis(n: real, d: real, k: real, p: real, t: real)
    requires d > 0.0 && (k + 3.0) * p == t
    ensures IsSampleKurtosis(Adjusted(n, d, k), n, d, p, t)
  {
    var f := (n + 1.0) * k + 6.0;
    SampleFactor(n - 1.0, d, f);
    assert d * Adjusted(n, d, k) == (n - 1.0) * f;
    assert k * p == t - 3.0 * p;
    assert f * p == (n + 1.0) * (k * p) + 6.0 * p;
    assert (n + 1.0) * (t - 3.0 * p) + 6.0 * p == (n + 1.0) * t - 3.0 * (n - 1.0) * p;
    assert ((n - 1.0) * f) * p == (n - 1.0) * (f * p);
    KurtosisForm(n - 1.0, n + 1.0, t, p);
  }

  lemma KurtosisForm(a: real, b: real, t: real, p: real)
    ensures a * (b * t - 3.0 * a * p) == a * b * t - 3.0 * (a * a) * p
  {
  }

  /** The excess kurtosis r, from the sums S2 and S4 of the squared deviations and their squares: for a
      population (r+3)*S2*S2 = n*S4, for a sample
      (n-2)*(n-3)*r*S2*S2 = (n-1)*(n+1)*n*S4 - 3*(n-1)*(n-1)*S2*S2; there is none exactly for constant
      data or too few values. */
  lemma KurtosisIs(xs: seq<real>, df: nat)
    requires xs != [] && df <= 1
    ensures var (n, r) := (|xs| as real, ExcessKurtosis(xs, df));
      var (s2, s4) := (PowerSum(Deviated(xs), 2), PowerSum(Deviated(xs), 4));
      && (r.None? <==> |xs| == 1 || s2 == 0.0 || (df == 1 && |xs| <= 3))
      && (r.Some? && df == 0 ==> (r.value + 3.0) * Times(s2, s2) == Times(n, s4))
      && (r.Some? && df == 1 ==>
          IsSampleKurtosis(r.value, n, Times((|xs| - 2) as real, (|xs| - 3) as real), Times(s2, s2), Times(n, s4)))
  {
    var (s2, s4) := (PowerSum(Deviated(xs), 2), PowerSum(Deviated(xs), 4));
    hide PowerSum, Deviated, KurtosisOf, IsSampleKurtosis, Times;
    if |xs| > 1 {
      KurtosisOfIs(s2, s4, |xs|, df);
    }
  }

  /** What the sample coefficient r satisfies, from n, d = (n-2)*(n-3), p = S2*S2 and t = n*S4. */
  predicate IsSampleKurtosis(r: real, n: real, d: real, p: real, t: real) {
    (d * r) * p == (n - 1.0) * (n + 1.0) * t - 3.0 * ((n - 1.0) * (n - 1.0)) * p
  }

  lemma KurtosisOfIs(s2: real, s4: real, m: nat, df: nat)
    requires m > 1 && df <= 1
    ensures var (n, r) := (m as real, KurtosisOf(Per(s2, m as real), Per(s4, m as real), m, df));
      && (r.None? <==> s2 == 0.0 || (df == 1 && m <= 3))
      && (r.Some? && df == 0 ==> (r.value + 3.0) * Times(s2, s2) == Times(n, s4))
      && (r.Some? && df == 1 ==>
          IsSampleKurtosis(r.value, n, Times((m - 2) as real, (m - 3) as real), Times(s2, s2), Times(n, s4)))
  {
    var n := m as real;
    PerZero(s2, n);
    if s2 != 0.0 {
      PopulationKurtosis(s2, s4, n);
      var q := Per(Per(s4, n), Squared(Per(s2, n)));
      TimesIs(q, Times(s2, s2));
      hide Times, Per, Squared, IsSampleKurtosis, Adjusted;
      if df == 1 && m > 3 {
        PositiveTimes((m - 2) as real, (m - 3) as real);
        SampleKurtosis(n, Times((m - 2) as real, (m - 3) as real), q - 3.0, Times(s2, s2), Times(n, s4));
      }
    }
    hide Times, Per, Squared, IsSampleKurtosis, Adjusted;
  }

  lemma TimesIs(x: real, y: real)
    ensures Times(x, y) == x * y
  {
  }
}
