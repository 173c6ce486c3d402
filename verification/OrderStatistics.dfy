/** Order statistics of src/utils.c over the reals: quantiles, mode, MAD and the trimmed mean. */
module OrderStatistics {
  import opened Text
  import Lists

  // --- Sorting (qsort with cmp_long_double) ------------------------------------------------

  predicate Sorted(xs: seq<real>) {
    forall i, j :: 0 <= i < j < |xs| ==> xs[i] <= xs[j]
  }

  function Insert(x: real, xs: seq<real>): (r: seq<real>)
    ensures |r| == |xs| + 1
  {
    if xs == [] || x <= xs[0] then [x] + xs else [xs[0]] + Insert(x, xs[1..])
  }

  /** What qsortfl leaves in the array. */
  function Sort(xs: seq<real>): (r: seq<real>)
    ensures |r| == |xs|
  {
    if xs == [] then [] else Insert(xs[0], Sort(xs[1..]))
  }

  lemma {:induction false} InsertContents(x: real, xs: seq<real>)
    ensures multiset(Insert(x, xs)) == multiset(xs) + multiset{x}
  {
    if xs != [] && x > xs[0] {
      InsertContents(x, xs[1..]);
      assert xs == [xs[0]] + xs[1..];
    }
  }

  lemma {:induction false} InsertSorted(x: real, xs: seq<real>)
    requires Sorted(xs)
    ensures Sorted(Insert(x, xs))
  {
    if xs != [] && x > xs[0] {
      InsertSorted(x, xs[1..]);
      InsertContents(x, xs[1..]);
      var r := Insert(x, xs[1..]);
      forall i | 0 <= i < |r| ensures xs[0] <= r[i] {
        assert r[i] in multiset(r);
        assert r[i] == x || r[i] in xs[1..];
      }
    }
  }

  lemma {:induction false} SortContents(xs: seq<real>)
    ensures multiset(Sort(xs)) == multiset(xs)
  {
    if xs != [] {
      SortContents(xs[1..]);
      InsertContents(xs[0], Sort(xs[1..]));
      assert xs == [xs[0]] + xs[1..];
    }
  }

  lemma {:induction false} SortSorts(xs: seq<real>)
    ensures Sorted(Sort(xs))
  {
    if xs != [] {
      SortSorts(xs[1..]);
      InsertSorted(xs[0], Sort(xs[1..]));
    }
  }

  /** qsort on the reals has no choice: two sorted arrangements of the same values are equal. */
  lemma {:induction false} SortedUnique(xs: seq<real>, ys: seq<real>)
    requires Sorted(xs) && Sorted(ys) && multiset(xs) == multiset(ys)
    ensures xs == ys
    decreases |xs|
  {
    assert |xs| == |multiset(xs)| == |multiset(ys)| == |ys|;
    if xs != [] {
      SameHead(xs, ys);
      TailContents(xs);
      TailContents(ys);
      SortedUnique(xs[1..], ys[1..]);
      assert xs == [xs[0]] + xs[1..] && ys == [ys[0]] + ys[1..];
    }
  }

  lemma TailContents(xs: seq<real>)
    requires xs != []
    ensures multiset(xs[1..]) == multiset(xs) - multiset{xs[0]}
  {
    assert xs == [xs[0]] + xs[1..];
  }

  lemma SameHead(xs: seq<real>, ys: seq<real>)
    requires Sorted(xs) && Sorted(ys) && multiset(xs) == multiset(ys)
    requires xs != [] && ys != []
    ensures xs[0] == ys[0]
  {
    assert xs[0] in multiset(ys) && ys[0] in multiset(xs);
    HeadLeast(xs, ys[0]);
    HeadLeast(ys, xs[0]);
  }

  lemma HeadLeast(xs: seq<real>, x: real)
    requires Sorted(xs) && x in multiset(xs)
    ensures xs[0] <= x
  {
    assert x in xs;
  }

  // --- Quantiles ---------------------------------------------------------------------------

  function Ceiling(x: real): int { -((-x).Floor) }

  function Median(xs: seq<real>): real
    requires |xs| > 0
  {
    var n := |xs|;
    if n % 2 == 1 then xs[n / 2] else (xs[n / 2 - 1] + xs[n / 2]) / 2.0
  }

  /** The position h between order statistics that quantile_value interpolates at. */
  function Position(n: nat, q: real): real
    requires n > 0
  {
    (n - 1) as real * q
  }

  lemma PositionBounds(n: nat, q: real)
    requires n > 0 && 0.0 <= q <= 1.0
    ensures 0.0 <= Position(n, q) <= (n - 1) as real
    ensures 0 <= Position(n, q).Floor <= Ceiling(Position(n, q)) <= Position(n, q).Floor + 1
    ensures Ceiling(Position(n, q)) <= n - 1
  {
    var m := (n - 1) as real;
    assert m * (1.0 - q) >= 0.0;
  }

  /** quantile_value; the source asserts the same range for its arguments. */
  function Quantile(xs: seq<real>, q: real): real
    requires |xs| > 0 && 0.0 <= q <= 1.0
  {
    if |xs| == 1 then xs[0] else
    PositionBounds(|xs|, q);
    var h := Position(|xs|, q);
    var (lo, hi) := (h.Floor, Ceiling(h));
    xs[lo] + (h - lo as real) * (xs[hi] - xs[lo])
  }

  /** Between two neighbouring order statistics the quantile is the line through them. */
  lemma QuantileInterpolates(xs: seq<real>, q: real, k: nat)
    requires 0.0 <= q <= 1.0 && k + 1 < |xs|
    requires k as real <= (|xs| - 1) as real * q <= (k + 1) as real
    ensures var w := (|xs| - 1) as real * q - k as real;
      Quantile(xs, q) == (1.0 - w) * xs[k] + w * xs[k + 1]
  {
    PositionBounds(|xs|, q);
    var h := Position(|xs|, q);
    assert h == (|xs| - 1) as real * q;
    if h == (k + 1) as real {
      assert Quantile(xs, q) == xs[k + 1];
    } else if h == k as real {
      assert Quantile(xs, q) == xs[k];
    } else {
      assert h.Floor == k && Ceiling(h) == k + 1;
    }
  }

  function Percentile(xs: seq<real>, p: real): real
    requires |xs| > 0 && 0.0 <= p <= 100.0
  {
    Quantile(xs, p / 100.0)
  }

  function Quartile1(xs: seq<real>): real
    requires |xs| > 0
  {
    Quantile(xs, 1.0 / 4.0)
  }

  function Quartile3(xs: seq<real>): real
    requires |xs| > 0
  {
    Quantile(xs, 3.0 / 4.0)
  }

  lemma Interpolation(a: real, b: real, w: real, w': real)
    requires a <= b && 0.0 <= w <= w' <= 1.0
    ensures a <= a + w * (b - a) <= a + w' * (b - a) <= b
  {
    assert w * (b - a) >= 0.0;
    assert (w' - w) * (b - a) >= 0.0;
    assert (1.0 - w') * (b - a) >= 0.0;
  }

  /** A quantile lies between its two neighbouring order statistics. */
  lemma QuantileBetween(xs: seq<real>, q: real)
    requires |xs| > 0 && Sorted(xs) && 0.0 <= q <= 1.0
    ensures var h := Position(|xs|, q);
      && 0 <= h.Floor <= Ceiling(h) < |xs|
      && xs[h.Floor] <= Quantile(xs, q) <= xs[Ceiling(h)]
  {
    PositionBounds(|xs|, q);
    var h := Position(|xs|, q);
    if |xs| > 1 {
      var a, b, w := xs[h.Floor], xs[Ceiling(h)], h - h.Floor as real;
      assert a <= b;
      Interpolation(a, b, w, w);
      assert Quantile(xs, q) == a + w * (b - a);
    }
  }

  /** A larger quantile is never a smaller value. */
  lemma QuantileMonotone(xs: seq<real>, q: real, q': real)
    requires |xs| > 0 && Sorted(xs) && 0.0 <= q <= q' <= 1.0
    ensures Quantile(xs, q) <= Quantile(xs, q')
  {
    var n := |xs|;
    if n > 1 {
      QuantileBetween(xs, q);
      QuantileBetween(xs, q');
      PositionMonotone(n, q, q');
      PositionBounds(n, q);
      PositionBounds(n, q');
      var h, h' := Position(n, q), Position(n, q');
      if h.Floor == h'.Floor {
        SameCell(xs, q, q');
      } else {
        assert Ceiling(h) <= h'.Floor;
      }
    }
  }

  lemma PositionMonotone(n: nat, q: real, q': real)
    requires n > 0 && q <= q'
    ensures Position(n, q) <= Position(n, q')
    ensures Position(n, q).Floor <= Position(n, q').Floor
  {
    assert (n - 1) as real * (q' - q) >= 0.0;
  }

  /** Monotonicity between two positions of the same cell of the interpolation. */
  lemma SameCell(xs: seq<real>, q: real, q': real)
    requires |xs| > 1 && Sorted(xs) && 0.0 <= q <= q' <= 1.0
    requires Position(|xs|, q).Floor == Position(|xs|, q').Floor
    ensures Quantile(xs, q) <= Quantile(xs, q')
  {
    var n := |xs|;
    PositionBounds(n, q);
    PositionBounds(n, q');
    PositionMonotone(n, q, q');
    var h, h' := Position(n, q), Position(n, q');
    var lo := h.Floor;
    if h' == lo as real {
      assert h == h';
    } else {
      assert Ceiling(h') == lo + 1;
      Interpolation(xs[lo], xs[lo + 1], h - lo as real, h' - lo as real);
    }
  }

  /** The extreme quantiles are the extreme values. */
  lemma QuantileEnds(xs: seq<real>)
    requires |xs| > 0
    ensures Quantile(xs, 0.0) == xs[0] && Quantile(xs, 1.0) == xs[|xs| - 1]
  {
    var n := |xs|;
    assert Position(n, 0.0) == 0.0;
    assert Position(n, 1.0) == (n - 1) as real;
  }

  /** The comment in median_value is right: the shortcut is the quantile at one half, for every n. */
  lemma MedianIsQuantile(xs: seq<real>)
    requires |xs| > 0
    ensures Median(xs) == Quantile(xs, 2.0 / 4.0)
  {
    var n := |xs|;
    if n > 1 {
      var k := n / 2;
      if n % 2 == 1 {
        assert n - 1 == 2 * k;
        assert Position(n, 2.0 / 4.0) == k as real;
      } else {
        assert n - 1 == 2 * (k - 1) + 1;
        assert Position(n, 2.0 / 4.0) == (k - 1) as real + 0.5;
        assert Position(n, 2.0 / 4.0).Floor == k - 1;
        assert Ceiling(Position(n, 2.0 / 4.0)) == k;
      }
    }
  }

  /** The named quantiles are ordered, so the interquartile range is never negative,
      and they are the 25th, 50th and 75th percentiles. */
  lemma QuartilesOrdered(xs: seq<real>)
    requires |xs| > 0 && Sorted(xs)
    ensures xs[0] <= Quartile1(xs) <= Median(xs) <= Quartile3(xs) <= xs[|xs| - 1]
    ensures Quartile3(xs) - Quartile1(xs) >= 0.0
    ensures Percentile(xs, 25.0) == Quartile1(xs)
    ensures Percentile(xs, 50.0) == Median(xs)
    ensures Percentile(xs, 75.0) == Quartile3(xs)
  {
    MedianIsQuantile(xs);
    QuantileEnds(xs);
    hide Quantile;
    QuantileMonotone(xs, 0.0, 1.0 / 4.0);
    QuantileMonotone(xs, 1.0 / 4.0, 2.0 / 4.0);
    QuantileMonotone(xs, 2.0 / 4.0, 3.0 / 4.0);
    QuantileMonotone(xs, 3.0 / 4.0, 1.0);
    assert 25.0 / 100.0 == 1.0 / 4.0 && 50.0 / 100.0 == 2.0 / 4.0 && 75.0 / 100.0 == 3.0 / 4.0;
  }

  // --- Mode and antimode -------------------------------------------------------------------

  datatype ModeType = MODE | ANTIMODE

  /** How often v occurs among the first n values. */
  function Mult(xs: seq<real>, v: real, n: nat): nat
    requires n <= |xs|
  {
    if n == 0 then 0 else Mult(xs, v, n - 1) + (if xs[n - 1] == v then 1 else 0)
  }

  lemma MultIsMultiplicity(xs: seq<real>, v: real, n: nat)
    requires n <= |xs|
    ensures Mult(xs, v, n) == multiset(xs[..n])[v]
  {
    if n > 0 {
      assert xs[..n] == xs[..n - 1] + [xs[n - 1]];
      MultIsMultiplicity(xs, v, n - 1);
    }
  }

  lemma MultRun(xs: seq<real>, v: real, c: nat, n: nat)
    requires c <= n <= |xs|
    requires forall k :: c <= k < n ==> xs[k] == xs[c]
    ensures Mult(xs, v, n) == Mult(xs, v, c) + if c < n && xs[c] == v then n - c else 0
  {
    if c < n {
      MultRun(xs, v, c, n - 1);
    }
  }

  lemma MultAbsent(xs: seq<real>, v: real, n: nat)
    requires n <= |xs|
    requires forall k :: 0 <= k < n ==> xs[k] != v
    ensures Mult(xs, v, n) == 0
  {
  }

  /** A value of multiplicity m beats one of multiplicity m'; the smaller value wins a tie. */
  predicate Beats(kind: ModeType, m: nat, v: real, m': nat, v': real) {
    match kind
    case MODE => m' < m || (m' == m && v <= v')
    case ANTIMODE => m < m' || (m' == m && v <= v')
  }

  /** v beats every one of the first n values. */
  ghost predicate Wins(kind: ModeType, xs: seq<real>, n: nat, v: real)
    requires n <= |xs|
  {
    && (exists k :: 0 <= k < n && xs[k] == v)
    && forall k :: 0 <= k < n ==> Beats(kind, Mult(xs, v, n), v, Mult(xs, xs[k], n), xs[k])
  }

  /** The best run so far, once the first n values are made of finished runs. */
  ghost predicate BestOf(kind: ModeType, xs: seq<real>, n: nat, bestSize: nat, best: real)
    requires n <= |xs|
  {
    if n == 0 then |xs| > 0 && best == xs[0] && bestSize == (if kind == MODE then 1 else SIZE_MAX)
    else Wins(kind, xs, n, best) && bestSize == Mult(xs, best, n)
  }

  /** The run of equal values from c up to n is the current one. */
  ghost predicate CurrentRun(xs: seq<real>, c: nat, n: nat) {
    && c < n <= |xs| && Sorted(xs)
    && (forall k :: c <= k < n ==> xs[k] == xs[c])
    && (forall k :: 0 <= k < c ==> xs[k] < xs[c])
  }

  function BetterSize(kind: ModeType, size: nat, bestSize: nat): bool {
    (kind == MODE && size > bestSize) || (kind == ANTIMODE && size < bestSize)
  }

  /** Finishing a run keeps the best one best: what update_best_seq does. */
  lemma FinishRun(kind: ModeType, xs: seq<real>, c: nat, n: nat, bestSize: nat, best: real)
    requires CurrentRun(xs, c, n) && |xs| < SIZE_MAX
    requires BestOf(kind, xs, c, bestSize, best)
    ensures if BetterSize(kind, n - c, bestSize) then BestOf(kind, xs, n, n - c, xs[c])
            else BestOf(kind, xs, n, bestSize, best)
  {
    MultAbsent(xs, xs[c], c);
    MultRun(xs, xs[c], c, n);
    MultRun(xs, best, c, n);
    forall k | 0 <= k < c ensures Mult(xs, xs[k], n) == Mult(xs, xs[k], c) {
      MultRun(xs, xs[k], c, n);
    }
    hide Mult;
    if BetterSize(kind, n - c, bestSize) {
      assert Wins(kind, xs, n, xs[c]);
    } else if c > 0 {
      assert Wins(kind, xs, n, best);
    }
  }

  /** mode_value on sorted values: the smallest value of greatest (or least) multiplicity. */
  method ModeValue(xs: seq<real>, kind: ModeType) returns (best: real)
    requires 0 < |xs| < SIZE_MAX && Sorted(xs)
    ensures best in xs
    ensures forall v :: v in xs ==> Beats(kind, multiset(xs)[best], best, multiset(xs)[v], v)
  {
    hide Wins, Mult;
    var last, seqSize := xs[0], 1;
    var bestSize: nat := if kind == MODE then 1 else SIZE_MAX;
    best := xs[0];
    var i := 1;
    while i < |xs|
      invariant 0 < i <= |xs| && 0 < seqSize <= i && last == xs[i - 1]
      invariant CurrentRun(xs, i - seqSize, i)
      invariant BestOf(kind, xs, i - seqSize, bestSize, best)
    {
      if xs[i] == last {
        seqSize := seqSize + 1;
      } else {
        bestSize, best := UpdateBestSeq(kind, seqSize, last, bestSize, best, xs, i);
        seqSize := 1;
      }
      last := xs[i];
      i := i + 1;
    }
    bestSize, best := UpdateBestSeq(kind, seqSize, last, bestSize, best, xs, i);
    WinnerByMultiset(kind, xs, best);
  }

  /** update_best_seq: the best of the runs so far, one more run of values being finished. */
  method UpdateBestSeq(kind: ModeType, size: nat, last: real, bestSize: nat, best: real, ghost xs: seq<real>, ghost n: nat)
    returns (bestSize': nat, best': real)
    requires 0 < size <= n <= |xs| < SIZE_MAX && last == xs[n - 1] && CurrentRun(xs, n - size, n)
    requires BestOf(kind, xs, n - size, bestSize, best)
    ensures BestOf(kind, xs, n, bestSize', best')
  {
    FinishRun(kind, xs, n - size, n, bestSize, best);
    hide BestOf;
    bestSize', best' := bestSize, best;
    if (kind == MODE && size > bestSize) || (kind == ANTIMODE && size < bestSize) {
      bestSize', best' := size, last;
    }
  }

  lemma WinnerByMultiset(kind: ModeType, xs: seq<real>, v: real)
    requires Wins(kind, xs, |xs|, v)
    ensures v in xs
    ensures forall w :: w in xs ==> Beats(kind, multiset(xs)[v], v, multiset(xs)[w], w)
  {
    assert xs[..|xs|] == xs;
    MultIsMultiplicity(xs, v, |xs|);
    forall w | w in xs ensures Beats(kind, multiset(xs)[v], v, multiset(xs)[w], w) {
      MultIsMultiplicity(xs, w, |xs|);
    }
  }

  /** Only one value can win, so ModeValue computes a function of the multiset of values. */
  lemma ModeUnique(kind: ModeType, xs: seq<real>, v: real, v': real)
    requires v in xs && v' in xs
    requires forall w :: w in xs ==> Beats(kind, multiset(xs)[v], v, multiset(xs)[w], w)
    requires forall w :: w in xs ==> Beats(kind, multiset(xs)[v'], v', multiset(xs)[w], w)
    ensures v == v'
  {
    assert Beats(kind, multiset(xs)[v], v, multiset(xs)[v'], v');
  }

  // --- Median absolute deviation -----------------------------------------------------------

  function Abs(x: real): real { if x < 0.0 then -x else x }

  function Deviations(xs: seq<real>, m: real): (ds: seq<real>)
    ensures |ds| == |xs|
    ensures forall i :: 0 <= i < |xs| ==> ds[i] == Abs(m - xs[i])
  {
    if xs == [] then [] else [Abs(m - xs[0])] + Deviations(xs[1..], m)
  }

  /** The deviations of values in another order are the same, in another order. */
  lemma DeviationsContents(xs: seq<real>, ys: seq<real>, m: real)
    requires multiset(xs) == multiset(ys)
    ensures multiset(Deviations(xs, m)) == multiset(Deviations(ys, m))
  {
    var f := x => Abs(m - x);
    Lists.MapContents(f, xs, ys);
    hide Deviations, Abs;
    assert Deviations(xs, m) == Lists.Map(f, xs) && Deviations(ys, m) == Lists.Map(f, ys);
  }

  /** mad_value over sorted values. */
  function Mad(xs: seq<real>, scale: real): real
    requires |xs| > 0
  {
    Median(Sort(Deviations(xs, Median(xs)))) * scale
  }

  /** mad_value: the loop fills a second array, sorts it and takes its median. */
  method MadValue(xs: seq<real>, scale: real) returns (mad: real)
    requires |xs| > 0
    ensures mad == Mad(xs, scale)
  {
    hide Sort, Median, Deviations;
    var median := Median(xs);
    var mads := Fill(xs, median);
    mad := Median(Sort(mads)) * scale;
  }

  method Fill(xs: seq<real>, median: real) returns (ds: seq<real>)
    ensures ds == Deviations(xs, median)
  {
    hide Deviations;
    var mads := new real[|xs|];
    var i := 0;
    while i < |xs|
      invariant 0 <= i <= |xs|
      invariant forall k :: 0 <= k < i ==> mads[k] == Abs(median - xs[k])
    {
      mads[i] := Abs(median - xs[i]);
      i := i + 1;
    }
    ds := mads[..];
  }

  function CountAtMost(xs: seq<real>, bound: real): nat {
    if xs == [] then 0 else (if xs[0] <= bound then 1 else 0) + CountAtMost(xs[1..], bound)
  }

  /** How many of the values lie within r of m. */
  function CountWithin(xs: seq<real>, m: real, r: real): nat {
    if xs == [] then 0 else (if Abs(m - xs[0]) <= r then 1 else 0) + CountWithin(xs[1..], m, r)
  }

  lemma CountDeviations(xs: seq<real>, m: real, r: real)
    ensures CountAtMost(Deviations(xs, m), r) == CountWithin(xs, m, r)
  {
  }

  lemma CountInsert(x: real, xs: seq<real>, bound: real)
    ensures CountAtMost(Insert(x, xs), bound) == CountAtMost(xs, bound) + if x <= bound then 1 else 0
  {
  }

  lemma {:induction false} CountSort(xs: seq<real>, bound: real)
    ensures CountAtMost(Sort(xs), bound) == CountAtMost(xs, bound)
  {
    if xs != [] {
      CountInsert(xs[0], Sort(xs[1..]), bound);
      CountSort(xs[1..], bound);
    }
  }

  lemma {:induction false} CountSortedPrefix(xs: seq<real>, k: nat, bound: real)
    requires k <= |xs| && forall i :: 0 <= i < k ==> xs[i] <= bound
    ensures CountAtMost(xs, bound) >= k
  {
    if k > 0 {
      CountSortedPrefix(xs[1..], k - 1, bound);
    }
  }

  /** At least half of sorted values are at most their median. */
  lemma HalfAtMostMedian(ys: seq<real>)
    requires |ys| > 0 && Sorted(ys)
    ensures 2 * CountAtMost(ys, Median(ys)) >= |ys|
  {
    var k := (|ys| + 1) / 2;
    assert forall i :: 0 <= i < k ==> ys[i] <= ys[k - 1];
    assert ys[k - 1] <= Median(ys);
    hide CountAtMost, Median;
    CountSortedPrefix(ys, k, Median(ys));
  }

  /** At least half of the values, rounded up, lie within the raw MAD of the median. */
  lemma HalfWithinMad(xs: seq<real>)
    requires |xs| > 0
    ensures 2 * CountWithin(xs, Median(xs), Mad(xs, 1.0)) >= |xs|
  {
    var ds := Deviations(xs, Median(xs));
    SortSorts(ds);
    var r := Median(Sort(ds));
    assert Mad(xs, 1.0) == r * 1.0 == r;
    hide *;
    CountDeviations(xs, Median(xs), r);
    CountSort(ds, r);
    HalfAtMostMedian(Sort(ds));
  }

  // --- Trimmed mean ------------------------------------------------------------------------

  function SumOf(xs: seq<real>): real {
    if xs == [] then 0.0 else SumOf(xs[..|xs| - 1]) + xs[|xs| - 1]
  }

  /** How many values trimmed_mean_value drops at each end. */
  function Trimmed(n: nat, p: real): int { (p * n as real).Floor }

  lemma TrimmedBounds(n: nat, p: real)
    requires 0.0 <= p < 0.5 && n > 0
    ensures 0 <= Trimmed(n, p) && n - 2 * Trimmed(n, p) > 0
  {
    var x := p * n as real;
    HalfOf(n as real, p);
    assert 0.0 <= x < 0.5 * n as real;
    assert x.Floor as real <= x;
    assert (2 * x.Floor) as real < n as real;
  }

  lemma HalfOf(n: real, p: real)
    requires 0.0 <= p < 0.5 && n > 0.0
    ensures 0.0 <= p * n < 0.5 * n
  {
  }

  /** trimmed_mean_value over sorted values; the source asserts the same range for p. */
  function TrimmedMean(xs: seq<real>, p: real): real
    requires |xs| > 0 && 0.0 <= p <= 0.5
  {
    if p >= 0.5 then Median(xs) else
    TrimmedBounds(|xs|, p);
    var c := Trimmed(|xs|, p);
    SumOf(xs[c..|xs| - c]) / (|xs| - 2 * c) as real
  }

  method TrimmedMeanValue(xs: seq<real>, p: real) returns (mean: real)
    requires |xs| > 0 && 0.0 <= p <= 0.5
    ensures mean == TrimmedMean(xs, p)
  {
    if p >= 0.5 {
      return Median(xs);
    }
    TrimmedBounds(|xs|, p);
    var c := (p * |xs| as real).Floor;
    var v := 0.0;
    var i := c;
    while i < |xs| - c
      invariant c <= i <= |xs| - c
      invariant v == SumOf(xs[c..i])
    {
      assert xs[c..i + 1][..i - c] == xs[c..i];
      v := v + xs[i];
      i := i + 1;
    }
    mean := v / (|xs| - c * 2) as real;
  }

  lemma {:induction false} SumBounds(xs: seq<real>, lo: real, hi: real)
    requires forall i :: 0 <= i < |xs| ==> lo <= xs[i] <= hi
    ensures |xs| as real * lo <= SumOf(xs) <= |xs| as real * hi
  {
    if xs != [] {
      SumBounds(xs[..|xs| - 1], lo, hi);
    }
  }

  /** The trimmed mean never divides by zero and lies between the outermost values it keeps. */
  lemma TrimmedMeanBetween(xs: seq<real>, p: real)
    requires |xs| > 0 && Sorted(xs) && 0.0 <= p < 0.5
    ensures var c := Trimmed(|xs|, p);
      && 0 <= c < |xs| - c
      && xs[c] <= TrimmedMean(xs, p) <= xs[|xs| - c - 1]
  {
    hide *;
    TrimmedBounds(|xs|, p);
    TrimmedMeanIs(xs, p);
    KeptBetween(xs, Trimmed(|xs|, p));
  }

  lemma TrimmedMeanIs(xs: seq<real>, p: real)
    requires |xs| > 0 && 0.0 <= p < 0.5
    requires 0 <= Trimmed(|xs|, p) && |xs| - 2 * Trimmed(|xs|, p) > 0
    ensures var c := Trimmed(|xs|, p); TrimmedMean(xs, p) == SumOf(xs[c..|xs| - c]) / (|xs| - 2 * c) as real
  {
    hide SumOf, Trimmed, Median;
  }

  lemma KeptBetween(xs: seq<real>, c: nat)
    requires Sorted(xs) && |xs| - 2 * c > 0
    ensures xs[c] <= SumOf(xs[c..|xs| - c]) / (|xs| - 2 * c) as real <= xs[|xs| - c - 1]
  {
    var kept := xs[c..|xs| - c];
    hide SumOf;
    SumBounds(kept, xs[c], xs[|xs| - c - 1]);
    MeanBetween(SumOf(kept), |kept| as real, xs[c], xs[|xs| - c - 1]);
  }

  lemma MeanBetween(sum: real, n: real, lo: real, hi: real)
    requires n > 0.0 && n * lo <= sum <= n * hi
    ensures lo <= sum / n <= hi
  {
    assert (sum / n) * n == sum;
    assert (sum / n - lo) * n >= 0.0 && (hi - sum / n) * n >= 0.0;
  }
}
