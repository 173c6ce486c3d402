/** The field operations of src/field-ops.c: what an accumulator collects and what it reports. */
module FieldOps {
  import opened Text
  import TextLines
  import StringVector
  import Moments
  import Order = OrderStatistics

  datatype Op =
    | Count | Sum | Mean | MeanSquare
    | Min | Max | AbsMin | AbsMax | Range
    | First | Last
    | Median | Quartile1 | Quartile3 | Iqr | Percentile(p: real) | MadRaw | TrimmedMean(trim: real)
    | PVariance | SVariance
    | Unique | CountUnique | Collapse
    | PCovariance | SCovariance | DotProduct
  {
    /** The operation reads numbers, not text. */
    predicate Numeric() {
      !Count? && !First? && !Last? && !StringVector()
    }

    /** The first number of a group replaces the initial value. */
    predicate AutoFirst() {
      Min? || Max? || AbsMin? || AbsMax?
    }

    predicate StringVector() {
      Unique? || CountUnique? || Collapse?
    }

    /** OP_NEED_PAIR_PARAMS. */
    predicate Pair() {
      PCovariance? || SCovariance? || DotProduct?
    }

    predicate NumericVector() {
      Median? || Quartile1? || Quartile3? || Iqr? || Percentile? || MadRaw? || TrimmedMean?
        || PVariance? || SVariance? || Pair()
    }

    /** The parameter ranges set_op_params enforces. */
    predicate Valid() {
      && (Percentile? ==> 0.0 <= p <= 100.0)
      && (TrimmedMean? ==> 0.0 <= trim <= 0.5)
    }
  }

  /** The text options an operation looks at; parse is strtold on a whole non-empty field. */
  datatype Env = Env(parse: string -> Option<real>, narm: bool, caseSensitive: bool, separator: char)

  /** What an operation prints: a number, one of the special values, or text. */
  datatype Cell = Num(value: real) | NaN | NegInf | PosInf | Str(text: string)

  // --- Reading one field -------------------------------------------------------------------

  predicate IsNa(t: string) {
    var l := LowerAll(t);
    l == "na" || l == "n/a" || l == "nan"
  }

  predicate Skips(env: Env, t: string) { env.narm && IsNa(t) }

  function Number(env: Env, t: string): Option<real> {
    if t == "" then None else env.parse(t)
  }

  function NumberOf(env: Env, t: string): real {
    match Number(env, t)
    case Some(x) => x
    case None => 0.0
  }

  /** field_op_collect does not fail on this text. */
  predicate Accepts(env: Env, op: Op, t: string) {
    Skips(env, t) || !op.Numeric() || Number(env, t).Some?
  }

  /** The number the operation works with; text operations leave it at zero. */
  function Input(env: Env, op: Op, t: string): real {
    if op.Numeric() then NumberOf(env, t) else 0.0
  }

  // --- The accumulator ---------------------------------------------------------------------

  /** The live part of a struct fieldop: values[0..num_values) and str_buf[0..str_buf_used). */
  datatype Acc = Acc(first: bool, count: nat, value: real, values: seq<real>, bytes: string)

  const EMPTY: Acc := Acc(true, 0, 0.0, [], "")

  predicate RangeReady(op: Op, a: Acc) {
    op.Range? ==> if a.first then a.values == [] else |a.values| == 2
  }

  function Start(op: Op, a: Acc, x: real): real {
    if a.first && op.AutoFirst() then x else a.value
  }

  function NextValue(op: Op, v: real, x: real): real {
    match op
    case Sum => v + x
    case Mean => v + x
    case MeanSquare => v + x * x
    case Count => v + 1.0
    case Min => if x < v then x else v
    case Max => if x > v then x else v
    case AbsMin => if Order.Abs(x) < Order.Abs(v) then x else v
    case AbsMax => if Order.Abs(x) > Order.Abs(v) then x else v
    case _ => v
  }

  function NextValues(op: Op, a: Acc, x: real): seq<real>
    requires RangeReady(op, a)
  {
    if op.Range? then
      if a.first then a.values + [x, x]
      else [if x < a.values[0] then x else a.values[0], if x > a.values[1] then x else a.values[1]]
    else if op.NumericVector() then a.values + [x]
    else a.values
  }

  function NextBytes(op: Op, a: Acc, t: string): string {
    if op.First? then (if a.first then t + [NUL] else a.bytes)
    else if op.Last? then t + [NUL]
    else if op.StringVector() then a.bytes + t + [NUL]
    else a.bytes
  }

  /** The accumulator after one more field that is not skipped. */
  function Store(op: Op, a: Acc, x: real, t: string): Acc
    requires RangeReady(op, a)
  {
    Acc(false, a.count + 1, NextValue(op, Start(op, a, x), x), NextValues(op, a, x), NextBytes(op, a, t))
  }

  /** The line that brought this field should represent its group (FLOCR_OK_KEEP_LINE). */
  predicate Keeps(op: Op, first: bool, v: real, x: real) {
    match op
    case Min => x < v
    case Max => x > v
    case AbsMin => Order.Abs(x) < Order.Abs(v)
    case AbsMax => Order.Abs(x) > Order.Abs(v)
    case First => first
    case Last => true
    case _ => false
  }

  /** The accumulator after a group's fields, from a reset one. */
  function Fold(env: Env, op: Op, ts: seq<string>): (a: Acc)
    ensures RangeReady(op, a)
  {
    if ts == [] then EMPTY else
    var n := |ts| - 1;
    var a := Fold(env, op, ts[..n]);
    if Skips(env, ts[n]) then a else Store(op, a, Input(env, op, ts[n]), ts[n])
  }

  // --- The batch meaning of an operation ---------------------------------------------------

  /** The fields that count: all of them, or without --narm's NA values. */
  function Kept(env: Env, ts: seq<string>): seq<string> {
    if ts == [] then [] else
    var n := |ts| - 1;
    Kept(env, ts[..n]) + if Skips(env, ts[n]) then [] else [ts[n]]
  }

  function Inputs(env: Env, op: Op, ss: seq<string>): (xs: seq<real>)
    ensures |xs| == |ss|
    ensures forall i :: 0 <= i < |ss| ==> xs[i] == Input(env, op, ss[i])
  {
    seq(|ss|, i requires 0 <= i < |ss| => Input(env, op, ss[i]))
  }

  /** The texts --narm takes for missing values. */
  lemma NaTexts(t: string)
    ensures IsNa(t) <==>
      t in {"NA", "Na", "nA", "na", "N/A", "N/a", "n/A", "n/a",
            "NAN", "NAn", "NaN", "Nan", "nAN", "nAn", "naN", "nan"}
  {
    var l := LowerAll(t);
    if |t| == 2 {
      assert t == [t[0], t[1]] && l == [Lower(t[0]), Lower(t[1])];
    } else if |t| == 3 {
      assert t == [t[0], t[1], t[2]] && l == [Lower(t[0]), Lower(t[1]), Lower(t[2])];
    }
  }

  /** All fields count, in order, but missing values under --narm. */
  lemma {:induction false} KeptSays(env: Env, before: seq<string>, t: string, after: seq<string>)
    ensures Kept(env, before + [t] + after)
         == Kept(env, before) + (if env.narm && IsNa(t) then [] else [t]) + Kept(env, after)
  {
    hide IsNa;
    var all := before + [t] + after;
    if after == [] {
      assert all[..|all| - 1] == before;
    } else {
      assert all[..|all| - 1] == before + [t] + after[..|after| - 1];
      KeptSays(env, before, t, after[..|after| - 1]);
    }
  }

  /** Operations on text take any field; the others a missing value under --narm, or a number. */
  lemma AcceptsSays(env: Env, op: Op, t: string)
    ensures Accepts(env, op, t) <==>
      || (op.Count? || op.First? || op.Last? || op.Unique? || op.CountUnique? || op.Collapse?)
      || (env.narm && IsNa(t))
      || (t != "" && env.parse(t).Some?)
  {
  }

  /** The first of the values whose magnitude is least. */
  ghost predicate IsAbsLeast(xs: seq<real>, v: real) {
    exists i :: 0 <= i < |xs| && xs[i] == v
      && (forall j :: 0 <= j < |xs| ==> Order.Abs(v) <= Order.Abs(xs[j]))
      && (forall j :: 0 <= j < i ==> Order.Abs(v) < Order.Abs(xs[j]))
  }

  ghost predicate IsAbsGreatest(xs: seq<real>, v: real) {
    exists i :: 0 <= i < |xs| && xs[i] == v
      && (forall j :: 0 <= j < |xs| ==> Order.Abs(v) >= Order.Abs(xs[j]))
      && (forall j :: 0 <= j < i ==> Order.Abs(v) > Order.Abs(xs[j]))
  }

  ghost predicate IsLeast(xs: seq<real>, v: real) {
    v in xs && forall x :: x in xs ==> v <= x
  }

  ghost predicate IsGreatest(xs: seq<real>, v: real) {
    v in xs && forall x :: x in xs ==> x <= v
  }

  /** What the accumulator holds, said in terms of all the fields of the group at once. */
  ghost predicate Means(op: Op, a: Acc, ss: seq<string>, xs: seq<real>) {
    && a.count == |ss| && (a.first <==> ss == [])
    && ValueMeans(op, a.value, ss, xs)
    && (op.NumericVector() ==> a.values == xs)
    && (op.Range? && xs != [] ==> |a.values| == 2 && IsLeast(xs, a.values[0]) && IsGreatest(xs, a.values[1]))
    && (op.Range? && xs == [] ==> a.values == [])
    && (op.StringVector() ==> a.bytes == StringVector.Pack(ss))
    && (op.First? && ss != [] ==> a.bytes == ss[0] + [NUL])
    && (op.Last? && ss != [] ==> a.bytes == ss[|ss| - 1] + [NUL])
  }

  ghost predicate ValueMeans(op: Op, v: real, ss: seq<string>, xs: seq<real>) {
    && (op.Count? ==> v == |ss| as real)
    && (op.Sum? || op.Mean? ==> v == Order.SumOf(xs))
    && (op.MeanSquare? ==> v == Moments.PowerSum(xs, 2))
    && (op.Min? && xs != [] ==> IsLeast(xs, v))
    && (op.Max? && xs != [] ==> IsGreatest(xs, v))
    && (op.AbsMin? && xs != [] ==> IsAbsLeast(xs, v))
    && (op.AbsMax? && xs != [] ==> IsAbsGreatest(xs, v))
  }

  lemma ValueMeansInit(op: Op)
    ensures ValueMeans(op, 0.0, [], [])
  {
  }

  /** One more value keeps the running value right. */
  lemma ValueMeansStep(op: Op, v: real, ss: seq<string>, xs: seq<real>, t: string, x: real)
    requires |ss| == |xs| && ValueMeans(op, v, ss, xs)
    ensures ValueMeans(op, NextValue(op, if ss == [] && op.AutoFirst() then x else v, x), ss + [t], xs + [x])
  {
    var xs' := xs + [x];
    assert xs'[..|xs|] == xs && xs'[|xs|] == x;
    if op.AbsMin? || op.AbsMax? {
      AbsStep(op, v, xs, x);
    } else if op.Min? || op.Max? {
      ExtremeStep(op, v, xs, x);
    } else {
      Moments.Powers(x);
    }
  }

  lemma ExtremeStep(op: Op, v: real, xs: seq<real>, x: real)
    requires op.Min? || op.Max?
    requires xs != [] ==> if op.Min? then IsLeast(xs, v) else IsGreatest(xs, v)
    ensures var w := NextValue(op, if xs == [] then x else v, x);
      if op.Min? then IsLeast(xs + [x], w) else IsGreatest(xs + [x], w)
  {
  }

  lemma AbsStep(op: Op, v: real, xs: seq<real>, x: real)
    requires op.AbsMin? || op.AbsMax?
    requires xs != [] ==> if op.AbsMin? then IsAbsLeast(xs, v) else IsAbsGreatest(xs, v)
    ensures var w := NextValue(op, if xs == [] then x else v, x);
      if op.AbsMin? then IsAbsLeast(xs + [x], w) else IsAbsGreatest(xs + [x], w)
  {
    var xs' := xs + [x];
    var w := NextValue(op, if xs == [] then x else v, x);
    if xs == [] || w != v {
      assert xs'[|xs|] == w;
    } else if op.AbsMin? {
      var i :| 0 <= i < |xs| && xs[i] == v
        && (forall j :: 0 <= j < |xs| ==> Order.Abs(v) <= Order.Abs(xs[j]))
        && (forall j :: 0 <= j < i ==> Order.Abs(v) < Order.Abs(xs[j]));
      assert xs'[i] == v;
    } else {
      var i :| 0 <= i < |xs| && xs[i] == v
        && (forall j :: 0 <= j < |xs| ==> Order.Abs(v) >= Order.Abs(xs[j]))
        && (forall j :: 0 <= j < i ==> Order.Abs(v) > Order.Abs(xs[j]));
      assert xs'[i] == v;
    }
  }

  lemma MeansStep(op: Op, a: Acc, ss: seq<string>, xs: seq<real>, t: string, x: real)
    requires |ss| == |xs| && Means(op, a, ss, xs)
    ensures Means(op, Store(op, a, x, t), ss + [t], xs + [x])
  {
    ValueMeansStep(op, a.value, ss, xs, t, x);
    hide ValueMeans, NextValue, StringVector.Pack, IsLeast, IsGreatest;
    StringVector.PackSnoc(ss, t);
    if op.Range? {
      RangeStep(op, a, xs, x);
    }
  }

  lemma RangeStep(op: Op, a: Acc, xs: seq<real>, x: real)
    requires op.Range? && (a.first <==> xs == [])
    requires if xs == [] then a.values == []
             else |a.values| == 2 && IsLeast(xs, a.values[0]) && IsGreatest(xs, a.values[1])
    ensures var vs := NextValues(op, a, x);
      |vs| == 2 && IsLeast(xs + [x], vs[0]) && IsGreatest(xs + [x], vs[1])
  {
  }

  lemma InputsSnoc(env: Env, op: Op, ss: seq<string>, t: string)
    ensures Inputs(env, op, ss + [t]) == Inputs(env, op, ss) + [Input(env, op, t)]
  {
  }

  /** Whatever was collected before the reset, the accumulator means exactly the group's fields. */
  lemma {:induction false} FoldMeaning(env: Env, op: Op, ts: seq<string>)
    ensures Means(op, Fold(env, op, ts), Kept(env, ts), Inputs(env, op, Kept(env, ts)))
  {
    if ts == [] {
      FoldMeaningEmpty(env, op);
    } else {
      var n := |ts| - 1;
      FoldMeaning(env, op, ts[..n]);
      FoldUnfold(env, op, ts);
      hide *;
      FoldMeaningStep(env, op, Fold(env, op, ts[..n]), Kept(env, ts[..n]), ts[n]);
    }
  }

  lemma FoldMeaningEmpty(env: Env, op: Op)
    ensures Means(op, EMPTY, [], Inputs(env, op, []))
  {
    ValueMeansInit(op);
    assert Inputs(env, op, []) == [];
    hide ValueMeans;
  }

  lemma FoldUnfold(env: Env, op: Op, ts: seq<string>)
    requires ts != []
    ensures var n := |ts| - 1;
      var (a, ss, t) := (Fold(env, op, ts[..n]), Kept(env, ts[..n]), ts[n]);
      && RangeReady(op, a)
      && Fold(env, op, ts) == (if Skips(env, t) then a else Store(op, a, Input(env, op, t), t))
      && Kept(env, ts) == if Skips(env, t) then ss else ss + [t]
  {
  }

  lemma FoldMeaningStep(env: Env, op: Op, a: Acc, ss: seq<string>, t: string)
    requires Means(op, a, ss, Inputs(env, op, ss)) && RangeReady(op, a)
    ensures Means(op, Store(op, a, Input(env, op, t), t), ss + [t], Inputs(env, op, ss + [t]))
  {
    InputsSnoc(env, op, ss, t);
    MeansStep(op, a, ss, Inputs(env, op, ss), t, Input(env, op, t));
  }

  // --- Reporting ---------------------------------------------------------------------------

  /** field_op_summarize_empty: no value was collected. */
  function EmptyCell(op: Op): Cell {
    match op
    case Count => Num(0.0)
    case Sum => Num(0.0)
    case CountUnique => Num(0.0)
    case Min => NegInf
    case AbsMin => NegInf
    case Max => PosInf
    case AbsMax => PosInf
    case First => Str("N/A")
    case Last => Str("N/A")
    case Unique => Str("")
    case Collapse => Str("")
    case _ => NaN
  }

  function MaybeNum(x: Option<real>): Cell {
    match x
    case Some(v) => Num(v)
    case None => NaN
  }

  /** The statistic of sorted values that the order operations print. */
  function OrderCell(op: Op, xs: seq<real>): Cell
    requires op.Valid() && xs != []
  {
    match op
    case Median => Num(Order.Median(xs))
    case Quartile1 => Num(Order.Quartile1(xs))
    case Quartile3 => Num(Order.Quartile3(xs))
    case Iqr => Num(Order.Quartile3(xs) - Order.Quartile1(xs))
    case Percentile(p) => Num(Order.Percentile(xs, p))
    case MadRaw => Num(Order.Mad(xs, 1.0))
    case TrimmedMean(p) => Num(Order.TrimmedMean(xs, p))
    case _ => NaN
  }

  predicate IsOrderOp(op: Op) {
    op.Median? || op.Quartile1? || op.Quartile3? || op.Iqr? || op.Percentile? || op.MadRaw? || op.TrimmedMean?
  }

  /** The statistics of the values in input order; ys are the subordinate's values.
      None: the two columns of a pair have different numbers of values, a fatal error. */
  function MomentCell(op: Op, xs: seq<real>, ys: seq<real>): Option<Cell>
    requires xs != []
  {
    match op
    case PVariance => Some(MaybeNum(Moments.Variance(xs, 0)))
    case SVariance => Some(MaybeNum(Moments.Variance(xs, 1)))
    case PCovariance => if |xs| != |ys| then None else Some(MaybeNum(Moments.Covariance(xs, ys, 0)))
    case SCovariance => if |xs| != |ys| then None else Some(MaybeNum(Moments.Covariance(xs, ys, 1)))
    case DotProduct => if |xs| != |ys| then None else Some(Num(Moments.Dot(xs, ys)))
    case _ => Some(NaN)
  }

  /** The batch meaning of an operation over a group: ss are the fields that count, xs their
      numbers and ys the numbers of the other column of a pair. */
  ghost predicate IsStatistic(env: Env, op: Op, ss: seq<string>, xs: seq<real>, ys: seq<real>, r: Option<Cell>)
    requires op.Valid() && |xs| == |ss|
  {
    if ss == [] then r == Some(match op
      case Count | Sum | CountUnique => Num(0.0)
      case Min | AbsMin => NegInf
      case Max | AbsMax => PosInf
      case First | Last => Str("N/A")
      case Unique | Collapse => Str("")
      case Mean | MeanSquare | Range => NaN
      case Median | Quartile1 | Quartile3 | Iqr | Percentile(_) | MadRaw | TrimmedMean(_) => NaN
      case PVariance | SVariance | PCovariance | SCovariance | DotProduct => NaN)
    else if IsOrderOp(op) then IsOrderStatistic(op, xs, r)
    else if op.NumericVector() then IsMoment(op, xs, ys, r)
    else match op
      case Count => r == Some(Num(|ss| as real))
      case Sum => r == Some(Num(Order.SumOf(xs)))
      case Mean => r == Some(Num(Order.SumOf(xs) / |ss| as real))
      case MeanSquare => r == Some(Num(Moments.Dot(xs, xs) / |ss| as real))
      case Min => exists v :: IsLeast(xs, v) && r == Some(Num(v))
      case Max => exists v :: IsGreatest(xs, v) && r == Some(Num(v))
      case AbsMin => exists v :: IsAbsLeast(xs, v) && r == Some(Num(v))
      case AbsMax => exists v :: IsAbsGreatest(xs, v) && r == Some(Num(v))
      case Range => exists v, w :: IsLeast(xs, v) && IsGreatest(xs, w) && r == Some(Num(w - v))
      case First => r == Some(Str(ss[0]))
      case Last => r == Some(Str(ss[|ss| - 1]))
      case Unique => exists ds :: StringVector.IsDistinctList(ds, ss, env.caseSensitive)
                                  && r == Some(Str(TextLines.Join(ds, env.separator)))
      case CountUnique => r == Some(Num(|StringVector.Keys(ss, env.caseSensitive)| as real))
      case Collapse => r == Some(Str(TextLines.Join(ss, env.separator)))
      case _ => false
  }

  /** The statistics of the values whatever their order. */
  ghost predicate IsOrderStatistic(op: Op, xs: seq<real>, r: Option<Cell>)
    requires op.Valid() && xs != []
  {
    match op
    case Median => r == Some(Num(QuantileOf(xs, 1.0 / 2.0)))
    case Quartile1 => r == Some(Num(QuantileOf(xs, 1.0 / 4.0)))
    case Quartile3 => r == Some(Num(QuantileOf(xs, 3.0 / 4.0)))
    case Iqr => r == Some(Num(QuantileOf(xs, 3.0 / 4.0) - QuantileOf(xs, 1.0 / 4.0)))
    case Percentile(p) => r == Some(Num(QuantileOf(xs, p / 100.0)))
    case MadRaw => r == Some(Num(QuantileOf(Order.Deviations(xs, QuantileOf(xs, 1.0 / 2.0)), 1.0 / 2.0)))
    case TrimmedMean(p) => exists v :: IsTrimmedMean(xs, p, v) && r == Some(Num(v))
    case _ => false
  }

  /** The moments of one column, or of two with equally many values. */
  ghost predicate IsMoment(op: Op, xs: seq<real>, ys: seq<real>, r: Option<Cell>)
    requires xs != []
  {
    var n := |xs|;
    match op
    case PVariance => r == Some(Num(CrossDeviation(xs, xs) / n as real))
    case SVariance => r == Some(if n == 1 then NaN else Num(CrossDeviation(xs, xs) / (n - 1) as real))
    case PCovariance => r == if n != |ys| then None else Some(Num(CrossDeviation(xs, ys) / n as real))
    case SCovariance =>
      r == if n != |ys| then None
           else Some(if n == 1 then NaN else Num(CrossDeviation(xs, ys) / (n - 1) as real))
    case DotProduct => r == if n != |ys| then None else Some(Num(Moments.Dot(xs, ys)))
    case _ => false
  }

  /** The quantile of values in any order. */
  function QuantileOf(xs: seq<real>, q: real): real
    requires xs != [] && 0.0 <= q <= 1.0
  {
    Order.Quantile(Order.Sort(xs), q)
  }

  /** The sum of the products of the deviations from the means. */
  function CrossDeviation(xs: seq<real>, ys: seq<real>): real
    requires |xs| == |ys| > 0
  {
    Moments.Dot(Moments.Deviated(xs), Moments.Deviated(ys))
  }

  /** v is the mean of the values left after dropping a part p of them at each end, rounded down; of
      one half, it is the median. */
  ghost predicate IsTrimmedMean(xs: seq<real>, p: real, v: real)
    requires xs != []
  {
    if p == 0.5 then v == QuantileOf(xs, 1.0 / 2.0) else
    exists c: nat :: 2 * c < |xs| && c as real <= p * |xs| as real < (c + 1) as real
                     && v == Moments.Mean(Order.Sort(xs)[c..|xs| - c])
  }

  /** The distinct values, sorted and joined. */
  function UniqueText(env: Env, ss: seq<string>): string {
    TextLines.Join(StringVector.Uniq(StringVector.Sort(ss, env.caseSensitive), env.caseSensitive), env.separator)
  }

  /** field_op_summarize, from the accumulator and the values of the subordinate's accumulator. */
  function Summary(env: Env, op: Op, a: Acc, ys: seq<real>): Option<Cell>
    requires op.Valid()
    requires a.count > 0 ==> CanSummarize(op, a)
  {
    if a.count == 0 then Some(EmptyCell(op))
    else if IsOrderOp(op) then Some(OrderCell(op, Order.Sort(a.values)))
    else if op.NumericVector() then MomentCell(op, a.values, ys)
    else Some(ScalarCell(env, op, a))
  }

  /** What summarizing needs of the accumulator; a fold over a group has it. */
  predicate CanSummarize(op: Op, a: Acc) {
    && (op.NumericVector() ==> a.values != [])
    && (op.Range? ==> |a.values| == 2)
  }

  function ScalarCell(env: Env, op: Op, a: Acc): Cell
    requires a.count > 0 && (op.Range? ==> |a.values| == 2)
  {
    match op
    case Mean => Num(a.value / a.count as real)
    case MeanSquare => Num(a.value / a.count as real)
    case Range => Num(a.values[1] - a.values[0])
    case First => Str(Trunc(a.bytes))
    case Last => Str(Trunc(a.bytes))
    case Unique => Str(UniqueText(env, Unpack(a.bytes, a.count)))
    case CountUnique => Num(|StringVector.Uniq(StringVector.Sort(Unpack(a.bytes, a.count), env.caseSensitive),
                                               env.caseSensitive)| as real)
    case Collapse => Str(Trunc(Collapsed(a.bytes, env.separator)))
    case _ => Num(a.value)
  }

  /** The first n strings of a packed buffer. */
  function Unpack(bytes: string, n: nat): seq<string>
    decreases n
  {
    if n == 0 || bytes == "" then [] else
    var s := Trunc(bytes);
    [s] + Unpack(if |s| < |bytes| then bytes[|s| + 1..] else "", n - 1)
  }

  /** Every NUL but the last turned into the separator. */
  function Collapsed(bytes: string, sep: char): string {
    if bytes == "" then "" else StringVector.Separated(bytes[..|bytes| - 1], sep) + [NUL]
  }

  lemma {:induction false} UnpackPack(ss: seq<string>)
    requires StringVector.NulFree(ss)
    ensures Unpack(StringVector.Pack(ss), |ss|) == ss
  {
    if ss != [] {
      StringVector.PackHead(ss);
      TruncConcat(ss[0], StringVector.Pack(ss[1..]));
      UnpackPack(ss[1..]);
      assert StringVector.Pack(ss)[|ss[0]| + 1..] == StringVector.Pack(ss[1..]);
    }
  }

  lemma CollapsedPack(ss: seq<string>, sep: char)
    requires StringVector.NulFree(ss) && ss != [] && sep != NUL
    ensures Trunc(Collapsed(StringVector.Pack(ss), sep)) == TextLines.Join(ss, sep)
  {
    var p, j := StringVector.Pack(ss), TextLines.Join(ss, sep);
    StringVector.SeparatedPack(ss, sep);
    StringVector.PackLength(ss);
    assert p == p[..|p| - 1] + [p[|p| - 1]];
    StringVector.SeparatedConcat(p[..|p| - 1], [p[|p| - 1]], sep);
    assert StringVector.Separated(p[..|p| - 1], sep) == j;
    assert Collapsed(p, sep) == j + [NUL] + "";
    JoinNulFree(ss, sep);
    TruncConcat(j, "");
  }

  lemma {:induction false} JoinNulFree(ss: seq<string>, sep: char)
    requires StringVector.NulFree(ss) && sep != NUL
    ensures NUL !in TextLines.Join(ss, sep)
  {
    if |ss| > 1 {
      JoinNulFree(ss[1..], sep);
    }
  }

  lemma CountUniqueText(env: Env, ss: seq<string>)
    ensures |StringVector.Uniq(StringVector.Sort(ss, env.caseSensitive), env.caseSensitive)|
         == |StringVector.Keys(ss, env.caseSensitive)|
  {
    var cs := env.caseSensitive;
    StringVector.SortOrders(ss, cs);
    StringVector.SortContents(ss, cs);
    hide *;
    StringVector.UniqueCount(ss, StringVector.Sort(ss, cs), cs);
  }

  lemma ScalarIsStatistic(env: Env, op: Op, a: Acc, ss: seq<string>, xs: seq<real>, ys: seq<real>)
    requires op.Valid() && |xs| == |ss| > 0 && Means(op, a, ss, xs)
    requires !IsOrderOp(op) && !op.NumericVector() && !op.StringVector()
    requires StringVector.NulFree(ss)
    ensures a.count > 0 && (op.Range? ==> |a.values| == 2)
    ensures IsStatistic(env, op, ss, xs, ys, Some(ScalarCell(env, op, a)))
  {
    if op.First? {
      TruncConcat(ss[0], "");
    } else if op.Last? {
      TruncConcat(ss[|ss| - 1], "");
    } else if op.MeanSquare? {
      Moments.DotSelf(xs);
    }
    hide StringVector.NulFree, Moments.Dot, Moments.PowerSum, Trunc, Order.SumOf;
  }

  lemma StringIsStatistic(env: Env, op: Op, a: Acc, ss: seq<string>, xs: seq<real>, ys: seq<real>)
    requires op.Valid() && |xs| == |ss| > 0 && op.StringVector()
    requires a.count == |ss| && a.bytes == StringVector.Pack(ss)
    requires StringVector.NulFree(ss) && env.separator != NUL
    ensures IsStatistic(env, op, ss, xs, ys, Some(ScalarCell(env, op, a)))
  {
    hide Unpack, Collapsed, StringVector.NulFree, StringVector.Pack, StringVector.Keys, TextLines.Join,
      StringVector.IsDistinctList, StringVector.Uniq, StringVector.Sort;
    StringCell(env, op, a, ss);
    hide ScalarCell;
    if op.CountUnique? {
      CountUniqueText(env, ss);
    } else if op.Unique? {
      DistinctOfSorted(ss, env.caseSensitive);
    }
  }

  lemma DistinctOfSorted(ss: seq<string>, cs: bool)
    ensures StringVector.IsDistinctList(StringVector.Uniq(StringVector.Sort(ss, cs), cs), ss, cs)
  {
    StringVector.SortOrders(ss, cs);
    StringVector.SortContents(ss, cs);
    hide *;
    StringVector.UniqueIsDistinctList(ss, StringVector.Sort(ss, cs), cs);
  }

  lemma MadOfSorted(xs: seq<real>)
    requires xs != []
    ensures Order.Mad(Order.Sort(xs), 1.0) == QuantileOf(Order.Deviations(xs, QuantileOf(xs, 1.0 / 2.0)), 1.0 / 2.0)
  {
    var s := Order.Sort(xs);
    var m := Order.Median(s);
    Order.SortContents(xs);
    Order.MedianIsQuantile(s);
    hide Order.Quantile, Order.Median, Order.Sort, Order.Deviations;
    var (a, b) := (Order.Deviations(s, m), Order.Deviations(xs, m));
    Order.DeviationsContents(s, xs, m);
    SortOfSame(a, b);
    Order.MedianIsQuantile(Order.Sort(b));
    assert Order.Mad(s, 1.0) == Order.Median(Order.Sort(a)) * 1.0;
  }

  lemma SortOfSame(a: seq<real>, b: seq<real>)
    requires multiset(a) == multiset(b)
    ensures Order.Sort(a) == Order.Sort(b)
  {
    Order.SortContents(a);
    Order.SortContents(b);
    Order.SortSorts(a);
    Order.SortSorts(b);
    hide Order.Sort, Order.Sorted;
    Order.SortedUnique(Order.Sort(a), Order.Sort(b));
  }

  lemma TrimmedOfSorted(xs: seq<real>, p: real)
    requires xs != [] && 0.0 <= p <= 0.5
    ensures IsTrimmedMean(xs, p, Order.TrimmedMean(Order.Sort(xs), p))
  {
    hide *;
    if p < 0.5 {
      PartTrimmed(xs, p);
    } else {
      HalfTrimmed(xs);
    }
  }

  lemma HalfTrimmed(xs: seq<real>)
    requires xs != []
    ensures IsTrimmedMean(xs, 0.5, Order.TrimmedMean(Order.Sort(xs), 0.5))
  {
    Order.MedianIsQuantile(Order.Sort(xs));
    hide Order.Quantile, Order.Sort, Order.Median;
  }

  lemma PartTrimmed(xs: seq<real>, p: real)
    requires xs != [] && 0.0 <= p < 0.5
    ensures IsTrimmedMean(xs, p, Order.TrimmedMean(Order.Sort(xs), p))
  {
    hide *;
    var s := Order.Sort(xs);
    var c := Order.Trimmed(|s|, p);
    Order.TrimmedBounds(|s|, p);
    Order.TrimmedMeanIs(s, p);
    MeanOf(s[c..|s| - c]);
    TrimmedCount(|s|, p);
    KeptStatistic(xs, p, c);
  }

  lemma MeanOf(xs: seq<real>)
    requires xs != []
    ensures Moments.Mean(xs) == Order.SumOf(xs) / |xs| as real
  {
    hide Order.SumOf;
  }

  lemma KeptStatistic(xs: seq<real>, p: real, c: nat)
    requires xs != [] && p < 0.5 && 2 * c < |xs| && c as real <= p * |xs| as real < (c + 1) as real
    ensures IsTrimmedMean(xs, p, Moments.Mean(Order.Sort(xs)[c..|xs| - c]))
  {
    hide Order.Sort, QuantileOf, Moments.Mean;
  }

  lemma TrimmedCount(n: nat, p: real)
    ensures var c := Order.Trimmed(n, p); c as real <= p * n as real < (c + 1) as real
  {
  }

  lemma OrderIsStatistic(op: Op, xs: seq<real>)
    requires op.Valid() && xs != [] && IsOrderOp(op)
    ensures IsOrderStatistic(op, xs, Some(OrderCell(op, Order.Sort(xs))))
  {
    if op.MadRaw? {
      MadOfSorted(xs);
      hide *;
      MadStatistic(op, xs);
    } else if op.TrimmedMean? {
      TrimmedOfSorted(xs, op.trim);
      hide *;
      TrimmedStatistic(op, xs);
    } else {
      QuantileStatistic(op, xs);
      hide *;
    }
  }

  lemma QuantileStatistic(op: Op, xs: seq<real>)
    requires op.Valid() && xs != [] && IsOrderOp(op) && !op.MadRaw? && !op.TrimmedMean?
    ensures IsOrderStatistic(op, xs, Some(OrderCell(op, Order.Sort(xs))))
  {
    NamedQuantiles(op, xs);
    hide QuantileOf, Order.Median, Order.Quartile1, Order.Quartile3, Order.Percentile, Order.Sort;
  }

  lemma MadStatistic(op: Op, xs: seq<real>)
    requires op.Valid() && xs != [] && op.MadRaw?
    requires Order.Mad(Order.Sort(xs), 1.0)
          == QuantileOf(Order.Deviations(xs, QuantileOf(xs, 1.0 / 2.0)), 1.0 / 2.0)
    ensures IsOrderStatistic(op, xs, Some(OrderCell(op, Order.Sort(xs))))
  {
    hide QuantileOf, Order.Mad, Order.Sort, Order.Deviations;
  }

  lemma TrimmedStatistic(op: Op, xs: seq<real>)
    requires op.Valid() && xs != [] && op.TrimmedMean? && IsTrimmedMean(xs, op.trim, Order.TrimmedMean(Order.Sort(xs), op.trim))
    ensures IsOrderStatistic(op, xs, Some(OrderCell(op, Order.Sort(xs))))
  {
    hide IsTrimmedMean, Order.TrimmedMean, Order.Sort;
  }

  lemma NamedQuantiles(op: Op, xs: seq<real>)
    requires op.Valid() && xs != []
    ensures var s := Order.Sort(xs);
      && Order.Median(s) == QuantileOf(xs, 1.0 / 2.0)
      && Order.Quartile1(s) == QuantileOf(xs, 1.0 / 4.0) && Order.Quartile3(s) == QuantileOf(xs, 3.0 / 4.0)
      && (op.Percentile? ==> Order.Percentile(s, op.p) == QuantileOf(xs, op.p / 100.0))
  {
    Order.MedianIsQuantile(Order.Sort(xs));
    hide Order.Quantile, Order.Sort;
  }

  lemma MomentIsStatistic(op: Op, xs: seq<real>, ys: seq<real>)
    requires xs != [] && op.NumericVector() && !IsOrderOp(op)
    ensures IsMoment(op, xs, ys, MomentCell(op, xs, ys))
  {
    Moments.DotSelf(Moments.Deviated(xs));
    hide Moments.Dot, Moments.PowerSum, Moments.Deviated;
  }

  lemma StatisticFromMeaning(env: Env, op: Op, a: Acc, ss: seq<string>, xs: seq<real>, ys: seq<real>)
    requires op.Valid() && |xs| == |ss| > 0 && Means(op, a, ss, xs)
    requires StringVector.NulFree(ss) && env.separator != NUL
    ensures a.count > 0 && CanSummarize(op, a)
    ensures IsStatistic(env, op, ss, xs, ys, Summary(env, op, a, ys))
  {
    hide ValueMeans, OrderCell, MomentCell, ScalarCell, IsOrderStatistic, IsMoment;
    if op.StringVector() {
      StringIsStatistic(env, op, a, ss, xs, ys);
    } else if IsOrderOp(op) {
      OrderIsStatistic(op, xs);
    } else if op.NumericVector() {
      MomentIsStatistic(op, xs, ys);
    } else {
      ScalarIsStatistic(env, op, a, ss, xs, ys);
    }
  }

  lemma EmptyStatistic(env: Env, op: Op, a: Acc, ys: seq<real>)
    requires op.Valid() && a.count == 0
    ensures IsStatistic(env, op, [], [], ys, Summary(env, op, a, ys))
  {
  }

  /** field_op_summarize after a group's fields is the statistic of exactly those fields. */
  lemma SummaryIsStatistic(env: Env, op: Op, ts: seq<string>, ys: seq<real>)
    requires op.Valid() && StringVector.NulFree(Kept(env, ts)) && env.separator != NUL
    ensures var (a, ss) := (Fold(env, op, ts), Kept(env, ts));
      && (a.count > 0 ==> CanSummarize(op, a))
      && IsStatistic(env, op, ss, Inputs(env, op, ss), ys, Summary(env, op, a, ys))
  {
    var a, ss := Fold(env, op, ts), Kept(env, ts);
    var xs := Inputs(env, op, ss);
    FoldMeaning(env, op, ts);
    CountOfMeaning(op, a, ss, xs);
    hide *;
    if ss == [] {
      EmptyStatistic(env, op, a, ys);
      assert xs == [];
    } else {
      StatisticFromMeaning(env, op, a, ss, xs, ys);
    }
  }

  lemma CountOfMeaning(op: Op, a: Acc, ss: seq<string>, xs: seq<real>)
    requires Means(op, a, ss, xs)
    ensures a.count == |ss|
  {
  }

  /** A pair operation reports the moment of its two columns, in input order. */
  lemma PairValues(env: Env, op: Op, us: seq<string>)
    requires op.Pair()
    ensures Fold(env, op, us).values == Inputs(env, op, Kept(env, us))
  {
    FoldMeaning(env, op, us);
  }

  /** Without --narm nothing is skipped, so both columns of a pair have as many values as the
      group has lines and a pair operation never fails. */
  lemma {:induction false} KeptAll(env: Env, ts: seq<string>)
    requires !env.narm
    ensures Kept(env, ts) == ts
  {
    if ts != [] {
      KeptAll(env, ts[..|ts| - 1]);
    }
  }

  lemma PairsAligned(env: Env, op: Op, ts: seq<string>, us: seq<string>)
    requires !env.narm && op.Valid() && |ts| == |us|
    requires StringVector.NulFree(ts) && env.separator != NUL
    ensures var a := Fold(env, op, ts);
      && (a.count > 0 ==> CanSummarize(op, a))
      && (op.Pair() ==> Summary(env, op, a, Fold(env, op, us).values).Some?)
  {
    hide *;
    KeptAll(env, ts);
    KeptAll(env, us);
    SummaryIsStatistic(env, op, ts, []);
    if op.Pair() {
      PairValues(env, op, ts);
      PairValues(env, op, us);
      PairSummary(env, op, Fold(env, op, ts), Fold(env, op, us).values);
    }
  }

  lemma PairSummary(env: Env, op: Op, a: Acc, ys: seq<real>)
    requires op.Valid() && op.Pair() && (a.count > 0 ==> CanSummarize(op, a)) && |a.values| == |ys|
    ensures Summary(env, op, a, ys).Some?
  {
  }

  lemma VectorLeavesValue(op: Op, v: real, x: real)
    requires op.NumericVector() || op.StringVector()
    ensures NextValue(op, v, x) == v
  {
  }

  // --- struct fieldop ----------------------------------------------------------------------

  /** enum FIELD_OP_COLLECT_RESULT, without the base64 error. */
  datatype CollectResult = OK | KEEP_LINE | SKIPPED | INVALID_NUMBER

  const VALUES_BATCH_INCREMENT: nat := 1024

  /** struct fieldop. The vectors `values` and `strBuf` are whole allocations: their entries from
      numValues and strUsed on are left over from earlier groups or never written. */
  class FieldOp {
    const op: Op
    const field: nat
    const subordinate: bool
    const subordinateOp: FieldOp?

    var first: bool
    var count: nat
    var value: real
    var values: seq<real>
    var numValues: nat
    var strBuf: string
    var strUsed: nat
    ghost var strings: seq<string>  // what a string vector holds

    ghost predicate Valid()
      reads this
      ensures Valid() ==> numValues <= |values| && strUsed <= |strBuf|
    {
      && op.Valid() && field > 0
      && (op.Pair() && !subordinate ==> subordinateOp != null && subordinateOp != this)
      && numValues <= |values| && strUsed <= |strBuf|
      && RangeReady(op, View()) && (count > 0 ==> CanSummarize(op, View()))
      && (op.StringVector() ==> Packed())
    }

    ghost predicate Packed()
      requires strUsed <= |strBuf|
      reads this
    {
      strBuf[..strUsed] == StringVector.Pack(strings) && |strings| == count && StringVector.NulFree(strings)
    }

    /** The live part of the structure. */
    ghost function View(): Acc
      requires numValues <= |values| && strUsed <= |strBuf|
      reads this
    {
      Acc(first, count, value, values[..numValues], strBuf[..strUsed])
    }

    /** field_op_init. */
    constructor (op: Op, field: nat, subordinate: bool, subordinateOp: FieldOp?)
      requires op.Valid() && field > 0
      requires op.Pair() && !subordinate ==> subordinateOp != null
      ensures Valid() && View() == EMPTY
      ensures this.op == op && this.field == field
      ensures this.subordinate == subordinate && this.subordinateOp == subordinateOp
    {
      this.op, this.field, this.subordinate, this.subordinateOp := op, field, subordinate, subordinateOp;
      first, count, value := true, 0, 0.0;
      values, numValues, strBuf, strUsed := [], 0, "", 0;
      strings := [];
    }

    /** field_op_reset: the vectors are emptied but not cleared. */
    method Reset()
      requires Valid()
      modifies this
      ensures Valid() && View() == EMPTY
      ensures values == old(values) && strBuf == old(strBuf)
    {
      first := true;
      count := 0;
      value := 0.0;
      numValues := 0;
      strUsed := 0;
      strings := [];
    }

    /** field_op_add_value. */
    method AddValue(x: real)
      requires numValues <= |values|
      modifies this`values, this`numValues
      ensures numValues <= |values| && values[..numValues] == old(values[..numValues]) + [x]
    {
      if numValues >= |values| {
        var more := new real[VALUES_BATCH_INCREMENT];
        values := values + more[..];
      }
      values := values[numValues := x];
      numValues := numValues + 1;
    }

    /** The growth step of field_op_add_string and field_op_replace_string. */
    method Grow(slen: nat)
      modifies this`strBuf
      ensures old(strBuf) <= strBuf && |strBuf| == |old(strBuf)| + MaxOf(VALUES_BATCH_INCREMENT, slen + 1)
    {
      var more := new char[MaxOf(VALUES_BATCH_INCREMENT, slen + 1)];
      strBuf := strBuf + more[..];
    }

    /** memcpy of str to str_buf + pos and its NUL: the slices fit, so the copy does. */
    method CopyIn(pos: nat, str: string)
      requires pos + |str| + 1 <= |strBuf|
      modifies this`strBuf
      ensures |strBuf| == |old(strBuf)|
      ensures strBuf[..pos + |str| + 1] == old(strBuf)[..pos] + str + [NUL]
    {
      strBuf := strBuf[..pos] + str + [NUL] + strBuf[pos + |str| + 1..];
    }

    /** field_op_add_string. */
    method AddString(str: string)
      requires strUsed <= |strBuf|
      modifies this`strBuf, this`strUsed
      ensures strUsed <= |strBuf| && strBuf[..strUsed] == old(strBuf[..strUsed]) + str + [NUL]
    {
      if strUsed + |str| + 1 >= |strBuf| {
        Grow(|str|);
      }
      CopyIn(strUsed, str);
      strUsed := strUsed + |str| + 1;
    }

    /** field_op_replace_string: the buffer holds this one string. */
    method ReplaceString(str: string)
      requires strUsed <= |strBuf|
      modifies this`strBuf, this`strUsed
      ensures strUsed <= |strBuf| && strBuf[..strUsed] == str + [NUL]
    {
      if |str| + 1 >= |strBuf| {
        Grow(|str|);
      }
      CopyIn(0, str);
      strUsed := |str| + 1;
      assert "" + str == str;
    }

    /** field_op_collect. */
    method Collect(env: Env, str: string) returns (rc: CollectResult)
      requires Valid() && NUL !in str
      modifies this
      ensures Valid()
      ensures rc == INVALID_NUMBER <==> !Accepts(env, op, str)
      ensures rc == SKIPPED <==> Skips(env, str)
      ensures Skips(env, str) ==> View() == old(View())
      ensures Accepts(env, op, str) && !Skips(env, str) ==>
        var x := Input(env, op, str);
        && View() == Store(op, old(View()), x, str)
        && (rc == KEEP_LINE <==> Keeps(op, old(first), Start(op, old(View()), x), x))
    {
      if Skips(env, str) {
        return SKIPPED;
      }
      var x := 0.0;
      if op.Numeric() {
        var parsed := Number(env, str);
        if parsed == None {
          return INVALID_NUMBER;
        }
        x := parsed.value;
      }
      if op.First? || op.Last? || op.StringVector() {
        rc := CollectText(str);
      } else if op.Range? {
        CollectRange(x);
        rc := OK;
      } else if op.NumericVector() {
        CollectVector(x);
        rc := OK;
      } else {
        rc := CollectScalar(x);
      }
    }

    /** The cases of the switch that only update `value`. */
    method CollectScalar(x: real) returns (rc: CollectResult)
      requires Valid()
      requires !op.First? && !op.Last? && !op.StringVector() && !op.Range? && !op.NumericVector()
      modifies this`first, this`count, this`value
      ensures Valid() && View() == Store(op, old(View()), x, "")
      ensures rc == if Keeps(op, old(first), Start(op, old(View()), x), x) then KEEP_LINE else OK
    {
      rc := OK;
      count := count + 1;
      if first && op.AutoFirst() {
        value := x;
      }
      match op {
        case Sum => value := value + x;
        case Mean => value := value + x;
        case MeanSquare => value := value + x * x;
        case Count => value := value + 1.0;
        case Min =>
          if x < value {
            value := x;
            rc := KEEP_LINE;
          }
        case Max =>
          if x > value {
            value := x;
            rc := KEEP_LINE;
          }
        case AbsMin =>
          if Order.Abs(x) < Order.Abs(value) {
            value := x;
            rc := KEEP_LINE;
          }
        case AbsMax =>
          if Order.Abs(x) > Order.Abs(value) {
            value := x;
            rc := KEEP_LINE;
          }
        case _ =>
      }
      first := false;
    }

    method CollectVector(x: real)
      requires Valid() && op.NumericVector()
      modifies this`first, this`count, this`values, this`numValues
      ensures Valid() && View() == Store(op, old(View()), x, "")
    {
      hide StringVector.Pack, NextValue, Op.Valid, StringVector.NulFree;
      count := count + 1;
      AddValue(x);
      first := false;
      assert NextValue(op, value, x) == value by { VectorLeavesValue(op, value, x); }
    }

    /** OP_RANGE: the first number is stored twice, later ones update the two entries. */
    method CollectRange(x: real)
      requires Valid() && op.Range?
      modifies this`first, this`count, this`values, this`numValues
      ensures Valid() && View() == Store(op, old(View()), x, "")
    {
      count := count + 1;
      if first {
        AddValue(x);
        AddValue(x);
      } else {
        if x < values[0] {
          values := values[0 := x];
        }
        if x > values[1] {
          values := values[1 := x];
        }
      }
      first := false;
    }

    method CollectText(str: string) returns (rc: CollectResult)
      requires Valid() && NUL !in str
      requires op.First? || op.Last? || op.StringVector()
      modifies this`first, this`count, this`strBuf, this`strUsed, this`strings
      ensures Valid() && View() == Store(op, old(View()), 0.0, str)
      ensures rc == if Keeps(op, old(first), old(value), 0.0) then KEEP_LINE else OK
    {
      if op.StringVector() {
        AppendText(str);
        return OK;
      }
      rc := OK;
      count := count + 1;
      if op.Last? || first {
        ReplaceString(str);
        rc := KEEP_LINE;
      }
      first := false;
    }

    method AppendText(str: string)
      requires Valid() && NUL !in str && op.StringVector()
      modifies this`first, this`count, this`strBuf, this`strUsed, this`strings
      ensures Valid() && View() == Store(op, old(View()), 0.0, str)
    {
      hide StringVector.Pack, StringVector.NulFree, NextValue, Op.Valid;
      count := count + 1;
      AddString(str);
      StringVector.PackSnoc(strings, str);
      StringVector.NulFreeSnoc(strings, str);
      VectorLeavesValue(op, value, 0.0);
      strings := strings + [str];
      first := false;
    }

    /** The values of the subordinate of a pair. */
    ghost function SubValues(): seq<real>
      requires subordinateOp != null && subordinateOp.Valid()
      reads this, subordinateOp
    {
      subordinateOp.values[..subordinateOp.numValues]
    }

    /** field_op_summarize: None is the fatal error of verify_subordinate_num_values. */
    method Summarize(env: Env) returns (cell: Option<Cell>)
      requires Valid() && env.separator != NUL && !subordinate
      requires op.Pair() ==> subordinateOp.Valid()
      modifies this`values
      ensures Valid()
      ensures cell == Summary(env, op, old(View()), if op.Pair() then old(SubValues()) else [])
    {
      if count == 0 {
        return Some(EmptyCell(op));
      }
      if IsOrderOp(op) {
        SortValues();
        var c := SummarizeOrder();
        return Some(c);
      }
      if op.NumericVector() {
        cell := SummarizeMoments();
      } else {
        var c := SummarizeScalar(env);
        cell := Some(c);
      }
    }

    /** field_op_sort_values. */
    method SortValues()
      requires Valid() && !op.Range?
      modifies this`values
      ensures Valid() && values[..numValues] == Order.Sort(old(values[..numValues]))
    {
      hide Order.Sort, StringVector.Pack;
      values := Order.Sort(values[..numValues]) + values[numValues..];
    }

    method SummarizeOrder() returns (cell: Cell)
      requires Valid() && IsOrderOp(op) && numValues > 0
      ensures cell == OrderCell(op, values[..numValues])
    {
      var xs := values[..numValues];
      match op {
        case Median => cell := Num(Order.Median(xs));
        case Quartile1 => cell := Num(Order.Quartile1(xs));
        case Quartile3 => cell := Num(Order.Quartile3(xs));
        case Iqr => cell := Num(Order.Quartile3(xs) - Order.Quartile1(xs));
        case Percentile(p) => cell := Num(Order.Percentile(xs, p));
        case MadRaw =>
          var mad := Order.MadValue(xs, 1.0);
          cell := Num(mad);
        case TrimmedMean(p) =>
          var mean := Order.TrimmedMeanValue(xs, p);
          cell := Num(mean);
        case _ => cell := NaN;
      }
    }

    method SummarizeMoments() returns (cell: Option<Cell>)
      requires Valid() && op.NumericVector() && !IsOrderOp(op) && numValues > 0 && !subordinate
      requires op.Pair() ==> subordinateOp.Valid()
      ensures cell == MomentCell(op, values[..numValues], if op.Pair() then SubValues() else [])
    {
      var xs := values[..numValues];
      if op.PVariance? || op.SVariance? {
        var v := Moments.VarianceValue(xs, if op.PVariance? then 0 else 1);
        return Some(MaybeNum(v));
      }
      // verify_subordinate_num_values
      if numValues != subordinateOp.numValues {
        return None;
      }
      var ys := subordinateOp.values[..subordinateOp.numValues];
      if op.DotProduct? {
        var v := Moments.DotProductValue(xs, ys);
        cell := Some(Num(v));
      } else {
        var v := Moments.CovarianceValue(xs, ys, if op.PCovariance? then 0 else 1);
        cell := Some(MaybeNum(v));
      }
    }

    method SummarizeScalar(env: Env) returns (cell: Cell)
      requires Valid() && env.separator != NUL && count > 0 && !IsOrderOp(op) && !op.NumericVector()
      ensures cell == ScalarCell(env, op, View())
    {
      if op.StringVector() {
        cell := SummarizeStrings(env);
        return;
      }
      match op {
        case Mean => cell := Num(value / count as real);
        case MeanSquare => cell := Num(value / count as real);
        case Range => cell := Num(values[1] - values[0]);
        case First => cell := Str(Trunc(strBuf[..strUsed]));
        case Last => cell := Str(Trunc(strBuf[..strUsed]));
        case _ => cell := Num(value);
      }
    }

    method SummarizeStrings(env: Env) returns (cell: Cell)
      requires Valid() && env.separator != NUL && count > 0 && op.StringVector()
      ensures cell == ScalarCell(env, op, View())
    {
      StringCell(env, op, View(), strings);
      hide Unpack, Collapsed, ScalarCell, StringVector.Pack, StringVector.NulFree, StringVector.Uniq, StringVector.Sort;
      if op.Collapse? {
        var out := StringVector.CollapseValue(strBuf, strUsed, env.separator, strings);
        return Str(out[..strUsed - 1]);
      }
      var strs := StringPtrs();
      var sorted := StringVector.Sort(strs, env.caseSensitive);
      StringVector.SortContents(strs, env.caseSensitive);
      if op.Unique? {
        var out, len := StringVector.UniqueValue(sorted, env.caseSensitive, env.separator);
        cell := Str(out[..len]);
      } else {
        var n := StringVector.CountUniqueValues(sorted, env.caseSensitive);
        cell := Num(n as real);
      }
    }

    /** The strings behind the pointers of field_op_get_string_ptrs. */
    method StringPtrs() returns (strs: seq<string>)
      requires Valid() && op.StringVector()
      ensures strs == strings
    {
      hide StringVector.Pack, StringVector.NulFree, Trunc;
      var ptrs := StringVector.GetStringPtrs(strBuf, strUsed, count, strings);
      strs := [];
      var i := 0;
      while i < count
        invariant 0 <= i <= count && strs == strings[..i]
      {
        strs := strs + [Trunc(strBuf[ptrs[i]..strUsed])];
        i := i + 1;
      }
    }
  }

  /** What the string operations print, from the strings in the buffer. */
  lemma StringCell(env: Env, op: Op, a: Acc, ss: seq<string>)
    requires a.count == |ss| > 0 && a.bytes == StringVector.Pack(ss) && StringVector.NulFree(ss)
    requires op.StringVector() && env.separator != NUL
    ensures ScalarCell(env, op, a) == StringResult(env, op, ss)
  {
    hide Unpack, Collapsed, StringVector.Pack, UniqueText, StringVector.NulFree;
    UnpackPack(ss);
    if op.Collapse? {
      CollapsedPack(ss, env.separator);
    }
  }

  function StringResult(env: Env, op: Op, ss: seq<string>): Cell {
    if op.Collapse? then Str(TextLines.Join(ss, env.separator))
    else if op.Unique? then Str(UniqueText(env, ss))
    else Num(|StringVector.Uniq(StringVector.Sort(ss, env.caseSensitive), env.caseSensitive)| as real)
  }
}
