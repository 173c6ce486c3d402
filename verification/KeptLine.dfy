/** Which line of a group datamash keeps: the one --full prints (process_line and process_file in
    src/datamash.c, with FLOCR_OK_KEEP_LINE of src/field-ops.c). */
module KeptLine {
  import opened FieldOps
  import opened GroupBy
  import Moments
  import Order = OrderStatistics

  /** The field operation i reads from line k. */
  function FieldAt(cfg: Config, g: seq<Line>, k: nat, i: nat): string
    requires cfg.Valid() && LinesOk(cfg, g) && k < |g| && i < |cfg.ops|
  {
    assert OpOk(cfg, g[k], i);
    g[k][cfg.ops[i].field - 1]
  }

  /** Without --narm every field counts. */
  predicate Counts(cfg: Config, g: seq<Line>, k: nat, i: nat)
    requires cfg.Valid() && LinesOk(cfg, g) && k < |g| && i < |cfg.ops|
  {
    !Skips(cfg.env, FieldAt(cfg, g, k, i))
  }

  function NumberAt(cfg: Config, g: seq<Line>, k: nat, i: nat): real
    requires cfg.Valid() && LinesOk(cfg, g) && k < |g| && i < |cfg.ops|
  {
    NumberOf(cfg.env, FieldAt(cfg, g, k, i))
  }

  /** The number x is to be preferred to y. */
  predicate Better(op: Op, x: real, y: real) {
    match op
    case Min => x < y
    case Max => x > y
    case AbsMin => Order.Abs(x) < Order.Abs(y)
    case AbsMax => Order.Abs(x) > Order.Abs(y)
    case _ => false
  }

  /** Operation i asks for line n of the group: a minimum or maximum if it beats all earlier numbers,
      `first` for the first field that counts, `last` for every one; no other operation asks. */
  ghost predicate Asks(cfg: Config, g: seq<Line>, n: nat, i: nat)
    requires cfg.Valid() && LinesOk(cfg, g) && n < |g| && i < |cfg.ops|
  {
    Counts(cfg, g, n, i) && match cfg.ops[i].op
      case Min | Max | AbsMin | AbsMax => BeatsEarlier(cfg, g, n, i)
      case First => forall k :: 0 <= k < n ==> !Counts(cfg, g, k, i)
      case Last => true
      case _ => false
  }

  ghost predicate BeatsEarlier(cfg: Config, g: seq<Line>, n: nat, i: nat)
    requires cfg.Valid() && LinesOk(cfg, g) && n < |g| && i < |cfg.ops|
  {
    && (exists k :: 0 <= k < n && Counts(cfg, g, k, i))
    && forall k :: 0 <= k < n && Counts(cfg, g, k, i) ==>
         Better(cfg.ops[i].op, NumberAt(cfg, g, n, i), NumberAt(cfg, g, k, i))
  }

  // --- What the accumulator knows ----------------------------------------------------------

  /** One of the fields that count holds the number x. */
  ghost predicate HasNumber(env: Env, op: Op, ts: seq<string>, x: real) {
    exists k :: 0 <= k < |ts| && !Skips(env, ts[k]) && x == Input(env, op, ts[k])
  }

  lemma HasNumberSnoc(env: Env, op: Op, ts: seq<string>, x: real)
    requires ts != []
    ensures var n := |ts| - 1;
      HasNumber(env, op, ts, x) <==> HasNumber(env, op, ts[..n], x) || (!Skips(env, ts[n]) && x == Input(env, op, ts[n]))
  {
    hide Skips, Input;
    var n := |ts| - 1;
    if HasNumber(env, op, ts[..n], x) {
      var k :| 0 <= k < n && !Skips(env, ts[..n][k]) && x == Input(env, op, ts[..n][k]);
      assert ts[..n][k] == ts[k];
    }
    if HasNumber(env, op, ts, x) {
      var k :| 0 <= k < |ts| && !Skips(env, ts[k]) && x == Input(env, op, ts[k]);
      if k < n {
        assert ts[..n][k] == ts[k];
      }
    }
  }

  /** The numbers that count. */
  lemma {:induction false} KeptInputs(env: Env, op: Op, ts: seq<string>)
    ensures forall x :: x in Inputs(env, op, Kept(env, ts)) <==> HasNumber(env, op, ts, x)
    ensures Kept(env, ts) == [] <==> forall k :: 0 <= k < |ts| ==> Skips(env, ts[k])
  {
    hide Skips, Input;
    if ts == [] {
      assert Inputs(env, op, []) == [];
    } else {
      var n := |ts| - 1;
      KeptInputs(env, op, ts[..n]);
      InputsSnoc(env, op, Kept(env, ts[..n]), ts[n]);
      var (before, after) := (Inputs(env, op, Kept(env, ts[..n])), Inputs(env, op, Kept(env, ts)));
      assert after == before + if Skips(env, ts[n]) then [] else [Input(env, op, ts[n])];
      forall x ensures x in Inputs(env, op, Kept(env, ts)) <==> HasNumber(env, op, ts, x) {
        HasNumberSnoc(env, op, ts, x);
      }
      assert forall k :: 0 <= k < n ==> ts[..n][k] == ts[k];
    }
  }

  /** Beating the running extreme is beating all numbers so far. */
  lemma BeatsExtreme(op: Op, xs: seq<real>, v: real, x: real)
    requires op.AutoFirst() && xs != []
    requires match op
      case Min => IsLeast(xs, v)
      case Max => IsGreatest(xs, v)
      case AbsMin => IsAbsLeast(xs, v)
      case AbsMax => IsAbsGreatest(xs, v)
      case _ => true
    ensures Better(op, x, v) <==> forall y :: y in xs ==> Better(op, x, y)
  {
    assert v in xs;
    forall y | y in xs && Better(op, x, v) ensures Better(op, x, y) {
      var j :| 0 <= j < |xs| && xs[j] == y;
    }
  }

  /** What `Keeps` decides from the accumulator, said about the fields themselves. */
  lemma KeepsMeans(op: Op, a: Acc, ss: seq<string>, xs: seq<real>, x: real)
    requires Means(op, a, ss, xs) && |xs| == |ss|
    ensures Keeps(op, a.first, Start(op, a, x), x) <==>
      if op.AutoFirst() then xs != [] && forall y :: y in xs ==> Better(op, x, y)
      else if op.First? then ss == [] else op.Last?
  {
    if op.AutoFirst() && xs != [] {
      BeatsExtreme(op, xs, a.value, x);
    }
    hide IsLeast, IsGreatest, IsAbsLeast, IsAbsGreatest, Moments.PowerSum, Order.SumOf;
  }

  lemma ColumnFields(cfg: Config, g: seq<Line>, n: nat, i: nat)
    requires cfg.Valid() && LinesOk(cfg, g) && n <= |g| && i < |cfg.ops|
    ensures var ts := Column(g[..n], cfg.ops[i].field);
      |ts| == n && forall k :: 0 <= k < n ==> ts[k] == FieldAt(cfg, g, k, i)
  {
    forall k | 0 <= k < n ensures Column(g[..n], cfg.ops[i].field)[k] == FieldAt(cfg, g, k, i) {
      assert OpOk(cfg, g[k], i) && g[..n][k] == g[k];
    }
  }

  lemma EarlierNumbers(cfg: Config, g: seq<Line>, n: nat, i: nat)
    requires cfg.Valid() && LinesOk(cfg, g) && n < |g| && i < |cfg.ops| && cfg.ops[i].op.AutoFirst()
    ensures var (op, ts) := (cfg.ops[i].op, Column(g[..n], cfg.ops[i].field));
      var xs := Inputs(cfg.env, op, Kept(cfg.env, ts));
      BeatsEarlier(cfg, g, n, i) <==> xs != [] && forall y :: y in xs ==> Better(op, NumberAt(cfg, g, n, i), y)
  {
    var (op, ts) := (cfg.ops[i].op, Column(g[..n], cfg.ops[i].field));
    var xs := Inputs(cfg.env, op, Kept(cfg.env, ts));
    ColumnFields(cfg, g, n, i);
    KeptInputs(cfg.env, op, ts);
    assert forall t: string :: Input(cfg.env, op, t) == NumberOf(cfg.env, t);
    hide Column, Kept, Inputs, LinesOk, Config.Valid, FieldAt, Better, NumberOf, Skips, Input;
    forall k | 0 <= k < n && Counts(cfg, g, k, i) ensures NumberAt(cfg, g, k, i) in xs {
      assert !Skips(cfg.env, ts[k]) && NumberAt(cfg, g, k, i) == Input(cfg.env, op, ts[k]);
    }
    if xs != [] {
      assert xs[0] in xs;
    }
    forall y | y in xs ensures exists k :: 0 <= k < n && Counts(cfg, g, k, i) && NumberAt(cfg, g, k, i) == y {
      var k :| 0 <= k < |ts| && !Skips(cfg.env, ts[k]) && y == Input(cfg.env, op, ts[k]);
      assert Counts(cfg, g, k, i);
    }
  }

  lemma NoneEarlier(cfg: Config, g: seq<Line>, n: nat, i: nat)
    requires cfg.Valid() && LinesOk(cfg, g) && n < |g| && i < |cfg.ops|
    ensures Kept(cfg.env, Column(g[..n], cfg.ops[i].field)) == [] <==> forall k :: 0 <= k < n ==> !Counts(cfg, g, k, i)
  {
    ColumnFields(cfg, g, n, i);
    KeptInputs(cfg.env, cfg.ops[i].op, Column(g[..n], cfg.ops[i].field));
    hide Column, Kept, Inputs, LinesOk, Config.Valid, FieldAt, Skips;
    var ts := Column(g[..n], cfg.ops[i].field);
    forall k | 0 <= k < n ensures Skips(cfg.env, ts[k]) == !Counts(cfg, g, k, i) {
      assert ts[k] == FieldAt(cfg, g, k, i);
    }
  }

  /** An operation keeps exactly the lines it asks for. */
  lemma KeepsWhatIsAsked(cfg: Config, g: seq<Line>, n: nat, i: nat)
    requires cfg.Valid() && LinesOk(cfg, g) && n < |g| && i < |cfg.ops| && OpOk(cfg, g[n], i)
    ensures KeepsLine(cfg, AccOf(cfg, g[..n], i), g[n], i) <==> Asks(cfg, g, n, i)
  {
    var (op, ts) := (cfg.ops[i].op, Column(g[..n], cfg.ops[i].field));
    var ss := Kept(cfg.env, ts);
    var (a, x) := (AccOf(cfg, g[..n], i), Input(cfg.env, op, g[n][cfg.ops[i].field - 1]));
    assert KeepsLine(cfg, a, g[n], i) <==> Counts(cfg, g, n, i) && Keeps(op, a.first, Start(op, a, x), x);
    assert op.AutoFirst() ==> x == NumberAt(cfg, g, n, i);
    assert a == Fold(cfg.env, op, ts);
    hide *;
    FoldMeaning(cfg.env, op, ts);
    KeepsMeans(op, a, ss, Inputs(cfg.env, op, ss), x);
    NoneEarlier(cfg, g, n, i);
    if op.AutoFirst() {
      EarlierNumbers(cfg, g, n, i);
    }
    AsksCases(cfg, g, n, i);
  }

  lemma AsksCases(cfg: Config, g: seq<Line>, n: nat, i: nat)
    requires cfg.Valid() && LinesOk(cfg, g) && n < |g| && i < |cfg.ops|
    ensures var op := cfg.ops[i].op;
      Asks(cfg, g, n, i)
      <==> (Counts(cfg, g, n, i)
            && if op.AutoFirst() then BeatsEarlier(cfg, g, n, i)
               else if op.First? then forall k :: 0 <= k < n ==> !Counts(cfg, g, k, i) else op.Last?)
  {
    hide LinesOk, Config.Valid, BeatsEarlier, Counts;
  }

  // --- The kept line -----------------------------------------------------------------------

  /** Line k is the last one some operation asks for, or the first of the group if there is none. */
  ghost predicate IsKept(cfg: Config, g: seq<Line>, k: nat)
    requires cfg.Valid() && LinesOk(cfg, g) && k < |g|
  {
    && (k == 0 || exists i :: 0 <= i < |cfg.ops| && Asks(cfg, g, k, i))
    && forall m, i :: k < m < |g| && 0 <= i < |cfg.ops| ==> !Asks(cfg, g, m, i)
  }

  lemma AsksPrefix(cfg: Config, g: seq<Line>, n: nat, m: nat, i: nat)
    requires cfg.Valid() && LinesOk(cfg, g) && m < n <= |g| && i < |cfg.ops|
    ensures LinesOk(cfg, g[..n]) && Asks(cfg, g[..n], m, i) == Asks(cfg, g, m, i)
  {
    assert forall k :: 0 <= k < n ==> g[..n][k] == g[k];
    assert LinesOk(cfg, g[..n]);
    assert forall k :: 0 <= k < n ==> FieldAt(cfg, g[..n], k, i) == FieldAt(cfg, g, k, i);
    hide LinesOk, Config.Valid, FieldAt, Better, NumberOf, Skips;
    assert forall k :: 0 <= k < n ==> Counts(cfg, g[..n], k, i) == Counts(cfg, g, k, i);
    assert forall k :: 0 <= k < n ==> NumberAt(cfg, g[..n], k, i) == NumberAt(cfg, g, k, i);
    hide Counts, NumberAt;
    assert BeatsEarlier(cfg, g[..n], m, i) == BeatsEarlier(cfg, g, m, i);
  }

  /** The line kept for a group, for any operations and with --narm too. */
  lemma {:induction false} KeptLineIs(cfg: Config, g: seq<Line>) returns (k: nat)
    requires cfg.Valid() && LinesOk(cfg, g) && g != []
    ensures k < |g| && Representative(cfg, g) == g[k] && IsKept(cfg, g, k)
  {
    var n := |g| - 1;
    forall i | 0 <= i < |cfg.ops|
      ensures OpOk(cfg, g[n], i) && (KeepsLine(cfg, AccOf(cfg, g[..n], i), g[n], i) <==> Asks(cfg, g, n, i))
    {
      assert LineOk(cfg, g[n]);
      KeepsWhatIsAsked(cfg, g, n, i);
    }
    hide KeepsLine, AccOf, Asks, Config.Valid, OpOk;
    if n == 0 {
      k := 0;
    } else if exists i :: 0 <= i < |cfg.ops| && Asks(cfg, g, n, i) {
      k := n;
    } else {
      assert LinesOk(cfg, g[..n]);
      k := KeptLineIs(cfg, g[..n]);
      KeptMore(cfg, g, n, k);
    }
  }

  lemma KeptMore(cfg: Config, g: seq<Line>, n: nat, k: nat)
    requires cfg.Valid() && LinesOk(cfg, g) && k < n && n + 1 == |g|
    requires LinesOk(cfg, g[..n]) && IsKept(cfg, g[..n], k)
    requires forall i :: 0 <= i < |cfg.ops| ==> !Asks(cfg, g, n, i)
    ensures IsKept(cfg, g, k)
  {
    hide Asks, Config.Valid, LinesOk;
    forall m, i | 0 <= m < n && 0 <= i < |cfg.ops| ensures Asks(cfg, g[..n], m, i) == Asks(cfg, g, m, i) {
      AsksPrefix(cfg, g, n, m, i);
    }
  }

  /** With a `last` operation, and without --narm, the last line of the group is kept. */
  lemma KeptForLast(cfg: Config, g: seq<Line>, i: nat)
    requires cfg.Valid() && LinesOk(cfg, g) && g != [] && i < |cfg.ops| && cfg.ops[i].op == Last && !cfg.env.narm
    ensures Representative(cfg, g) == g[|g| - 1]
  {
    var k := KeptLineIs(cfg, g);
    assert Asks(cfg, g, |g| - 1, i);
    hide Representative, LinesOk, Config.Valid;
  }

  /** With no operation that asks for a later line, the first line of the group is kept. */
  lemma KeptFirst(cfg: Config, g: seq<Line>)
    requires cfg.Valid() && LinesOk(cfg, g) && g != [] && !cfg.env.narm
    requires forall i :: 0 <= i < |cfg.ops| ==> !cfg.ops[i].op.AutoFirst() && cfg.ops[i].op != Last
    ensures Representative(cfg, g) == g[0]
  {
    var k := KeptLineIs(cfg, g);
    if k > 0 {
      forall i | 0 <= i < |cfg.ops| ensures !Asks(cfg, g, k, i) {
        assert Counts(cfg, g, 0, i);
      }
    }
  }

  /** Line k has the best number of its group, and no earlier line has it. */
  ghost predicate FirstBest(cfg: Config, g: seq<Line>, k: nat)
    requires cfg.Valid() && LinesOk(cfg, g) && k < |g|
  {
    var op := cfg.ops[0].op;
    && (forall m :: 0 <= m < |g| ==> !Better(op, NumberAt(cfg, g, m, 0), NumberAt(cfg, g, k, 0)))
    && (forall m :: 0 <= m < k ==> Better(op, NumberAt(cfg, g, k, 0), NumberAt(cfg, g, m, 0)))
  }

  lemma BetterOrder(op: Op, x: real, y: real, z: real)
    requires op.AutoFirst()
    ensures !Better(op, x, x) && (Better(op, x, y) ==> !Better(op, y, x))
    ensures !Better(op, y, x) && !Better(op, z, y) ==> !Better(op, z, x)
  {
  }

  lemma {:induction false} NoneBetter(cfg: Config, g: seq<Line>, k: nat, m: nat)
    requires cfg.Valid() && LinesOk(cfg, g) && k < |g| && m < |g| && cfg.ops[0].op.AutoFirst() && !cfg.env.narm
    requires forall j :: k < j < |g| ==> !Asks(cfg, g, j, 0)
    requires forall j :: 0 <= j < k ==> Better(cfg.ops[0].op, NumberAt(cfg, g, k, 0), NumberAt(cfg, g, j, 0))
    ensures !Better(cfg.ops[0].op, NumberAt(cfg, g, m, 0), NumberAt(cfg, g, k, 0))
    decreases m
  {
    var op := cfg.ops[0].op;
    BetterOrder(op, NumberAt(cfg, g, k, 0), NumberAt(cfg, g, m, 0), NumberAt(cfg, g, m, 0));
    if m > k {
      assert !Asks(cfg, g, m, 0) && Counts(cfg, g, m, 0) && Counts(cfg, g, 0, 0);
      var j :| 0 <= j < m && Counts(cfg, g, j, 0) && !Better(op, NumberAt(cfg, g, m, 0), NumberAt(cfg, g, j, 0));
      hide Asks, LinesOk, Config.Valid, FieldAt, Better, NumberAt, Counts;
      NoneBetter(cfg, g, k, j);
      BetterOrder(op, NumberAt(cfg, g, k, 0), NumberAt(cfg, g, j, 0), NumberAt(cfg, g, m, 0));
    }
  }

  /** With one min, max, absmin or absmax, and without --narm, the first line that attains the
      extreme is kept. */
  lemma KeptForExtreme(cfg: Config, g: seq<Line>) returns (k: nat)
    requires cfg.Valid() && LinesOk(cfg, g) && g != [] && |cfg.ops| == 1 && cfg.ops[0].op.AutoFirst() && !cfg.env.narm
    ensures k < |g| && Representative(cfg, g) == g[k] && FirstBest(cfg, g, k)
  {
    k := KeptLineIs(cfg, g);
    hide Representative;
    if k > 0 {
      assert Asks(cfg, g, k, 0);
      assert forall j :: 0 <= j < k ==> Counts(cfg, g, j, 0);
    }
    assert forall j :: k < j < |g| ==> !Asks(cfg, g, j, 0);
    hide LinesOk, Config.Valid, FieldAt, Better, NumberAt, Counts;
    forall m | 0 <= m < |g| ensures !Better(cfg.ops[0].op, NumberAt(cfg, g, m, 0), NumberAt(cfg, g, k, 0)) {
      NoneBetter(cfg, g, k, m);
    }
  }
}
