/** What the batch meaning of group-by promises its users. */
module GroupFacts {
  import opened Text
  import opened FieldOps
  import opened GroupBy
  import StringVector

  // --- Counts ------------------------------------------------------------------------------

  function TotalSize(rs: seq<seq<Line>>): nat {
    if rs == [] then 0 else TotalSize(rs[..|rs| - 1]) + |rs[|rs| - 1]|
  }

  /** No line is lost or counted twice: the sizes of the groups add up to the number of lines. */
  lemma GroupSizesSum(cfg: Config, ls: seq<Line>)
    requires cfg.Valid()
    ensures TotalSize(Runs(cfg, ls)) == |ls|
  {
    RunsPartition(cfg, ls);
    FlattenSize(Runs(cfg, ls));
  }

  lemma {:induction false} FlattenSize(rs: seq<seq<Line>>)
    ensures |Flatten(rs)| == TotalSize(rs)
  {
    if rs != [] {
      FlattenSize(rs[..|rs| - 1]);
    }
  }

  /** Without --narm a count operation prints the size of its group. */
  lemma CountIsSize(cfg: Config, g: seq<Line>, i: nat)
    requires cfg.Valid() && i < |cfg.ops| && cfg.ops[i].op == Count && !cfg.env.narm
    ensures ResultOf(cfg, g, i) == Some(Num(|g| as real))
  {
    var ts := Column(g, cfg.ops[i].field);
    KeptAll(cfg.env, ts);
    FoldMeaning(cfg.env, Count, ts);
    AccReady(cfg, g, i);
    hide Fold, Kept, Column;
  }

  /** In the per-line modes every line is a group of its own. */
  lemma {:induction false} LinesAlone(cfg: Config, ls: seq<Line>)
    requires cfg.Valid() && cfg.lineMode
    ensures |Runs(cfg, ls)| == |ls| && forall k :: 0 <= k < |ls| ==> Runs(cfg, ls)[k] == [ls[k]]
  {
    if ls != [] {
      var n := |ls| - 1;
      LinesAlone(cfg, ls[..n]);
      RunsUnfold(cfg, ls);
      hide Runs, Config.Valid, NonEmptyRuns;
    }
  }

  /** Without key columns all lines are one group. */
  lemma {:induction false} OneGroup(cfg: Config, ls: seq<Line>)
    requires cfg.Valid() && !cfg.lineMode && cfg.groups == [] && ls != []
    ensures Runs(cfg, ls) == [ls]
  {
    var n := |ls| - 1;
    RunsUnfold(cfg, ls);
    assert ls == ls[..n] + [ls[n]];
    if n > 0 {
      OneGroup(cfg, ls[..n]);
      hide Runs, Config.Valid, NonEmptyRuns;
    }
  }

  // --- Contiguous keys ---------------------------------------------------------------------

  /** Lines with equal keys are next to each other, as after sorting by the keys. */
  ghost predicate Contiguous(cfg: Config, ls: seq<Line>)
    requires cfg.Valid()
  {
    forall i, j, k :: 0 <= i < j < k < |ls| && SameKey(cfg, ls[i], ls[k]) ==> SameKey(cfg, ls[i], ls[j])
  }

  /** Lines of different groups have different keys: every key is printed once. */
  ghost predicate KeysOnce(cfg: Config, rs: seq<seq<Line>>)
    requires cfg.Valid()
  {
    forall a, b :: 0 <= a < b < |rs| ==> Apart(cfg, rs[a], rs[b])
  }

  ghost predicate Apart(cfg: Config, g: seq<Line>, h: seq<Line>)
    requires cfg.Valid()
  {
    forall x, y :: x in g && y in h ==> !SameKey(cfg, x, y)
  }

  lemma SameKeySymmetric(cfg: Config, a: Line, b: Line)
    requires cfg.Valid()
    ensures SameKey(cfg, a, b) == SameKey(cfg, b, a)
  {
  }

  lemma BreaksMeansDifferent(cfg: Config, a: Line, b: Line)
    requires cfg.Valid() && !cfg.lineMode
    ensures Breaks(cfg, a, b) == Some(false) <==> SameKey(cfg, a, b)
  {
    NotDifferent(cfg, b, a, 0);
    SameKeySymmetric(cfg, a, b);
  }

  lemma {:induction false} InFlatten(rs: seq<seq<Line>>, a: nat, x: Line)
    requires a < |rs| && x in rs[a]
    ensures x in Flatten(rs)
  {
    if a < |rs| - 1 {
      InFlatten(rs[..|rs| - 1], a, x);
    }
  }

  lemma {:induction false} FlattenIn(rs: seq<seq<Line>>, x: Line) returns (a: nat)
    requires x in Flatten(rs)
    ensures a < |rs| && x in rs[a]
  {
    if x in rs[|rs| - 1] {
      a := |rs| - 1;
    } else {
      a := FlattenIn(rs[..|rs| - 1], x);
    }
  }

  /** A new group's key is new, if equal keys are contiguous. */
  lemma NewKey(cfg: Config, ls: seq<Line>, l: Line, x: Line)
    requires cfg.Valid() && !cfg.lineMode && Contiguous(cfg, ls + [l]) && x in ls
    requires Breaks(cfg, ls[|ls| - 1], l) != Some(false)
    ensures !SameKey(cfg, x, l)
  {
    var n := |ls|;
    var all := ls + [l];
    BreaksMeansDifferent(cfg, ls[n - 1], l);
    hide Breaks, Config.Valid;
    if SameKey(cfg, x, l) {
      var i :| 0 <= i < n && ls[i] == x;
      assert all[i] == x && all[n] == l && all[n - 1] == ls[n - 1];
      if i < n - 1 {
        assert SameKey(cfg, all[i], all[n - 1]);
        SameKeySymmetric(cfg, x, ls[n - 1]);
        SameKeyTransitive(cfg, ls[n - 1], x, l);
      }
    }
  }

  /** Each key forms one group when equal keys are contiguous. */
  lemma {:induction false} ContiguousGivesOnce(cfg: Config, ls: seq<Line>)
    requires cfg.Valid() && !cfg.lineMode && Contiguous(cfg, ls)
    ensures KeysOnce(cfg, Runs(cfg, ls))
  {
    if ls != [] {
      var n := |ls| - 1;
      var front, l := ls[..n], ls[n];
      assert ls == front + [l];
      assert Contiguous(cfg, front) by {
        hide SameKey;
        assert forall i :: 0 <= i < n ==> front[i] == ls[i];
      }
      ContiguousGivesOnce(cfg, front);
      OnceStep(cfg, front, l);
    }
  }

  lemma OnceStep(cfg: Config, ls: seq<Line>, l: Line)
    requires cfg.Valid() && !cfg.lineMode && KeysOnce(cfg, Runs(cfg, ls)) && Contiguous(cfg, ls + [l])
    ensures KeysOnce(cfg, Runs(cfg, ls + [l]))
  {
    hide Runs, SameKey, Breaks, Flatten, Config.Valid, Contiguous, Apart, KeysOnce;
    var rs := Runs(cfg, ls);
    OpenRunStep(cfg, ls, l);
    OpenRunAfter(cfg, ls + [l]);
    if ls != [] {
      OpenRun(cfg, ls);
    }
    if ls == [] || Breaks(cfg, ls[|ls| - 1], l) != Some(false) {
      forall a | 0 <= a < |rs| ensures Apart(cfg, rs[a], [l]) {
        NewKeyApart(cfg, ls, l, a);
      }
      OnceAppend(cfg, rs, [l]);
    } else {
      BreaksMeansDifferent(cfg, ls[|ls| - 1], l);
      OnceExtend(cfg, Closed(rs), Open(rs), l, ls[|ls| - 1]);
    }
  }

  lemma NewKeyApart(cfg: Config, ls: seq<Line>, l: Line, a: nat)
    requires cfg.Valid() && !cfg.lineMode && Contiguous(cfg, ls + [l])
    requires ls == [] || Breaks(cfg, ls[|ls| - 1], l) != Some(false)
    requires a < |Runs(cfg, ls)|
    ensures Apart(cfg, Runs(cfg, ls)[a], [l])
  {
    hide Runs, SameKey, Breaks, Flatten, Config.Valid, Contiguous;
    RunsPartition(cfg, ls);
    forall x | x in Runs(cfg, ls)[a] ensures !SameKey(cfg, x, l) {
      InFlatten(Runs(cfg, ls), a, x);
      NewKey(cfg, ls, l, x);
    }
  }

  lemma OnceAppend(cfg: Config, rs: seq<seq<Line>>, g: seq<Line>)
    requires cfg.Valid()
    ensures KeysOnce(cfg, rs + [g]) <==> KeysOnce(cfg, rs) && forall a :: 0 <= a < |rs| ==> Apart(cfg, rs[a], g)
  {
    hide Apart;
    var rs' := rs + [g];
    assert forall a :: 0 <= a < |rs| ==> rs'[a] == rs[a];
    assert rs'[|rs|] == g;
  }

  /** A line with the key of the last group may join it. */
  lemma OnceExtend(cfg: Config, cs: seq<seq<Line>>, g: seq<Line>, l: Line, prev: Line)
    requires cfg.Valid() && prev in g && SameKey(cfg, prev, l)
    ensures KeysOnce(cfg, cs + [g]) <==> KeysOnce(cfg, cs + [g + [l]])
  {
    hide SameKey, Config.Valid, KeysOnce, Apart;
    OnceAppend(cfg, cs, g);
    OnceAppend(cfg, cs, g + [l]);
    forall a | 0 <= a < |cs| ensures Apart(cfg, cs[a], g) <==> Apart(cfg, cs[a], g + [l]) {
      ApartExtend(cfg, cs[a], g, l, prev);
    }
  }

  lemma ApartExtend(cfg: Config, h: seq<Line>, g: seq<Line>, l: Line, prev: Line)
    requires cfg.Valid() && prev in g && SameKey(cfg, prev, l)
    ensures Apart(cfg, h, g) <==> Apart(cfg, h, g + [l])
  {
    hide SameKey, Config.Valid;
    if Apart(cfg, h, g) {
      forall x | x in h ensures !SameKey(cfg, x, l) {
        if SameKey(cfg, x, l) {
          SameKeySymmetric(cfg, prev, l);
          SameKeyTransitive(cfg, x, l, prev);
        }
      }
    } else {
      assert forall y :: y in g ==> y in g + [l];
    }
  }

  lemma OpenRunAfter(cfg: Config, ls: seq<Line>)
    requires cfg.Valid() && ls != []
    ensures Runs(cfg, ls) == Closed(Runs(cfg, ls)) + [Open(Runs(cfg, ls))]
  {
  }

  /** If each key forms one group then equal keys are contiguous. */
  lemma {:induction false} OnceGivesContiguous(cfg: Config, ls: seq<Line>)
    requires cfg.Valid() && !cfg.lineMode && KeysOnce(cfg, Runs(cfg, ls))
    ensures Contiguous(cfg, ls)
  {
    hide Runs, SameKey, Breaks, Flatten, Config.Valid, KeysOnce;
    if ls != [] {
      var n := |ls| - 1;
      var front, l := ls[..n], ls[n];
      assert ls == front + [l];
      OnceShrinks(cfg, front, l);
      OnceGivesContiguous(cfg, front);
      forall i, j, k | 0 <= i < j < k < |ls| && SameKey(cfg, ls[i], ls[k]) ensures SameKey(cfg, ls[i], ls[j]) {
        ContiguousAt(cfg, front, l, i, j, k);
      }
    }
  }

  lemma ContiguousAt(cfg: Config, front: seq<Line>, l: Line, i: nat, j: nat, k: nat)
    requires cfg.Valid() && !cfg.lineMode && KeysOnce(cfg, Runs(cfg, front + [l])) && Contiguous(cfg, front)
    requires i < j < k <= |front| && SameKey(cfg, (front + [l])[i], (front + [l])[k])
    ensures SameKey(cfg, front[i], front[j])
  {
    hide Runs, SameKey, Breaks, Flatten, Config.Valid, KeysOnce;
    if k == |front| {
      SameAsLast(cfg, front, l, i);
    }
  }

  lemma OnceShrinks(cfg: Config, ls: seq<Line>, l: Line)
    requires cfg.Valid() && !cfg.lineMode && KeysOnce(cfg, Runs(cfg, ls + [l]))
    ensures KeysOnce(cfg, Runs(cfg, ls))
  {
    hide Runs, SameKey, Breaks, Flatten, Config.Valid, Apart, KeysOnce;
    OpenRunStep(cfg, ls, l);
    OpenRunAfter(cfg, ls + [l]);
    if ls != [] {
      OpenRun(cfg, ls);
    }
    if ls == [] || Breaks(cfg, ls[|ls| - 1], l) != Some(false) {
      OnceAppend(cfg, Runs(cfg, ls), [l]);
    } else {
      BreaksMeansDifferent(cfg, ls[|ls| - 1], l);
      OnceExtend(cfg, Closed(Runs(cfg, ls)), Open(Runs(cfg, ls)), l, ls[|ls| - 1]);
    }
  }

  /** A line that shares its key with an earlier one shares it with the line before. */
  lemma SameAsLast(cfg: Config, ls: seq<Line>, l: Line, i: nat)
    requires cfg.Valid() && !cfg.lineMode && i < |ls| && KeysOnce(cfg, Runs(cfg, ls + [l]))
    requires SameKey(cfg, ls[i], l)
    ensures SameKey(cfg, ls[i], ls[|ls| - 1])
  {
    hide Runs, SameKey, Breaks, Config.Valid, Flatten, Apart, KeysOnce;
    var rs, prev := Runs(cfg, ls), ls[|ls| - 1];
    RunsPartition(cfg, ls);
    OpenRunStep(cfg, ls, l);
    OpenRunAfter(cfg, ls + [l]);
    BreaksMeansDifferent(cfg, prev, l);
    if Breaks(cfg, prev, l) == Some(false) {
      SameKeySymmetric(cfg, prev, l);
      SameKeyTransitive(cfg, ls[i], l, prev);
    } else {
      var a := FlattenIn(rs, ls[i]);
      OnceAppend(cfg, rs, [l]);
      ApartSays(cfg, rs[a], ls[i], l);
    }
  }

  lemma ApartSays(cfg: Config, g: seq<Line>, x: Line, l: Line)
    requires cfg.Valid() && x in g && Apart(cfg, g, [l])
    ensures !SameKey(cfg, x, l)
  {
    assert l in [l];
  }

  /** Each key is printed exactly once if and only if lines with equal keys are contiguous. */
  lemma OnceIffContiguous(cfg: Config, ls: seq<Line>)
    requires cfg.Valid() && !cfg.lineMode
    ensures KeysOnce(cfg, Runs(cfg, ls)) <==> Contiguous(cfg, ls)
  {
    if Contiguous(cfg, ls) {
      ContiguousGivesOnce(cfg, ls);
    } else if KeysOnce(cfg, Runs(cfg, ls)) {
      OnceGivesContiguous(cfg, ls);
    }
  }

  // --- Groups and keys ---------------------------------------------------------------------

  /** The line has all key columns. */
  predicate HasKeys(cfg: Config, l: Line) {
    forall i :: 0 <= i < |cfg.groups| ==> cfg.groups[i] <= |l|
  }

  /** The lines with the key of x, in input order. */
  function KeyLines(cfg: Config, ls: seq<Line>, x: Line): seq<Line>
    requires cfg.Valid()
  {
    if ls == [] then [] else
    var n := |ls| - 1;
    KeyLines(cfg, ls[..n], x) + if SameKey(cfg, ls[n], x) then [ls[n]] else []
  }

  lemma {:induction false} KeyLinesConcat(cfg: Config, a: seq<Line>, b: seq<Line>, x: Line)
    requires cfg.Valid()
    ensures KeyLines(cfg, a + b, x) == KeyLines(cfg, a, x) + KeyLines(cfg, b, x)
  {
    hide SameKey, Config.Valid;
    if b == [] {
      assert a + b == a;
    } else {
      assert (a + b)[..|a + b| - 1] == a + b[..|b| - 1];
      KeyLinesConcat(cfg, a, b[..|b| - 1], x);
    }
  }

  lemma {:induction false} KeyLinesUniform(cfg: Config, ls: seq<Line>, x: Line)
    requires cfg.Valid()
    ensures (forall y :: y in ls ==> SameKey(cfg, y, x)) ==> KeyLines(cfg, ls, x) == ls
    ensures (forall y :: y in ls ==> !SameKey(cfg, y, x)) ==> KeyLines(cfg, ls, x) == []
  {
    hide SameKey, Config.Valid;
    if ls != [] {
      var n := |ls| - 1;
      KeyLinesUniform(cfg, ls[..n], x);
      assert ls[n] in ls && forall y :: y in ls[..n] ==> y in ls;
      assert ls == ls[..n] + [ls[n]];
    }
  }

  lemma RunSharesKey(cfg: Config, g: seq<Line>, x: Line, y: Line)
    requires cfg.Valid() && !cfg.lineMode && Unbroken(cfg, g) && x in g && y in g && HasKeys(cfg, x)
    ensures SameKey(cfg, y, x)
  {
    var i :| 0 <= i < |g| && g[i] == x;
    var j :| 0 <= j < |g| && g[j] == y;
    if i != j {
      hide SameKey, Config.Valid, Unbroken, HasKeys;
      RunHasOneKey(cfg, g, MinOf(i, j), MaxOf(i, j));
    }
  }

  lemma KeyLinesOfRun(cfg: Config, g: seq<Line>, x: Line)
    requires cfg.Valid() && !cfg.lineMode && Unbroken(cfg, g) && x in g && HasKeys(cfg, x)
    ensures KeyLines(cfg, g, x) == g
  {
    hide SameKey, Config.Valid, Unbroken, HasKeys, KeyLines;
    forall y | y in g ensures SameKey(cfg, y, x) {
      RunSharesKey(cfg, g, x, y);
    }
    KeyLinesUniform(cfg, g, x);
  }

  lemma KeyLinesApart(cfg: Config, g: seq<Line>, h: seq<Line>, x: Line)
    requires cfg.Valid() && (Apart(cfg, g, h) || Apart(cfg, h, g)) && x in h
    ensures KeyLines(cfg, g, x) == []
  {
    hide SameKey, Config.Valid, KeyLines;
    forall y | y in g ensures !SameKey(cfg, y, x) {
      SameKeySymmetric(cfg, x, y);
    }
    KeyLinesUniform(cfg, g, x);
  }

  lemma OnceInit(cfg: Config, rs: seq<seq<Line>>)
    requires cfg.Valid() && rs != [] && KeysOnce(cfg, rs)
    ensures KeysOnce(cfg, rs[..|rs| - 1])
    ensures forall a :: 0 <= a < |rs| - 1 ==> Apart(cfg, rs[a], rs[|rs| - 1])
  {
    hide Apart, Config.Valid;
    assert forall a :: 0 <= a < |rs| - 1 ==> rs[..|rs| - 1][a] == rs[a];
  }

  /** Among groups that each have a key of their own, the lines with the key of x are its group, or
      none if its group is not among them. */
  lemma {:induction false} KeyLinesOfRuns(cfg: Config, rs: seq<seq<Line>>, g: seq<Line>, x: Line)
    requires cfg.Valid() && !cfg.lineMode && KeysOnce(cfg, rs) && x in g && HasKeys(cfg, x) && Unbroken(cfg, g)
    requires g in rs || forall a :: 0 <= a < |rs| ==> Apart(cfg, rs[a], g)
    ensures KeyLines(cfg, Flatten(rs), x) == if g in rs then g else []
  {
    if rs != [] {
      var (init, last) := (rs[..|rs| - 1], rs[|rs| - 1]);
      assert rs == init + [last];
      hide SameKey, Config.Valid, Unbroken, HasKeys, KeyLines, Apart, KeysOnce;
      OnceInit(cfg, rs);
      FlattenSnoc(init, last);
      KeyLinesConcat(cfg, Flatten(init), last, x);
      if last == g {
        KeyLinesOfRun(cfg, g, x);
        KeyLinesOfRuns(cfg, init, g, x);
        if g in init {
          SelfApart(cfg, g, x);
        }
      } else {
        KeyLinesApart(cfg, last, g, x);
        KeyLinesOfRuns(cfg, init, g, x);
      }
    }
  }

  lemma SelfApart(cfg: Config, g: seq<Line>, x: Line)
    requires cfg.Valid() && x in g && HasKeys(cfg, x)
    ensures !Apart(cfg, g, g)
  {
    assert SameKey(cfg, x, x);
  }

  /** If equal keys are contiguous, every group consists of all lines of the input with its key. */
  lemma GroupIsKeyLines(cfg: Config, ls: seq<Line>, k: nat, x: Line)
    requires cfg.Valid() && !cfg.lineMode && Contiguous(cfg, ls)
    requires k < |Runs(cfg, ls)| && x in Runs(cfg, ls)[k] && HasKeys(cfg, x)
    ensures Runs(cfg, ls)[k] == KeyLines(cfg, ls, x)
  {
    hide Runs, SameKey, Config.Valid, HasKeys, KeyLines, Contiguous;
    RunsPartition(cfg, ls);
    ContiguousGivesOnce(cfg, ls);
    KeyLinesOfRuns(cfg, Runs(cfg, ls), Runs(cfg, ls)[k], x);
  }

  // --- Cells -------------------------------------------------------------------------------

  /** Every cell a group prints is the statistic of its own column of the group's lines, with the
      subordinate's column as the other one. */
  lemma CellIsStatistic(cfg: Config, g: seq<Line>, i: nat)
    requires cfg.Valid() && i < |cfg.ops|
    requires StringVector.NulFree(Kept(cfg.env, Column(g, cfg.ops[i].field)))
    ensures var (op, ss) := (cfg.ops[i].op, Kept(cfg.env, Column(g, cfg.ops[i].field)));
      var ys := if cfg.IsPrimary(i)
                then Inputs(cfg.env, op, Kept(cfg.env, Column(g, cfg.ops[i - 1].field))) else [];
      IsStatistic(cfg.env, op, ss, Inputs(cfg.env, op, ss), ys, ResultOf(cfg, g, i))
  {
    var op, ts := cfg.ops[i].op, Column(g, cfg.ops[i].field);
    AccReady(cfg, g, i);
    if cfg.IsPrimary(i) {
      PairValues(cfg.env, op, Column(g, cfg.ops[i - 1].field));
    }
    hide Fold, Kept, Column, IsStatistic, Summary;
    SummaryIsStatistic(cfg.env, op, ts, if cfg.IsPrimary(i) then AccOf(cfg, g, i - 1).values else []);
  }

  /** Without --narm a pair never fails, so printing a group only needs its key columns. */
  lemma {:induction false} ResultsNeverFail(cfg: Config, g: seq<Line>, i: nat)
    requires cfg.Valid() && i <= |cfg.ops| && !cfg.env.narm
    requires forall j :: 0 <= j < |cfg.ops| ==> StringVector.NulFree(Column(g, cfg.ops[j].field))
    ensures ResultTokens(cfg, g, i).Some?
    decreases |cfg.ops| - i
  {
    if i < |cfg.ops| {
      ResultsNeverFail(cfg, g, i + 1);
      if !cfg.ops[i].subordinate {
        CellNeverFails(cfg, g, i);
      }
      hide ResultOf;
    }
  }

  lemma CellNeverFails(cfg: Config, g: seq<Line>, i: nat)
    requires cfg.Valid() && i < |cfg.ops| && !cfg.env.narm && !cfg.ops[i].subordinate
    requires StringVector.NulFree(Column(g, cfg.ops[i].field))
    ensures ResultOf(cfg, g, i).Some?
  {
    var op, ts := cfg.ops[i].op, Column(g, cfg.ops[i].field);
    var us := if cfg.IsPrimary(i) then Column(g, cfg.ops[i - 1].field) else ts;
    PairsAligned(cfg.env, op, ts, us);
    AccReady(cfg, g, i);
    hide Fold, Column, Summary;
    if !op.Pair() {
      SingleNeverFails(cfg.env, op, Fold(cfg.env, op, ts), []);
    }
  }

  lemma SingleNeverFails(env: Env, op: Op, a: Acc, ys: seq<real>)
    requires op.Valid() && !op.Pair() && (a.count > 0 ==> CanSummarize(op, a))
    ensures Summary(env, op, a, ys).Some?
  {
  }
}
