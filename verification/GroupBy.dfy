/** The batch meaning of datamash's group-by mode: runs of lines with equal keys, each folded. */
module GroupBy {
  import opened Text
  import opened FieldOps
  import StringVector
  import Order = OrderStatistics

  /** The fields of one input line. */
  type Line = seq<string>

  /** One requested operation: struct fieldop before any data. */
  datatype OpSpec = OpSpec(op: Op, field: nat, subordinate: bool)

  datatype Config = Config(
    env: Env,
    full: bool,            // --full
    lineMode: bool,        // every line is its own group
    groups: seq<nat>,      // the key columns
    ops: seq<OpSpec>)
  {
    /** What the operation parser guarantees of a configuration. */
    ghost predicate Valid() {
      && env.separator != NUL
      && |ops| > 0 && !ops[|ops| - 1].subordinate
      && (forall i :: 0 <= i < |groups| ==> groups[i] > 0)
      && (forall i :: 0 <= i < |ops| ==> ops[i].op.Valid() && ops[i].field > 0)
      && (forall i :: 0 <= i < |ops| && IsPrimary(i) ==> i > 0 && ops[i - 1].subordinate && ops[i - 1].op == ops[i].op)
    }

    /** Operation i uses the one before it as its other column. */
    predicate IsPrimary(i: nat)
      requires i < |ops|
    {
      ops[i].op.Pair() && !ops[i].subordinate
    }
  }

  // --- Keys --------------------------------------------------------------------------------

  /** `different` from key i on; None: one of the lines lacks the column, a fatal error. */
  function Differs(cfg: Config, a: Line, b: Line, i: nat): Option<bool>
    requires cfg.Valid() && i <= |cfg.groups|
    decreases |cfg.groups| - i
  {
    if i == |cfg.groups| then Some(false) else
    var c := cfg.groups[i];
    if c > |a| || c > |b| then None
    else if !StringVector.Same(a[c - 1], b[c - 1], cfg.env.caseSensitive) then Some(true)
    else Differs(cfg, a, b, i + 1)
  }

  /** Does line b start a new group after line a? */
  function Breaks(cfg: Config, a: Line, b: Line): Option<bool>
    requires cfg.Valid()
  {
    if cfg.lineMode then Some(true) else Differs(cfg, b, a, 0)
  }

  /** The two lines have all key columns, with equal values. */
  predicate SameKey(cfg: Config, a: Line, b: Line)
    requires cfg.Valid()
  {
    forall i :: 0 <= i < |cfg.groups| ==>
      var c := cfg.groups[i];
      c <= |a| && c <= |b| && StringVector.Same(a[c - 1], b[c - 1], cfg.env.caseSensitive)
  }

  lemma {:induction false} NotDifferent(cfg: Config, a: Line, b: Line, i: nat)
    requires cfg.Valid() && i <= |cfg.groups|
    ensures Differs(cfg, a, b, i) == Some(false) <==>
      forall k :: i <= k < |cfg.groups| ==>
        var c := cfg.groups[k];
        c <= |a| && c <= |b| && StringVector.Same(a[c - 1], b[c - 1], cfg.env.caseSensitive)
    decreases |cfg.groups| - i
  {
    if i < |cfg.groups| {
      NotDifferent(cfg, a, b, i + 1);
    }
  }

  /** Both lines have key column i, with equal values. */
  predicate SameAt(cfg: Config, a: Line, b: Line, i: nat)
    requires cfg.Valid() && i < |cfg.groups|
  {
    var c := cfg.groups[i];
    c <= |a| && c <= |b| && StringVector.Same(a[c - 1], b[c - 1], cfg.env.caseSensitive)
  }

  /** The first key column in which the lines are not equal decides: lacking it is fatal, another
      value starts a new group. */
  lemma {:induction false} FirstDifference(cfg: Config, a: Line, b: Line, from: nat, i: nat)
    requires cfg.Valid() && from <= i < |cfg.groups|
    requires !SameAt(cfg, a, b, i) && forall k :: from <= k < i ==> SameAt(cfg, a, b, k)
    ensures var c := cfg.groups[i];
      Differs(cfg, a, b, from) == if c <= |a| && c <= |b| then Some(true) else None
    decreases i - from
  {
    hide StringVector.Same;
    if from < i {
      assert SameAt(cfg, a, b, from);
      FirstDifference(cfg, a, b, from + 1, i);
    }
  }

  /** Whichever line of a group represents it, the comparison with the next line comes out the
      same: key equality, case-insensitive too, is an equivalence. */
  lemma {:induction false} RepresentativeIrrelevant(cfg: Config, a: Line, a': Line, b: Line, i: nat)
    requires cfg.Valid() && i <= |cfg.groups| && SameKey(cfg, a, a')
    ensures Differs(cfg, b, a, i) == Differs(cfg, b, a', i)
    decreases |cfg.groups| - i
  {
    if i < |cfg.groups| {
      RepresentativeIrrelevant(cfg, a, a', b, i + 1);
    }
  }

  lemma SameKeyTransitive(cfg: Config, a: Line, b: Line, c: Line)
    requires cfg.Valid() && SameKey(cfg, a, b) && SameKey(cfg, b, c)
    ensures SameKey(cfg, a, c) && SameKey(cfg, b, a)
  {
  }

  // --- Runs --------------------------------------------------------------------------------

  predicate NonEmptyRuns(rs: seq<seq<Line>>) {
    forall k :: 0 <= k < |rs| ==> rs[k] != []
  }

  /** The lines split where the key changes. */
  function Runs(cfg: Config, ls: seq<Line>): (rs: seq<seq<Line>>)
    requires cfg.Valid()
    ensures |rs| == 0 <==> ls == []
    ensures NonEmptyRuns(rs)
  {
    if ls == [] then [] else
    var n := |ls| - 1;
    var rs := Runs(cfg, ls[..n]);
    if n == 0 || Breaks(cfg, ls[n - 1], ls[n]) != Some(false) then rs + [[ls[n]]]
    else rs[..|rs| - 1] + [rs[|rs| - 1] + [ls[n]]]
  }

  function Flatten(rs: seq<seq<Line>>): seq<Line> {
    if rs == [] then [] else Flatten(rs[..|rs| - 1]) + rs[|rs| - 1]
  }

  /** No line of the run starts a new group. */
  ghost predicate Unbroken(cfg: Config, g: seq<Line>)
    requires cfg.Valid()
  {
    g != [] && forall i :: 0 < i < |g| ==> Breaks(cfg, g[i - 1], g[i]) == Some(false)
  }

  /** Every run but the first starts a new group. */
  ghost predicate Broken(cfg: Config, rs: seq<seq<Line>>)
    requires cfg.Valid() && NonEmptyRuns(rs)
  {
    forall k :: 0 < k < |rs| ==> Breaks(cfg, rs[k - 1][|rs[k - 1]| - 1], rs[k][0]) != Some(false)
  }

  /** rs is the partition of ls into maximal runs. */
  ghost predicate IsPartition(cfg: Config, rs: seq<seq<Line>>, ls: seq<Line>)
    requires cfg.Valid()
  {
    && Flatten(rs) == ls
    && NonEmptyRuns(rs)
    && (forall k :: 0 <= k < |rs| ==> Unbroken(cfg, rs[k]))
    && Broken(cfg, rs)
  }

  lemma FlattenSnoc(rs: seq<seq<Line>>, g: seq<Line>)
    ensures Flatten(rs + [g]) == Flatten(rs) + g
  {
    assert (rs + [g])[..|rs|] == rs;
  }

  lemma {:induction false} FlattenLast(rs: seq<seq<Line>>)
    requires rs != [] && rs[|rs| - 1] != []
    ensures var g := rs[|rs| - 1];
      Flatten(rs) != [] && Flatten(rs)[|Flatten(rs)| - 1] == g[|g| - 1]
  {
  }

  /** Runs computes a partition into maximal runs ... */
  lemma {:induction false} RunsPartition(cfg: Config, ls: seq<Line>)
    requires cfg.Valid()
    ensures IsPartition(cfg, Runs(cfg, ls), ls)
  {
    hide *;
    if ls == [] {
      NoRuns(cfg);
    } else {
      var n := |ls| - 1;
      RunsUnfold(cfg, ls);
      RunsSize(cfg, ls[..n]);
      RunsPartition(cfg, ls[..n]);
      assert ls == ls[..n] + [ls[n]];
      RunsStep(cfg, ls[..n], Runs(cfg, ls[..n]), ls[n]);
    }
  }

  lemma NoRuns(cfg: Config)
    requires cfg.Valid()
    ensures IsPartition(cfg, Runs(cfg, []), [])
  {
    hide Config.Valid;
  }

  lemma RunsSize(cfg: Config, ls: seq<Line>)
    requires cfg.Valid()
    ensures Runs(cfg, ls) == [] <==> ls == []
  {
    hide *;
    assert |Runs(cfg, ls)| == 0 <==> ls == [];
  }

  /** How one more line changes a partition. */
  function Extend(cfg: Config, ls: seq<Line>, rs: seq<seq<Line>>, l: Line): seq<seq<Line>>
    requires cfg.Valid() && (ls == [] <==> rs == [])
  {
    if ls == [] || Breaks(cfg, ls[|ls| - 1], l) != Some(false) then rs + [[l]]
    else rs[..|rs| - 1] + [rs[|rs| - 1] + [l]]
  }

  lemma RunsStep(cfg: Config, ls: seq<Line>, rs: seq<seq<Line>>, l: Line)
    requires cfg.Valid() && (ls == [] <==> rs == []) && IsPartition(cfg, rs, ls)
    ensures IsPartition(cfg, Extend(cfg, ls, rs, l), ls + [l])
  {
    hide Breaks, Flatten;
    if ls == [] {
      FlattenSnoc([], [l]);
      assert rs + [[l]] == [] + [[l]];
      FlattenEmpty();
    } else {
      FlattenLast(rs);
      if Breaks(cfg, ls[|ls| - 1], l) != Some(false) {
        FlattenSnoc(rs, [l]);
      } else {
        var m := |rs| - 1;
        assert rs == rs[..m] + [rs[m]];
        FlattenSnoc(rs[..m], rs[m]);
        FlattenSnoc(rs[..m], rs[m] + [l]);
        ExtendLast(cfg, rs, l);
      }
    }
  }

  lemma FlattenEmpty()
    ensures Flatten([]) == []
  {
  }

  lemma ExtendLast(cfg: Config, rs: seq<seq<Line>>, l: Line)
    requires cfg.Valid() && rs != [] && NonEmptyRuns(rs)
    requires (forall k :: 0 <= k < |rs| ==> Unbroken(cfg, rs[k])) && Broken(cfg, rs)
    requires var g := rs[|rs| - 1]; Breaks(cfg, g[|g| - 1], l) == Some(false)
    ensures var rs' := rs[..|rs| - 1] + [rs[|rs| - 1] + [l]];
      NonEmptyRuns(rs') && (forall k :: 0 <= k < |rs'| ==> Unbroken(cfg, rs'[k])) && Broken(cfg, rs')
  {
    hide Breaks;
    var m := |rs| - 1;
    assert Unbroken(cfg, rs[m]);
    assert Unbroken(cfg, rs[m] + [l]);
  }

  /** The partition of all lines but the last that a partition leaves. */
  function Shrink(rs: seq<seq<Line>>): seq<seq<Line>>
    requires rs != [] && NonEmptyRuns(rs)
  {
    var m := |rs| - 1;
    var g := rs[m];
    if |g| == 1 then rs[..m] else rs[..m] + [g[..|g| - 1]]
  }

  lemma ShrinkPartition(cfg: Config, rs: seq<seq<Line>>, ls: seq<Line>)
    requires cfg.Valid() && IsPartition(cfg, rs, ls) && rs != []
    ensures ls != [] && IsPartition(cfg, Shrink(rs), ls[..|ls| - 1])
    ensures ls == ls[..|ls| - 1] + [ls[|ls| - 1]]
  {
    hide Breaks, Flatten;
    var m := |rs| - 1;
    var g := rs[m];
    var front := g[..|g| - 1];
    assert rs == rs[..m] + [g] && Unbroken(cfg, g);
    FlattenSnoc(rs[..m], g);
    if |g| > 1 {
      FlattenSnoc(rs[..m], front);
      assert Unbroken(cfg, front);
      assert Flatten(Shrink(rs)) == ls[..|ls| - 1];
    } else {
      assert Flatten(Shrink(rs)) == ls[..|ls| - 1];
    }
  }

  lemma ShrinkExtend(cfg: Config, rs: seq<seq<Line>>, ls: seq<Line>)
    requires cfg.Valid() && IsPartition(cfg, rs, ls) && rs != [] && ls != []
    requires IsPartition(cfg, Shrink(rs), ls[..|ls| - 1])
    requires ls[..|ls| - 1] == [] <==> Shrink(rs) == []
    ensures Extend(cfg, ls[..|ls| - 1], Shrink(rs), ls[|ls| - 1]) == rs
  {
    hide *;
    PartitionEnds(cfg, rs, ls);
    if Shrink(rs) != [] {
      PartitionEnds(cfg, Shrink(rs), ls[..|ls| - 1]);
    }
    if |rs[|rs| - 1]| == 1 {
      LastRunAlone(cfg, rs);
      ExtendNew(cfg, ls[..|ls| - 1], Shrink(rs), ls[|ls| - 1]);
    } else {
      LastRunLonger(cfg, rs);
      ExtendOld(cfg, ls[..|ls| - 1], Shrink(rs), ls[|ls| - 1]);
    }
  }

  lemma ExtendNew(cfg: Config, ls: seq<Line>, rs: seq<seq<Line>>, l: Line)
    requires cfg.Valid() && (ls == [] <==> rs == []) && (ls == [] || Breaks(cfg, ls[|ls| - 1], l) != Some(false))
    ensures Extend(cfg, ls, rs, l) == rs + [[l]]
  {
    hide Breaks, Config.Valid;
  }

  lemma ExtendOld(cfg: Config, ls: seq<Line>, rs: seq<seq<Line>>, l: Line)
    requires cfg.Valid() && ls != [] && rs != [] && Breaks(cfg, ls[|ls| - 1], l) == Some(false)
    ensures Extend(cfg, ls, rs, l) == rs[..|rs| - 1] + [rs[|rs| - 1] + [l]]
  {
    hide Breaks, Config.Valid;
  }

  lemma PartitionEnds(cfg: Config, rs: seq<seq<Line>>, ls: seq<Line>)
    requires cfg.Valid() && IsPartition(cfg, rs, ls) && rs != []
    ensures var g := rs[|rs| - 1];
      && g != [] && ls != [] && ls[|ls| - 1] == g[|g| - 1] && Unbroken(cfg, g) && Broken(cfg, rs) && NonEmptyRuns(rs)
  {
    FlattenLast(rs);
    hide Breaks, Flatten, Config.Valid;
  }

  lemma LastRunAlone(cfg: Config, rs: seq<seq<Line>>)
    requires cfg.Valid() && rs != [] && NonEmptyRuns(rs) && Broken(cfg, rs) && |rs[|rs| - 1]| == 1
    ensures var m := |rs| - 1;
      && Shrink(rs) == rs[..m] && rs == rs[..m] + [[rs[m][0]]]
      && (m > 0 ==> Breaks(cfg, rs[m - 1][|rs[m - 1]| - 1], rs[m][0]) != Some(false))
  {
    hide Breaks, Config.Valid;
    assert rs[|rs| - 1] == [rs[|rs| - 1][0]];
  }

  lemma LastRunLonger(cfg: Config, rs: seq<seq<Line>>)
    requires cfg.Valid() && rs != [] && NonEmptyRuns(rs) && Unbroken(cfg, rs[|rs| - 1]) && |rs[|rs| - 1]| > 1
    ensures var (m, g) := (|rs| - 1, rs[|rs| - 1]);
      && Shrink(rs) == rs[..m] + [g[..|g| - 1]] && rs == rs[..m] + [g[..|g| - 1] + [g[|g| - 1]]]
      && Breaks(cfg, g[|g| - 2], g[|g| - 1]) == Some(false)
  {
    hide Breaks, Config.Valid;
    var g := rs[|rs| - 1];
    assert g == g[..|g| - 1] + [g[|g| - 1]];
  }

  lemma PartitionEmpty(cfg: Config, rs: seq<seq<Line>>, ls: seq<Line>)
    requires cfg.Valid() && IsPartition(cfg, rs, ls)
    ensures ls == [] <==> rs == []
  {
    if rs != [] {
      FlattenLast(rs);
    }
  }

  /** ... and it is the only one. */
  lemma {:induction false} PartitionUnique(cfg: Config, rs: seq<seq<Line>>, ls: seq<Line>)
    requires cfg.Valid() && IsPartition(cfg, rs, ls)
    ensures rs == Runs(cfg, ls)
    decreases |ls|
  {
    PartitionEmpty(cfg, rs, ls);
    if rs != [] {
      ShrinkPartition(cfg, rs, ls);
      PartitionEmpty(cfg, Shrink(rs), ls[..|ls| - 1]);
      ShrinkExtend(cfg, rs, ls);
      RunsUnfold(cfg, ls);
      hide *;
      PartitionUnique(cfg, Shrink(rs), ls[..|ls| - 1]);
    }
  }

  lemma RunsUnfold(cfg: Config, ls: seq<Line>)
    requires cfg.Valid() && ls != []
    ensures var n := |ls| - 1; Runs(cfg, ls) == Extend(cfg, ls[..n], Runs(cfg, ls[..n]), ls[n])
  {
    hide Breaks, Config.Valid, NonEmptyRuns;
    var n := |ls| - 1;
    assert n > 0 ==> ls[..n][n - 1] == ls[n - 1];
  }

  /** In group mode all lines of a run have the same key, not only neighbours. */
  lemma {:induction false} RunHasOneKey(cfg: Config, g: seq<Line>, i: nat, j: nat)
    requires cfg.Valid() && !cfg.lineMode && Unbroken(cfg, g) && i < j < |g|
    ensures SameKey(cfg, g[i], g[j]) && SameKey(cfg, g[j], g[i])
    decreases j
  {
    NotDifferent(cfg, g[j], g[j - 1], 0);
    assert Breaks(cfg, g[j - 1], g[j]) == Some(false);
    hide Breaks, StringVector.Same, Config.Valid, SameKey;
    if i < j - 1 {
      RunHasOneKey(cfg, g, i, j - 1);
      SameKeyTransitive(cfg, g[j], g[j - 1], g[i]);
    }
  }

  // --- One group ---------------------------------------------------------------------------

  /** The texts an operation reads from the lines of a group. */
  function Column(g: seq<Line>, field: nat): (ts: seq<string>)
    requires field > 0
    ensures |ts| == |g|
    ensures forall k :: 0 <= k < |g| && field <= |g[k]| ==> ts[k] == g[k][field - 1]
  {
    if g == [] then [] else
    var n := |g| - 1;
    Column(g[..n], field) + [if field <= |g[n]| then g[n][field - 1] else ""]
  }

  /** The line has every requested column and every operation can read its field. */
  predicate LineOk(cfg: Config, l: Line)
    requires cfg.Valid()
  {
    forall i :: 0 <= i < |cfg.ops| ==> OpOk(cfg, l, i)
  }

  predicate OpOk(cfg: Config, l: Line, i: nat)
    requires cfg.Valid() && i < |cfg.ops|
  {
    cfg.ops[i].field <= |l| && Accepts(cfg.env, cfg.ops[i].op, l[cfg.ops[i].field - 1])
  }

  predicate LinesOk(cfg: Config, ls: seq<Line>)
    requires cfg.Valid()
  {
    forall k :: 0 <= k < |ls| ==> LineOk(cfg, ls[k])
  }

  /** The accumulator of operation i over the lines of a group. */
  function AccOf(cfg: Config, g: seq<Line>, i: nat): Acc
    requires cfg.Valid() && i < |cfg.ops|
  {
    Fold(cfg.env, cfg.ops[i].op, Column(g, cfg.ops[i].field))
  }

  /** The accumulator after one more line. */
  function StepAcc(cfg: Config, a: Acc, l: Line, i: nat): Acc
    requires cfg.Valid() && i < |cfg.ops| && OpOk(cfg, l, i) && RangeReady(cfg.ops[i].op, a)
  {
    var (op, t) := (cfg.ops[i].op, l[cfg.ops[i].field - 1]);
    if Skips(cfg.env, t) then a else Store(op, a, Input(cfg.env, op, t), t)
  }

  lemma AccSnoc(cfg: Config, g: seq<Line>, l: Line, i: nat)
    requires cfg.Valid() && i < |cfg.ops| && OpOk(cfg, l, i)
    ensures RangeReady(cfg.ops[i].op, AccOf(cfg, g, i))
    ensures AccOf(cfg, g + [l], i) == StepAcc(cfg, AccOf(cfg, g, i), l, i)
  {
    var f := cfg.ops[i].field;
    assert (g + [l])[..|g|] == g;
    assert Column(g + [l], f) == Column(g, f) + [l[f - 1]];
    var ts := Column(g, f);
    assert (ts + [l[f - 1]])[..|ts|] == ts;
  }

  lemma AccEmpty(cfg: Config, i: nat)
    requires cfg.Valid() && i < |cfg.ops|
    ensures AccOf(cfg, [], i) == EMPTY
  {
  }

  /** Operation i wants this line to represent the group. */
  predicate KeepsLine(cfg: Config, a: Acc, l: Line, i: nat)
    requires cfg.Valid() && i < |cfg.ops| && OpOk(cfg, l, i)
  {
    var (op, t) := (cfg.ops[i].op, l[cfg.ops[i].field - 1]);
    var x := Input(cfg.env, op, t);
    !Skips(cfg.env, t) && Keeps(op, a.first, Start(op, a, x), x)
  }

  /** The line process_file keeps for a group: the first one, until an operation asks for another. */
  function Representative(cfg: Config, g: seq<Line>): (l: Line)
    requires cfg.Valid() && g != [] && LinesOk(cfg, g)
    ensures l in g
  {
    var n := |g| - 1;
    if n == 0 then g[0]
    else if exists i :: 0 <= i < |cfg.ops| && KeepsLine(cfg, AccOf(cfg, g[..n], i), g[n], i) then g[n]
    else Representative(cfg, g[..n])
  }

  // --- Which operations print a cell -------------------------------------------------------

  /** The operations that print a cell, in order: those that are not subordinate. */
  ghost predicate PrintedOps(cfg: Config, ps: seq<nat>, i: nat) {
    && (forall k :: 0 <= k < |ps| ==> i <= ps[k] < |cfg.ops| && !cfg.ops[ps[k]].subordinate)
    && (forall k, m :: 0 <= k < m < |ps| ==> ps[k] < ps[m])
    && (forall j :: i <= j < |cfg.ops| && !cfg.ops[j].subordinate ==> j in ps)
  }

  lemma LastNotSubordinate(cfg: Config)
    requires cfg.Valid()
    ensures |cfg.ops| > 0 && !cfg.ops[|cfg.ops| - 1].subordinate
  {
  }

  lemma LastPrints(cfg: Config, ps: seq<nat>, i: nat)
    requires cfg.Valid() && i < |cfg.ops| && PrintedOps(cfg, ps, i)
    ensures ps != [] && ps[|ps| - 1] == |cfg.ops| - 1
    ensures cfg.ops[i].subordinate ==> PrintedOps(cfg, ps, i + 1)
    ensures !cfg.ops[i].subordinate ==> ps[0] == i && PrintedOps(cfg, ps[1..], i + 1)
    ensures i + 1 == |cfg.ops| ==> |ps| == 1
  {
    var last := |cfg.ops| - 1;
    assert !cfg.ops[last].subordinate && last in ps;
    hide Config.Valid;
    var k :| 0 <= k < |ps| && ps[k] == last;
    EndsBound(ps, k);
    if !cfg.ops[i].subordinate {
      HeadPrints(cfg, ps, i);
    }
    assert |ps| > 1 ==> ps[0] < ps[1];
  }

  lemma EndsBound(ps: seq<nat>, k: nat)
    requires k < |ps| && forall k, m :: 0 <= k < m < |ps| ==> ps[k] < ps[m]
    ensures ps[0] <= ps[k] <= ps[|ps| - 1]
  {
  }

  lemma HeadPrints(cfg: Config, ps: seq<nat>, i: nat)
    requires i < |cfg.ops| && PrintedOps(cfg, ps, i) && !cfg.ops[i].subordinate
    ensures ps != [] && ps[0] == i && PrintedOps(cfg, ps[1..], i + 1)
  {
    assert i in ps;
    var m :| 0 <= m < |ps| && ps[m] == i;
    EndsBound(ps, m);
    forall j | i + 1 <= j < |cfg.ops| && !cfg.ops[j].subordinate ensures j in ps[1..] {
      assert j in ps;
      var n :| 0 <= n < |ps| && ps[n] == j;
      assert ps[1..][n - 1] == j;
    }
  }

  lemma PrintedInside(cfg: Config, ps: seq<nat>, i: nat)
    requires PrintedOps(cfg, ps, i)
    ensures forall k :: 0 <= k < |ps| ==> ps[k] < |cfg.ops|
  {
  }

  /** The operations that print a cell. */
  function PrintedList(cfg: Config, n: nat): (ps: seq<nat>)
    requires n <= |cfg.ops|
    ensures forall k :: 0 <= k < |ps| ==> ps[k] < n && !cfg.ops[ps[k]].subordinate
    ensures forall k, m :: 0 <= k < m < |ps| ==> ps[k] < ps[m]
    ensures forall j :: 0 <= j < n && !cfg.ops[j].subordinate ==> j in ps
  {
    if n == 0 then [] else PrintedList(cfg, n - 1) + if cfg.ops[n - 1].subordinate then [] else [n - 1]
  }

  lemma PrintedListPrints(cfg: Config)
    ensures PrintedOps(cfg, PrintedList(cfg, |cfg.ops|), 0)
  {
  }

  // --- What a group prints -----------------------------------------------------------------

  datatype Token = Text(s: string) | Value(cell: Cell) | Tab | Eol

  /** print_input_line: with --full every field, otherwise the keys; None if a key column is missing. */
  function KeyTokens(cfg: Config, l: Line, i: nat): Option<seq<Token>>
    requires cfg.Valid() && i <= |cfg.groups|
    decreases |cfg.groups| - i
  {
    if i == |cfg.groups| then Some([]) else
    if cfg.groups[i] > |l| then None else
    Prepend([Text(l[cfg.groups[i] - 1]), Tab], KeyTokens(cfg, l, i + 1))
  }

  function FullTokens(l: Line): seq<Token> {
    if l == [] then [] else [Text(l[0]), Tab] + FullTokens(l[1..])
  }

  /** With --full a record starts with all fields of the line. */
  lemma {:induction false} FullTokensAre(l: Line)
    ensures var r := FullTokens(l);
      |r| == 2 * |l| && forall k :: 0 <= k < |l| ==> r[2 * k] == Text(l[k]) && r[2 * k + 1] == Tab
  {
    if l != [] {
      FullTokensAre(l[1..]);
      var (r, rest) := (FullTokens(l), FullTokens(l[1..]));
      forall k | 0 <= k < |l| ensures r[2 * k] == Text(l[k]) && r[2 * k + 1] == Tab {
        if k > 0 {
          assert r[2 * k] == rest[2 * (k - 1)] && r[2 * k + 1] == rest[2 * (k - 1) + 1];
        }
      }
    }
  }

  function LineTokens(cfg: Config, l: Line): Option<seq<Token>>
    requires cfg.Valid()
  {
    if cfg.full then Some(FullTokens(l)) else KeyTokens(cfg, l, 0)
  }

  /** The result of operation i over the group. */
  function ResultOf(cfg: Config, g: seq<Line>, i: nat): Option<Cell>
    requires cfg.Valid() && i < |cfg.ops|
  {
    var a := AccOf(cfg, g, i);
    AccReady(cfg, g, i);
    Summary(cfg.env, cfg.ops[i].op, a, if cfg.IsPrimary(i) then AccOf(cfg, g, i - 1).values else [])
  }

  lemma AccReady(cfg: Config, g: seq<Line>, i: nat)
    requires cfg.Valid() && i < |cfg.ops|
    ensures var a := AccOf(cfg, g, i); a.count > 0 ==> CanSummarize(cfg.ops[i].op, a)
  {
    var (op, ts) := (cfg.ops[i].op, Column(g, cfg.ops[i].field));
    FoldMeaning(cfg.env, op, ts);
  }

  /** summarize_field_ops from operation i on. */
  function ResultTokens(cfg: Config, g: seq<Line>, i: nat): Option<seq<Token>>
    requires cfg.Valid() && i <= |cfg.ops|
    decreases |cfg.ops| - i
  {
    if i == |cfg.ops| then Some([Eol])
    else if cfg.ops[i].subordinate then ResultTokens(cfg, g, i + 1)
    else match ResultOf(cfg, g, i)
      case None => None
      case Some(cell) =>
        Prepend([Value(cell)] + (if i != |cfg.ops| - 1 then [Tab] else []), ResultTokens(cfg, g, i + 1))
  }

  lemma ResultTokensEnd(cfg: Config, g: seq<Line>)
    requires cfg.Valid()
    ensures ResultTokens(cfg, g, |cfg.ops|) == Some([Eol])
  {
  }

  /** What a group prints; None is a fatal error. */
  function GroupTokens(cfg: Config, g: seq<Line>): Option<seq<Token>>
    requires cfg.Valid() && g != [] && LinesOk(cfg, g)
  {
    match LineTokens(cfg, Representative(cfg, g))
    case None => None
    case Some(key) =>
      Prepend(key, ResultTokens(cfg, g, 0))
  }

  // --- The whole input ---------------------------------------------------------------------

  predicate RunsOk(cfg: Config, rs: seq<seq<Line>>)
    requires cfg.Valid()
  {
    NonEmptyRuns(rs) && forall k :: 0 <= k < |rs| ==> LinesOk(cfg, rs[k])
  }

  lemma {:induction false} RunsLinesOk(cfg: Config, ls: seq<Line>)
    requires cfg.Valid() && LinesOk(cfg, ls)
    ensures RunsOk(cfg, Runs(cfg, ls))
  {
    hide LineOk, Runs, Breaks, Config.Valid;
    if ls != [] {
      var n := |ls| - 1;
      RunsLinesOk(cfg, ls[..n]);
      RunsUnfold(cfg, ls);
      ExtendOk(cfg, ls[..n], Runs(cfg, ls[..n]), ls[n]);
    }
  }

  lemma ExtendOk(cfg: Config, ls: seq<Line>, rs: seq<seq<Line>>, l: Line)
    requires cfg.Valid() && (ls == [] <==> rs == []) && RunsOk(cfg, rs) && LineOk(cfg, l)
    ensures RunsOk(cfg, Extend(cfg, ls, rs, l))
  {
    hide LineOk, Breaks, Config.Valid;
    if rs != [] {
      assert LinesOk(cfg, rs[|rs| - 1]);
    }
  }

  /** The input makes datamash succeed: every line can be read, neighbouring lines can be compared,
      and every group can be printed. */
  ghost predicate Succeeds(cfg: Config, ls: seq<Line>)
    requires cfg.Valid()
  {
    && LinesOk(cfg, ls)
    && (forall k :: 0 < k < |ls| ==> Breaks(cfg, ls[k - 1], ls[k]).Some?)
    && AllPrint(cfg, Runs(cfg, ls))
  }

  ghost predicate AllPrint(cfg: Config, rs: seq<seq<Line>>)
    requires cfg.Valid()
  {
    forall k :: 0 <= k < |rs| ==> Prints(cfg, rs[k])
  }

  ghost predicate Prints(cfg: Config, g: seq<Line>)
    requires cfg.Valid()
  {
    g != [] && LinesOk(cfg, g) && GroupTokens(cfg, g).Some?
  }

  /** One record per group, in order. */
  function Records(cfg: Config, rs: seq<seq<Line>>): seq<Token>
    requires cfg.Valid() && RunsOk(cfg, rs)
  {
    if rs == [] then [] else
    var n := |rs| - 1;
    Records(cfg, rs[..n]) + (match GroupTokens(cfg, rs[n]) case Some(ts) => ts case None => [])
  }

  /** Printing p first, unless the rest fails. */
  function Prepend(p: seq<Token>, r: Option<seq<Token>>): Option<seq<Token>> {
    match r
    case None => None
    case Some(ts) => Some(p + ts)
  }

  // --- Growing input -----------------------------------------------------------------------

  /** All runs but the last, which later lines may still join. */
  function Closed(rs: seq<seq<Line>>): seq<seq<Line>> {
    if rs == [] then [] else rs[..|rs| - 1]
  }

  /** The run the next line may join. */
  function Open(rs: seq<seq<Line>>): seq<Line> {
    if rs == [] then [] else rs[|rs| - 1]
  }

  /** More input leaves the closed runs as they are. */
  lemma {:induction false} ClosedRunsStay(cfg: Config, all: seq<Line>, k: nat)
    requires cfg.Valid() && k <= |all|
    ensures Closed(Runs(cfg, all[..k])) <= Runs(cfg, all)
    decreases |all| - k
  {
    hide *;
    if k == |all| {
      assert all[..k] == all;
      ClosedPrefix(Runs(cfg, all));
    } else {
      ClosedRunsStay(cfg, all, k + 1);
      assert all[..k + 1] == all[..k] + [all[k]];
      ClosedMore(cfg, all[..k], all[k]);
    }
  }

  lemma ClosedMore(cfg: Config, ls: seq<Line>, l: Line)
    requires cfg.Valid()
    ensures Closed(Runs(cfg, ls)) <= Closed(Runs(cfg, ls + [l]))
  {
    OpenRunStep(cfg, ls, l);
    ClosedPrefix(Runs(cfg, ls));
    hide *;
  }

  lemma ClosedPrefix(rs: seq<seq<Line>>)
    ensures Closed(rs) <= rs
  {
  }

  /** A group that cannot be printed once it is closed is fatal. */
  lemma ClosedRunPrints(cfg: Config, all: seq<Line>, k: nat, j: nat)
    requires cfg.Valid() && k <= |all| && AllPrint(cfg, Runs(cfg, all))
    requires j < |Closed(Runs(cfg, all[..k]))|
    ensures Prints(cfg, Runs(cfg, all[..k])[j])
  {
    ClosedRunsStay(cfg, all, k);
    hide Runs, Prints, Config.Valid;
    assert Runs(cfg, all)[j] == Runs(cfg, all[..k])[j];
  }

  /** One line more of a group: who represents it. */
  lemma RepresentativeSnoc(cfg: Config, g: seq<Line>, l: Line)
    requires cfg.Valid() && LinesOk(cfg, g + [l]) && LinesOk(cfg, g) && LineOk(cfg, l)
    ensures Representative(cfg, g + [l])
         == if g == [] || (exists i :: 0 <= i < |cfg.ops| && KeepsLine(cfg, AccOf(cfg, g, i), l, i)) then l
            else Representative(cfg, g)
  {
    assert (g + [l])[..|g|] == g;
    hide KeepsLine, AccOf;
  }

  /** Comparing with the representative of the open run is comparing with the line before. */
  lemma CompareWithRepresentative(cfg: Config, g: seq<Line>, rep: Line, l: Line)
    requires cfg.Valid() && !cfg.lineMode && Unbroken(cfg, g) && rep in g
    ensures Differs(cfg, l, rep, 0) == Breaks(cfg, g[|g| - 1], l)
  {
    hide Differs, SameKey;
    var i :| 0 <= i < |g| && g[i] == rep;
    if i < |g| - 1 {
      RunHasOneKey(cfg, g, i, |g| - 1);
      RepresentativeIrrelevant(cfg, rep, g[|g| - 1], l, 0);
    }
  }

  lemma RecordsSnoc(cfg: Config, rs: seq<seq<Line>>, g: seq<Line>)
    requires cfg.Valid() && RunsOk(cfg, rs + [g]) && RunsOk(cfg, rs) && g != [] && LinesOk(cfg, g)
    requires GroupTokens(cfg, g).Some?
    ensures Records(cfg, rs + [g]) == Records(cfg, rs) + GroupTokens(cfg, g).value
  {
    assert (rs + [g])[..|rs|] == rs;
    hide GroupTokens;
  }

  /** The open run ends with the last line, and is a run. */
  lemma OpenRun(cfg: Config, ls: seq<Line>)
    requires cfg.Valid() && ls != []
    ensures var g := Open(Runs(cfg, ls)); Unbroken(cfg, g) && g[|g| - 1] == ls[|ls| - 1]
    ensures Runs(cfg, ls) == Closed(Runs(cfg, ls)) + [Open(Runs(cfg, ls))]
  {
    RunsPartition(cfg, ls);
    hide Runs, Unbroken;
    FlattenLast(Runs(cfg, ls));
  }

  /** How the open run and the closed ones change with one more line. */
  lemma OpenRunStep(cfg: Config, ls: seq<Line>, l: Line)
    requires cfg.Valid()
    ensures var (rs, rs') := (Runs(cfg, ls), Runs(cfg, ls + [l]));
      if ls == [] || Breaks(cfg, ls[|ls| - 1], l) != Some(false) then Closed(rs') == rs && Open(rs') == [l]
      else Closed(rs') == Closed(rs) && Open(rs') == Open(rs) + [l]
  {
    hide Runs, Breaks, Config.Valid;
    RunsUnfold(cfg, ls + [l]);
    assert (ls + [l])[..|ls|] == ls && (ls + [l])[|ls|] == l;
    ExtendEnds(cfg, ls, Runs(cfg, ls), l);
  }

  lemma ExtendEnds(cfg: Config, ls: seq<Line>, rs: seq<seq<Line>>, l: Line)
    requires cfg.Valid() && (ls == [] <==> rs == [])
    ensures var rs' := Extend(cfg, ls, rs, l);
      if ls == [] || Breaks(cfg, ls[|ls| - 1], l) != Some(false) then Closed(rs') == rs && Open(rs') == [l]
      else Closed(rs') == Closed(rs) && Open(rs') == Open(rs) + [l]
  {
    hide Breaks, Config.Valid;
  }

  /** The three ways to fail at line k. */
  lemma FailsAt(cfg: Config, all: seq<Line>, k: nat)
    requires cfg.Valid() && k < |all|
    requires
      || !LineOk(cfg, all[k])
      || (k > 0 && Breaks(cfg, all[k - 1], all[k]) == None)
      || (k > 0 && Breaks(cfg, all[k - 1], all[k]) == Some(true) && !Prints(cfg, Open(Runs(cfg, all[..k]))))
    ensures !Succeeds(cfg, all)
  {
    if Succeeds(cfg, all) && k > 0 && Breaks(cfg, all[k - 1], all[k]) == Some(true) {
      BrokenRunPrints(cfg, all, k);
    }
    hide Runs, Breaks, Prints, LineOk, Config.Valid;
  }

  lemma BrokenRunPrints(cfg: Config, all: seq<Line>, k: nat)
    requires cfg.Valid() && 0 < k < |all| && AllPrint(cfg, Runs(cfg, all))
    requires Breaks(cfg, all[k - 1], all[k]) == Some(true)
    ensures Prints(cfg, Open(Runs(cfg, all[..k])))
  {
    hide Runs, Prints, AllPrint, Breaks, Config.Valid;
    OpenRun(cfg, all[..k]);
    OpenRunStep(cfg, all[..k], all[k]);
    assert all[..k + 1] == all[..k] + [all[k]];
    ClosedRunPrints(cfg, all, k + 1, |Closed(Runs(cfg, all[..k]))|);
  }

  /** Nothing was fatal in the first k lines. */
  ghost predicate FineSoFar(cfg: Config, all: seq<Line>, k: nat)
    requires cfg.Valid() && k <= |all|
  {
    && (forall i :: 0 <= i < k ==> LineOk(cfg, all[i]))
    && (forall i :: 0 < i < k ==> Breaks(cfg, all[i - 1], all[i]).Some?)
    && AllPrint(cfg, Closed(Runs(cfg, all[..k])))
  }

  lemma AllPrintSnoc(cfg: Config, rs: seq<seq<Line>>, g: seq<Line>)
    requires cfg.Valid()
    ensures AllPrint(cfg, rs + [g]) <==> AllPrint(cfg, rs) && Prints(cfg, g)
  {
    hide Prints;
    if AllPrint(cfg, rs + [g]) {
      assert forall k :: 0 <= k < |rs| ==> (rs + [g])[k] == rs[k];
      assert (rs + [g])[|rs|] == g;
    }
  }

  lemma FineStep(cfg: Config, all: seq<Line>, k: nat)
    requires cfg.Valid() && k < |all| && FineSoFar(cfg, all, k) && LineOk(cfg, all[k])
    requires k > 0 ==> Breaks(cfg, all[k - 1], all[k]).Some?
    requires k > 0 && Breaks(cfg, all[k - 1], all[k]) == Some(true) ==> Prints(cfg, Open(Runs(cfg, all[..k])))
    ensures FineSoFar(cfg, all, k + 1)
  {
    hide Runs, Breaks, Prints, LineOk, AllPrint, Config.Valid;
    var ls := all[..k];
    if k > 0 && Breaks(cfg, all[k - 1], all[k]) != Some(false) {
      assert Breaks(cfg, all[k - 1], all[k]).value;
      assert Prints(cfg, Open(Runs(cfg, ls)));
    }
    assert k > 0 ==> ls[|ls| - 1] == all[k - 1];
    ClosedStaysFine(cfg, ls, all[k]);
    assert all[..k + 1] == ls + [all[k]];
  }

  lemma ClosedStaysFine(cfg: Config, ls: seq<Line>, l: Line)
    requires cfg.Valid() && AllPrint(cfg, Closed(Runs(cfg, ls)))
    requires ls != [] && Breaks(cfg, ls[|ls| - 1], l) != Some(false) ==> Prints(cfg, Open(Runs(cfg, ls)))
    ensures AllPrint(cfg, Closed(Runs(cfg, ls + [l])))
  {
    hide Runs, Breaks, Prints, AllPrint, Config.Valid;
    OpenRunStep(cfg, ls, l);
    if ls != [] {
      OpenRun(cfg, ls);
      AllPrintSnoc(cfg, Closed(Runs(cfg, ls)), Open(Runs(cfg, ls)));
    } else {
      assert Runs(cfg, ls) == [] && Closed(Runs(cfg, ls)) == [];
    }
  }

  lemma FineAtEnd(cfg: Config, all: seq<Line>)
    requires cfg.Valid() && FineSoFar(cfg, all, |all|)
    ensures Succeeds(cfg, all) <==> (all == [] || Prints(cfg, Open(Runs(cfg, all))))
  {
    hide Runs, Breaks, Prints, LineOk, AllPrint, Config.Valid;
    assert all[..|all|] == all;
    if all != [] {
      OpenRun(cfg, all);
      AllPrintSnoc(cfg, Closed(Runs(cfg, all)), Open(Runs(cfg, all)));
    } else {
      assert Runs(cfg, all) == [] && Closed(Runs(cfg, all)) == [];
    }
  }
}
