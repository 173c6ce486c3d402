/** What the records of the group-by mode hold, token by token (print_input_line, summarize_field_ops
    and process_group in src/datamash.c). */
module GroupOutput {
  import opened GroupBy
  import opened GroupFacts
  import FieldOps
  import T = Text

  // --- Keys --------------------------------------------------------------------------------

  /** Without --full a record starts with the fields of the key columns, each with a separator. */
  lemma {:induction false} KeyTokensFrom(cfg: Config, l: Line, i: nat)
    requires cfg.Valid() && i <= |cfg.groups| && HasKeys(cfg, l)
    ensures var r := KeyTokens(cfg, l, i);
      && r.Some? && |r.value| == 2 * (|cfg.groups| - i)
      && forall k :: 0 <= k < |cfg.groups| - i ==>
           cfg.groups[i + k] > 0
           && r.value[2 * k] == Text(l[cfg.groups[i + k] - 1]) && r.value[2 * k + 1] == Tab
    decreases |cfg.groups| - i
  {
    if i < |cfg.groups| {
      assert cfg.groups[i] > 0;
      hide Config.Valid;
      KeyTokensFrom(cfg, l, i + 1);
      var rest := KeyTokens(cfg, l, i + 1).value;
      var r := KeyTokens(cfg, l, i).value;
      assert r == [Text(l[cfg.groups[i] - 1]), Tab] + rest;
      forall k | 0 <= k < |cfg.groups| - i
        ensures cfg.groups[i + k] > 0 && r[2 * k] == Text(l[cfg.groups[i + k] - 1]) && r[2 * k + 1] == Tab
      {
        if k > 0 {
          assert cfg.groups[i + 1 + (k - 1)] > 0;
          assert r[2 * k] == rest[2 * (k - 1)] && r[2 * k + 1] == rest[2 * (k - 1) + 1];
        }
      }
    }
  }

  // --- Results -----------------------------------------------------------------------------

  /** The fields that come before the results. */
  ghost predicate IsKeyPart(cfg: Config, l: Line, ts: seq<Token>) {
    if cfg.full then
      |ts| == 2 * |l| && forall k :: 0 <= k < |l| ==> ts[2 * k] == Text(l[k]) && ts[2 * k + 1] == Tab
    else
      |ts| == 2 * |cfg.groups| && forall k :: 0 <= k < |cfg.groups| ==>
        0 < cfg.groups[k] <= |l| && ts[2 * k] == Text(l[cfg.groups[k] - 1]) && ts[2 * k + 1] == Tab
  }

  /** The results of the operations ps, with separators between them and a line end. */
  ghost predicate IsResultPart(cfg: Config, g: seq<Line>, ps: seq<nat>, ts: seq<Token>)
    requires cfg.Valid() && forall k :: 0 <= k < |ps| ==> ps[k] < |cfg.ops|
  {
    |ts| == 2 * |ps| && forall k :: 0 <= k < |ps| ==>
      && ResultOf(cfg, g, ps[k]).Some? && ts[2 * k] == Value(ResultOf(cfg, g, ps[k]).value)
      && ts[2 * k + 1] == if k == |ps| - 1 then Eol else Tab
  }

  /** One operation more in front of the results. */
  lemma ResultStep(cfg: Config, g: seq<Line>, i: nat)
    requires cfg.Valid() && i < |cfg.ops| && ResultTokens(cfg, g, i).Some?
    ensures ResultTokens(cfg, g, i + 1).Some?
    ensures cfg.ops[i].subordinate ==> ResultTokens(cfg, g, i) == ResultTokens(cfg, g, i + 1)
    ensures !cfg.ops[i].subordinate ==> ResultOf(cfg, g, i).Some?
    ensures !cfg.ops[i].subordinate ==>
      ResultTokens(cfg, g, i).value
      == [Value(ResultOf(cfg, g, i).value)] + (if i != |cfg.ops| - 1 then [Tab] else [])
         + ResultTokens(cfg, g, i + 1).value
  {
    hide Config.Valid, ResultOf;
  }

  /** The results a record ends with: one for every operation that is not subordinate, in order. */
  lemma {:induction false} ResultTokensFrom(cfg: Config, g: seq<Line>, ps: seq<nat>, i: nat)
    requires cfg.Valid() && i < |cfg.ops| && PrintedOps(cfg, ps, i) && ResultTokens(cfg, g, i).Some?
    requires forall k :: 0 <= k < |ps| ==> ps[k] < |cfg.ops|
    ensures IsResultPart(cfg, g, ps, ResultTokens(cfg, g, i).value)
    decreases |cfg.ops| - i
  {
    hide *;
    LastPrints(cfg, ps, i);
    ResultStep(cfg, g, i);
    if i + 1 == |cfg.ops| {
      ResultTokensEnd(cfg, g);
      LastNotSubordinate(cfg);
      ResultLast(cfg, g, ps, ResultTokens(cfg, g, i).value);
    } else if cfg.ops[i].subordinate {
      ResultTokensFrom(cfg, g, ps, i + 1);
    } else {
      PrintedInside(cfg, ps[1..], i + 1);
      ResultTokensFrom(cfg, g, ps[1..], i + 1);
      LastPrints(cfg, ps[1..], i + 1);
      ResultJoin(cfg, g, ps, ResultOf(cfg, g, i).value, ResultTokens(cfg, g, i + 1).value,
                 ResultTokens(cfg, g, i).value);
    }
  }

  lemma ResultLast(cfg: Config, g: seq<Line>, ps: seq<nat>, ts: seq<Token>)
    requires cfg.Valid() && |ps| == 1 && ps[0] < |cfg.ops| && ResultOf(cfg, g, ps[0]).Some?
    requires ts == [Value(ResultOf(cfg, g, ps[0]).value)] + [] + [Eol]
    ensures IsResultPart(cfg, g, ps, ts)
  {
    hide Config.Valid, ResultOf;
  }

  lemma ResultJoin(cfg: Config, g: seq<Line>, ps: seq<nat>, cell: FieldOps.Cell, rest: seq<Token>, ts: seq<Token>)
    requires cfg.Valid() && |ps| > 1 && forall k :: 0 <= k < |ps| ==> ps[k] < |cfg.ops|
    requires ResultOf(cfg, g, ps[0]) == T.Some(cell) && IsResultPart(cfg, g, ps[1..], rest)
    requires ts == [Value(cell)] + [Tab] + rest
    ensures IsResultPart(cfg, g, ps, ts)
  {
    hide Config.Valid, ResultOf;
    forall k | 0 <= k < |ps|
      ensures ResultOf(cfg, g, ps[k]).Some? && ts[2 * k] == Value(ResultOf(cfg, g, ps[k]).value)
      ensures ts[2 * k + 1] == if k == |ps| - 1 then Eol else Tab
    {
      if k > 0 {
        assert ps[1..][k - 1] == ps[k];
        assert ts[2 * k] == rest[2 * (k - 1)] && ts[2 * k + 1] == rest[2 * (k - 1) + 1];
      }
    }
  }

  // --- Records -----------------------------------------------------------------------------

  /** ts is the record of the group g when the line l is kept for it: the keys or fields of the line,
      then one result for every operation that prints. */
  ghost predicate IsRecord(cfg: Config, l: Line, g: seq<Line>, ps: seq<nat>, ts: seq<Token>)
    requires cfg.Valid() && forall k :: 0 <= k < |ps| ==> ps[k] < |cfg.ops|
  {
    var n := 2 * if cfg.full then |l| else |cfg.groups|;
    n <= |ts| && IsKeyPart(cfg, l, ts[..n]) && IsResultPart(cfg, g, ps, ts[n..])
  }

  lemma {:induction false} KeysThere(cfg: Config, l: Line, i: nat)
    requires cfg.Valid() && i <= |cfg.groups| && KeyTokens(cfg, l, i).Some?
    ensures forall k :: i <= k < |cfg.groups| ==> cfg.groups[k] <= |l|
    decreases |cfg.groups| - i
  {
    if i < |cfg.groups| {
      KeysThere(cfg, l, i + 1);
    }
  }

  lemma KeyPart(cfg: Config, l: Line)
    requires cfg.Valid() && LineTokens(cfg, l).Some?
    ensures IsKeyPart(cfg, l, LineTokens(cfg, l).value)
  {
    hide Config.Valid, KeyTokens, FullTokens;
    if cfg.full {
      FullTokensAre(l);
    } else {
      KeysThere(cfg, l, 0);
      KeyTokensFrom(cfg, l, 0);
      var ts := KeyTokens(cfg, l, 0).value;
      forall k | 0 <= k < |cfg.groups|
        ensures 0 < cfg.groups[k] <= |l| && ts[2 * k] == Text(l[cfg.groups[k] - 1]) && ts[2 * k + 1] == Tab
      {
        assert cfg.groups[0 + k] > 0;
      }
    }
  }

  lemma RecordJoin(cfg: Config, l: Line, g: seq<Line>, ps: seq<nat>, a: seq<Token>, b: seq<Token>)
    requires cfg.Valid() && forall k :: 0 <= k < |ps| ==> ps[k] < |cfg.ops|
    requires IsKeyPart(cfg, l, a) && IsResultPart(cfg, g, ps, b)
    ensures IsRecord(cfg, l, g, ps, a + b)
  {
    hide Config.Valid, IsResultPart;
    assert (a + b)[..|a|] == a && (a + b)[|a|..] == b;
  }

  /** The line kept for run r. */
  function KeptLine(cfg: Config, rs: seq<seq<Line>>, r: nat): Line
    requires cfg.Valid() && RunsOk(cfg, rs) && r < |rs|
  {
    Representative(cfg, rs[r])
  }

  lemma PartsOf(cfg: Config, g: seq<Line>)
    requires cfg.Valid() && GroupBy.Prints(cfg, g)
    ensures |cfg.ops| > 0 && g != [] && LinesOk(cfg, g)
    ensures var (a, b) := (LineTokens(cfg, Representative(cfg, g)), ResultTokens(cfg, g, 0));
      a.Some? && b.Some? && GroupTokens(cfg, g) == T.Some(a.value + b.value)
  {
    hide LinesOk, Representative, LineTokens, ResultTokens;
  }

  /** What is printed for a group is its record. */
  lemma GroupRecord(cfg: Config, g: seq<Line>, ps: seq<nat>)
    requires cfg.Valid() && GroupBy.Prints(cfg, g) && PrintedOps(cfg, ps, 0)
    ensures IsRecord(cfg, Representative(cfg, g), g, ps, GroupTokens(cfg, g).value)
  {
    hide *;
    PartsOf(cfg, g);
    PrintedInside(cfg, ps, 0);
    KeyPart(cfg, Representative(cfg, g));
    ResultTokensFrom(cfg, g, ps, 0);
    RecordJoin(cfg, Representative(cfg, g), g, ps, LineTokens(cfg, Representative(cfg, g)).value,
               ResultTokens(cfg, g, 0).value);
  }

  lemma RecordsMore(cfg: Config, rs: seq<seq<Line>>, r: nat)
    requires cfg.Valid() && RunsOk(cfg, rs) && r < |rs| && GroupTokens(cfg, rs[r]).Some?
    ensures RunsOk(cfg, rs[..r]) && RunsOk(cfg, rs[..r + 1])
    ensures Records(cfg, rs[..r + 1]) == Records(cfg, rs[..r]) + GroupTokens(cfg, rs[r]).value
  {
    assert rs[..r + 1][..r] == rs[..r];
    hide GroupTokens, Config.Valid, LinesOk;
  }

  lemma RunPrints(cfg: Config, rs: seq<seq<Line>>, r: nat)
    requires cfg.Valid() && AllPrint(cfg, rs) && r < |rs|
    ensures rs[r] != [] && LinesOk(cfg, rs[r]) && GroupTokens(cfg, rs[r]).Some? && GroupBy.Prints(cfg, rs[r])
    ensures AllPrint(cfg, rs[..r])
  {
    assert GroupBy.Prints(cfg, rs[r]);
    hide GroupTokens, Config.Valid, LinesOk;
    forall k | 0 <= k < r ensures GroupBy.Prints(cfg, rs[..r][k]) {
      assert GroupBy.Prints(cfg, rs[k]);
    }
  }

  lemma {:induction false} RecordsPrefix(cfg: Config, rs: seq<seq<Line>>, r: nat)
    requires cfg.Valid() && RunsOk(cfg, rs) && AllPrint(cfg, rs) && r <= |rs|
    ensures RunsOk(cfg, rs[..r]) && Records(cfg, rs[..r]) <= Records(cfg, rs)
    decreases |rs| - r
  {
    hide *;
    if r == |rs| {
      assert rs[..r] == rs;
    } else {
      RunPrints(cfg, rs, r);
      RecordsMore(cfg, rs, r);
      RecordsPrefix(cfg, rs, r + 1);
    }
  }

  /** Where the output for the runs before run r ends, the record of run r follows. */
  lemma OutputOfRun(cfg: Config, rs: seq<seq<Line>>, r: nat, ps: seq<nat>)
    requires cfg.Valid() && RunsOk(cfg, rs) && AllPrint(cfg, rs) && r < |rs|
    requires PrintedOps(cfg, ps, 0) && forall k :: 0 <= k < |ps| ==> ps[k] < |cfg.ops|
    ensures RunsOk(cfg, rs[..r]) && RunsOk(cfg, rs[..r + 1])
    ensures var (out, from, to) := (Records(cfg, rs), |Records(cfg, rs[..r])|, |Records(cfg, rs[..r + 1])|);
      from <= to <= |out| && IsRecord(cfg, KeptLine(cfg, rs, r), rs[r], ps, out[from..to])
  {
    hide *;
    RunPrints(cfg, rs, r);
    RecordsMore(cfg, rs, r);
    RecordsPrefix(cfg, rs, r + 1);
    GroupRecord(cfg, rs[r], ps);
    KeptLineIs(cfg, rs, r);
    MiddleOf(Records(cfg, rs), Records(cfg, rs[..r]), GroupTokens(cfg, rs[r]).value);
  }

  lemma KeptLineIs(cfg: Config, rs: seq<seq<Line>>, r: nat)
    requires cfg.Valid() && RunsOk(cfg, rs) && r < |rs| && rs[r] != [] && LinesOk(cfg, rs[r])
    ensures KeptLine(cfg, rs, r) == Representative(cfg, rs[r])
  {
    hide Representative, LinesOk, Config.Valid;
  }

  lemma MiddleOf(out: seq<Token>, a: seq<Token>, b: seq<Token>)
    requires a + b <= out
    ensures out[|a|..|a + b|] == b
  {
  }

  lemma {:induction false} RecordsLength(cfg: Config, rs: seq<seq<Line>>, w: nat)
    requires cfg.Valid() && RunsOk(cfg, rs) && AllPrint(cfg, rs)
    requires forall k :: 0 <= k < |rs| ==>
      rs[k] != [] && LinesOk(cfg, rs[k]) && GroupTokens(cfg, rs[k]).Some? && |GroupTokens(cfg, rs[k]).value| == w
    ensures |Records(cfg, rs)| == |rs| * w
  {
    hide GroupTokens, Config.Valid, LinesOk, AllPrint, RunsOk;
    if rs != [] {
      var n := |rs| - 1;
      RunPrints(cfg, rs, n);
      RecordsMore(cfg, rs, n);
      assert rs[..n + 1] == rs;
      RecordsLength(cfg, rs[..n], w);
      assert (n + 1) * w == n * w + w;
    }
  }

  lemma RecordLength(cfg: Config, g: seq<Line>, ps: seq<nat>)
    requires cfg.Valid() && GroupBy.Prints(cfg, g) && PrintedOps(cfg, ps, 0) && !cfg.full
    ensures |GroupTokens(cfg, g).value| == 2 * (|cfg.groups| + |ps|)
  {
    GroupRecord(cfg, g, ps);
    hide Config.Valid, LinesOk, Representative, GroupTokens, PrintedOps, ResultOf;
  }

  /** Where the record of run r starts without --full. */
  function RecordStart(cfg: Config, ps: seq<nat>, r: nat): nat {
    r * (2 * (|cfg.groups| + |ps|))
  }

  lemma StartOfRun(cfg: Config, rs: seq<seq<Line>>, r: nat, ps: seq<nat>)
    requires cfg.Valid() && RunsOk(cfg, rs) && AllPrint(cfg, rs) && r < |rs| && PrintedOps(cfg, ps, 0) && !cfg.full
    requires RunsOk(cfg, rs[..r])
    ensures |Records(cfg, rs[..r])| == RecordStart(cfg, ps, r)
  {
    hide *;
    RunPrints(cfg, rs, r);
    var w := 2 * (|cfg.groups| + |ps|);
    forall k | 0 <= k < r
      ensures rs[..r][k] != [] && LinesOk(cfg, rs[..r][k]) && GroupTokens(cfg, rs[..r][k]).Some?
      ensures |GroupTokens(cfg, rs[..r][k]).value| == w
    {
      RunPrints(cfg, rs, k);
      RecordLength(cfg, rs[k], ps);
    }
    RecordsLength(cfg, rs[..r], w);
    StartIs(cfg, ps, r);
  }

  lemma StartIs(cfg: Config, ps: seq<nat>, r: nat)
    ensures RecordStart(cfg, ps, r) == r * (2 * (|cfg.groups| + |ps|))
  {
  }

  /** The tokens of a record that starts at `start`. */
  ghost predicate RecordAt(cfg: Config, l: Line, g: seq<Line>, ps: seq<nat>, out: seq<Token>, start: nat)
    requires cfg.Valid() && forall k :: 0 <= k < |ps| ==> ps[k] < |cfg.ops|
  {
    var results := start + 2 * |cfg.groups|;
    && results + 2 * |ps| <= |out|
    && (forall k :: 0 <= k < |cfg.groups| ==>
          0 < cfg.groups[k] <= |l|
          && out[start + 2 * k] == Text(l[cfg.groups[k] - 1]) && out[start + 2 * k + 1] == Tab)
    && (forall k :: 0 <= k < |ps| ==>
          && ResultOf(cfg, g, ps[k]).Some? && out[results + 2 * k] == Value(ResultOf(cfg, g, ps[k]).value)
          && out[results + 2 * k + 1] == if k == |ps| - 1 then Eol else Tab)
  }

  lemma RecordInside(cfg: Config, l: Line, g: seq<Line>, ps: seq<nat>, out: seq<Token>, from: nat, to: nat)
    requires cfg.Valid() && !cfg.full && forall k :: 0 <= k < |ps| ==> ps[k] < |cfg.ops|
    requires from <= to <= |out| && IsRecord(cfg, l, g, ps, out[from..to])
    ensures RecordAt(cfg, l, g, ps, out, from)
  {
    hide Config.Valid, ResultOf;
    var (ts, n) := (out[from..to], 2 * |cfg.groups|);
    forall k | 0 <= k < |cfg.groups|
      ensures 0 < cfg.groups[k] <= |l|
      ensures out[from + 2 * k] == Text(l[cfg.groups[k] - 1]) && out[from + 2 * k + 1] == Tab
    {
      assert ts[..n][2 * k] == out[from + 2 * k] && ts[..n][2 * k + 1] == out[from + 2 * k + 1];
    }
    forall k | 0 <= k < |ps|
      ensures ResultOf(cfg, g, ps[k]).Some? && out[from + n + 2 * k] == Value(ResultOf(cfg, g, ps[k]).value)
      ensures out[from + n + 2 * k + 1] == if k == |ps| - 1 then Eol else Tab
    {
      assert ts[n..][2 * k] == out[from + n + 2 * k] && ts[n..][2 * k + 1] == out[from + n + 2 * k + 1];
    }
  }

  /** Without --full all records have the same length, so that of run r stands at its multiple: its
      tokens are the key fields of its kept line, in the order of the key columns, and the results of
      the operations that are not subordinate, in their order. */
  lemma OutputTokens(cfg: Config, rs: seq<seq<Line>>, r: nat, ps: seq<nat>)
    requires cfg.Valid() && RunsOk(cfg, rs) && AllPrint(cfg, rs) && r < |rs| && !cfg.full
    requires PrintedOps(cfg, ps, 0) && forall k :: 0 <= k < |ps| ==> ps[k] < |cfg.ops|
    ensures RecordAt(cfg, KeptLine(cfg, rs, r), rs[r], ps, Records(cfg, rs), RecordStart(cfg, ps, r))
  {
    hide *;
    OutputOfRun(cfg, rs, r, ps);
    StartOfRun(cfg, rs, r, ps);
    RecordInside(cfg, KeptLine(cfg, rs, r), rs[r], ps, Records(cfg, rs), |Records(cfg, rs[..r])|,
                 |Records(cfg, rs[..r + 1])|);
  }

  // --- The whole input ---------------------------------------------------------------------

  lemma SucceedsPrints(cfg: Config, ls: seq<Line>)
    requires cfg.Valid() && Succeeds(cfg, ls)
    ensures RunsOk(cfg, Runs(cfg, ls)) && AllPrint(cfg, Runs(cfg, ls))
  {
    RunsLinesOk(cfg, ls);
    hide *;
  }

  /** The output for an input that is processed without a fatal error: the record of run r. */
  lemma RecordOfRun(cfg: Config, ls: seq<Line>, r: nat)
    requires cfg.Valid() && Succeeds(cfg, ls) && !cfg.full && r < |Runs(cfg, ls)|
    ensures RunsOk(cfg, Runs(cfg, ls))
    ensures var (rs, ps) := (Runs(cfg, ls), PrintedList(cfg, |cfg.ops|));
      RecordAt(cfg, KeptLine(cfg, rs, r), rs[r], ps, Records(cfg, rs), RecordStart(cfg, ps, r))
  {
    SucceedsPrints(cfg, ls);
    PrintedListPrints(cfg);
    hide *;
    OutputTokens(cfg, Runs(cfg, ls), r, PrintedList(cfg, |cfg.ops|));
  }

  // --- When the run succeeds ---------------------------------------------------------------

  /** Operation i finds its column in the line, and a field it can use there: any text, a missing
      value it drops, or a number. */
  ghost predicate ReadableBy(cfg: Config, l: Line, i: nat)
    requires cfg.Valid() && i < |cfg.ops|
  {
    var (op, c) := (cfg.ops[i].op, cfg.ops[i].field);
    && 0 < c <= |l|
    && (|| (op.Count? || op.First? || op.Last? || op.Unique? || op.CountUnique? || op.Collapse?)
        || (cfg.env.narm && FieldOps.IsNa(l[c - 1]))
        || (l[c - 1] != "" && cfg.env.parse(l[c - 1]).Some?))
  }

  ghost predicate Readable(cfg: Config, l: Line)
    requires cfg.Valid()
  {
    forall i :: 0 <= i < |cfg.ops| ==> ReadableBy(cfg, l, i)
  }

  lemma OpOkSays(cfg: Config, l: Line, i: nat)
    requires cfg.Valid() && i < |cfg.ops|
    ensures OpOk(cfg, l, i) <==> ReadableBy(cfg, l, i)
  {
    var (op, c) := (cfg.ops[i].op, cfg.ops[i].field);
    assert c > 0;
    if c <= |l| {
      FieldOps.AcceptsSays(cfg.env, op, l[c - 1]);
    }
    hide FieldOps.IsNa, FieldOps.Accepts, Config.Valid;
  }

  lemma LineOkSays(cfg: Config, l: Line)
    requires cfg.Valid()
    ensures LineOk(cfg, l) <==> Readable(cfg, l)
  {
    hide OpOk, ReadableBy, Config.Valid;
    forall i | 0 <= i < |cfg.ops| ensures OpOk(cfg, l, i) <==> ReadableBy(cfg, l, i) {
      OpOkSays(cfg, l, i);
    }
  }

  lemma {:induction false} ResultsExist(cfg: Config, g: seq<Line>, i: nat)
    requires cfg.Valid() && i <= |cfg.ops|
    ensures ResultTokens(cfg, g, i).Some? <==>
      forall j :: i <= j < |cfg.ops| && !cfg.ops[j].subordinate ==> ResultOf(cfg, g, j).Some?
    decreases |cfg.ops| - i
  {
    hide ResultOf;
    if i < |cfg.ops| {
      ResultsExist(cfg, g, i + 1);
    }
  }

  lemma KeysPrint(cfg: Config, l: Line)
    requires cfg.Valid()
    ensures LineTokens(cfg, l).Some? <==> cfg.full || HasKeys(cfg, l)
  {
    if !cfg.full {
      if HasKeys(cfg, l) {
        KeyTokensFrom(cfg, l, 0);
      } else if KeyTokens(cfg, l, 0).Some? {
        KeysThere(cfg, l, 0);
      }
    }
  }

  /** The line kept for the group has the key columns, unless all its fields are printed, and every
      operation that prints has a result. */
  ghost predicate Printable(cfg: Config, g: seq<Line>)
    requires cfg.Valid() && g != [] && LinesOk(cfg, g)
  {
    && (cfg.full || HasKeys(cfg, Representative(cfg, g)))
    && forall i :: 0 <= i < |cfg.ops| && !cfg.ops[i].subordinate ==> ResultOf(cfg, g, i).Some?
  }

  lemma PrintsSays(cfg: Config, g: seq<Line>)
    requires cfg.Valid() && g != [] && LinesOk(cfg, g)
    ensures GroupBy.Prints(cfg, g) <==> Printable(cfg, g)
  {
    hide *;
    TokensExist(cfg, g);
    ResultsExist(cfg, g, 0);
    KeysPrint(cfg, Representative(cfg, g));
    PrintableSays(cfg, g);
  }

  lemma TokensExist(cfg: Config, g: seq<Line>)
    requires cfg.Valid() && g != [] && LinesOk(cfg, g)
    ensures GroupBy.Prints(cfg, g) <==> LineTokens(cfg, Representative(cfg, g)).Some? && ResultTokens(cfg, g, 0).Some?
  {
    hide LinesOk, Config.Valid, Representative, LineTokens, ResultTokens;
  }

  lemma PrintableSays(cfg: Config, g: seq<Line>)
    requires cfg.Valid() && g != [] && LinesOk(cfg, g)
    ensures Printable(cfg, g) <==>
      && (cfg.full || HasKeys(cfg, Representative(cfg, g)))
      && forall i :: 0 <= i < |cfg.ops| && !cfg.ops[i].subordinate ==> ResultOf(cfg, g, i).Some?
  {
    hide LinesOk, Config.Valid, Representative, HasKeys, ResultOf;
  }

  /** datamash processes an input exactly if every line is readable, the line after another one can be
      compared with it, and every group can be printed. */
  lemma SucceedsSays(cfg: Config, ls: seq<Line>)
    requires cfg.Valid()
    ensures (forall k :: 0 <= k < |ls| ==> Readable(cfg, ls[k])) <==> LinesOk(cfg, ls)
    ensures LinesOk(cfg, ls) ==> RunsOk(cfg, Runs(cfg, ls))
    ensures Succeeds(cfg, ls) <==>
      && LinesOk(cfg, ls)
      && (forall k :: 0 < k < |ls| ==> Breaks(cfg, ls[k - 1], ls[k]).Some?)
      && forall r :: 0 <= r < |Runs(cfg, ls)| ==> Printable(cfg, Runs(cfg, ls)[r])
  {
    forall k | 0 <= k < |ls| ensures LineOk(cfg, ls[k]) <==> Readable(cfg, ls[k]) {
      LineOkSays(cfg, ls[k]);
    }
    hide Config.Valid, LineOk, Readable, Runs, Printable, Breaks, GroupBy.Prints;
    if LinesOk(cfg, ls) {
      RunsLinesOk(cfg, ls);
      forall r | 0 <= r < |Runs(cfg, ls)|
        ensures GroupBy.Prints(cfg, Runs(cfg, ls)[r]) <==> Printable(cfg, Runs(cfg, ls)[r])
      {
        PrintsSays(cfg, Runs(cfg, ls)[r]);
      }
    }
  }
}
