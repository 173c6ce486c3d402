/** Where the programs fall short: for each shortfall an input that shows it. */
module Examples {
  import opened Text
  import opened Numerals
  import opened OpScanner
  import opened OpParser
  import opened OpPrinter
  import OpEnds
  import OpLists
  import opened KeyCompare
  import opened KeyShift
  import opened Decorate
  import opened SortPipeline
  import opened SortedOutput
  import Conv = Conversions
  import FieldOps
  import GroupBy
  import GroupFacts
  import Crosstab
  import CrosstabGroups
  import Headers
  import TextLines
  import Transpose
  import Undecorate

  // --- The operation language --------------------------------------------------------------

  lemma ShortNames()
    ensures Escaped("sum", true) == "sum" && Escaped("pcov", true) == "pcov"
  {
    assert Escaped("m", false) == "m" && Escaped("um", false) == "um";
    assert Escaped("v", false) == "v" && Escaped("ov", false) == "ov" && Escaped("cov", false) == "cov";
  }

  lemma ShortNumbers()
    ensures Decimal(1) == "1" && Decimal(3) == "3" && Decimal(5) == "5"
  {
  }

  /** What one request with one column and no parameters parses to. */
  lemma OneRequest(name: string, op: Op, c: Column, table: OpTable)
    requires 0 < |name| < MAX_IDENTIFIER_LENGTH && GoodColumn(c) && table(name, []) == Some(op)
    requires c.IsPair() == op.Pair()
    ensures OperationsAt(Escaped(name, true) + (" " + ShowColumn(c)), table, [], 0) == Some(Expanded([], op, c))
  {
    hide OperationsAt, Escaped, ShowColumn, GoodColumn, Column.IsPair, FieldOps.Op.Pair, Expanded;
    var r := Request(name, [], [c]);
    assert r.Show() == Escaped(name, true) + (" " + ShowColumn(c)) by {
      assert "" + (" " + ShowColumn(c)) == " " + ShowColumn(c);
    }
    ParsePrinted(table, [r]);
    assert ShowAll([r]) == r.Show();
    OpLists.ExpandedOne([], op, c);
    assert [r][1..] == [];
    assert Requested(table, Expanded([], op, c), []) == Some(Expanded([], op, c));
  }

  /** "sum 1" is accepted, "sum 1 " is not. */
  lemma BlankAfterColumn(table: OpTable)
    requires table("sum", []) == Some(FieldOps.Sum)
    ensures OperationsAt("sum 1", table, [], 0) == Some([Plain(FieldOps.Sum, Number(1))])
    ensures OperationsAt("sum 1 ", table, [], 0) == None
  {
    hide OperationsAt, Escaped, Decimal, OpEnds.Taken;
    ShortNames();
    ShortNumbers();
    OneRequest("sum", FieldOps.Sum, One(Number(1)), table);
    assert "sum" + (" " + "1") == "sum 1";
    assert [] + [Plain(FieldOps.Sum, Number(1))] == [Plain(FieldOps.Sum, Number(1))];
    OpEnds.TrailingBlankRefused("sum 1", table, ' ');
    assert "sum 1" + " " == "sum 1 ";
  }

  /** "pcov 1:3-5" asks for pcov of columns 1, 2 and 3, of which only the last has a partner. */
  lemma PairAndRange(table: OpTable)
    requires table("pcov", []) == Some(FieldOps.PCovariance)
    ensures var op := FieldOps.PCovariance;
      var ops := [Plain(op, Number(1)), Plain(op, Number(2)), ParsedOp(op, Number(3), true, false, 0),
                  ParsedOp(op, Number(5), false, true, 2)];
      OperationsAt("pcov 1:3-5", table, [], 0) == Some(ops) && !OpLists.AllPaired(ops)
  {
    hide OperationsAt, Escaped, Decimal;
    ShortNames();
    ShortNumbers();
    var op := FieldOps.PCovariance;
    OneRequest("pcov", op, PairRange(1, Number(3), 5), table);
    assert "pcov" + (" " + ("1" + (":" + ("3" + ("-" + "5"))))) == "pcov 1:3-5";
    assert Span(op, 1, 3) == [Plain(op, Number(1)), Plain(op, Number(2)), Plain(op, Number(3))];
    var ops := Expanded([], op, PairRange(1, Number(3), 5));
    assert ops == [Plain(op, Number(1)), Plain(op, Number(2)), ParsedOp(op, Number(3), true, false, 0),
                   ParsedOp(op, Number(5), false, true, 2)];
    assert ops[0] == Plain(op, Number(1)) && ops[0].op.Pair();
  }

  /** "pcov 1:3" over an input with the two columns x and y: printing the header fails an assertion,
      although "pcov 3:1" over the same input is reported as lacking column 3. */
  lemma MissingPartner(table: OpTable, env: FieldOps.Env, opName: Op -> string)
    requires table("pcov", []) == Some(FieldOps.PCovariance) && env.separator != NUL
    ensures var (p, q) := (OperationsAt("pcov 1:3", table, [], 0), OperationsAt("pcov 3:1", table, [], 0));
      && p.Some? && OpLists.Numbered(p.value) && q.Some? && OpLists.Numbered(q.value)
      && var cfg := GroupBy.Config(env, false, false, [], OpLists.OpSpecs(p.value));
      var other := cfg.(ops := OpLists.OpSpecs(q.value));
      && cfg.Valid() && Headers.HeaderLine(cfg, ["x", "y"], opName) == Headers.AssertionFails
      && other.Valid() && Headers.HeaderLine(other, ["x", "y"], opName) == Headers.NotEnoughFields(3)
  {
    hide OperationsAt, Escaped, Decimal;
    ShortNames();
    ShortNumbers();
    var op := FieldOps.PCovariance;
    OneRequest("pcov", op, Pair(Number(1), Number(3)), table);
    OneRequest("pcov", op, Pair(Number(3), Number(1)), table);
    assert "pcov" + (" " + ("1" + (":" + "3"))) == "pcov 1:3";
    assert "pcov" + (" " + ("3" + (":" + "1"))) == "pcov 3:1";
  }

  // --- decorate ----------------------------------------------------------------------------

  lemma TwoFromText()
    ensures Conv.Roman("II") == Some(ZeroPadded(2, Conv.WIDTH))
  {
    hide ZeroPadded;
    assert "II"[1..] == "I" && "I"[1..] == "";
    assert Conv.RomanValue("I") == 1 && Conv.RomanValue("II") == 2;
  }

  lemma WordAfterBlank()
    ensures FieldOf(" II", 0, None) == "II"
  {
    var ws := [TextLines.Word(" ", "II")];
    assert TextLines.Lay(ws, "") == " II" && "" + " II" == " II" by {
      assert ws[1..] == [];
      assert " " + "II" + "" == " II";
    }
    TextLines.WordsOfLay("", ws, "");
    assert TextLines.Texts(ws) + [] == ["II"] by {
      assert ws[1..] == [];
    }
  }

  /** With -k1,1:roman the line " II" loses its blank. */
  lemma LeadingBlankLost()
    ensures var specs := OneKey(0, Conv.Roman);
      && Decoration(" II", specs, None) == Decorated([ZeroPadded(2, Conv.WIDTH)], " II", None)
      && Output(specs, [Decoration(" II", specs, None)], None) == ["II"]
  {
    hide FieldOf, Conv.Roman, ZeroPadded, Decorated, Decoration, Undecorate.Undecorated, Converted, Conversions,
      DecorateKeys, Clean, CleanField, OneKey, ArgumentRight;
    var (specs, x) := (OneKey(0, Conv.Roman), ZeroPadded(2, Conv.WIDTH));
    TwoFromText();
    WordAfterBlank();
    OneConversion(0, Conv.Roman);
    OneKeyConverted(" II", 0, Conv.Roman, None);
    DecorationIs(specs, " II", None);
    PaddedClean(2, Conv.WIDTH, None);
    OneClean(x, None);
    BlankDropped(x);
  }

  lemma BlankDropped(x: string)
    requires Clean([x], None)
    ensures Undecorate.Undecorated(Decorated([x], " II", None), 1, None) == "II"
  {
    hide Undecorate.Undecorated, Decorated, Clean;
    Undecorate.UndecoratedLine([x], " II", None);
    assert " II"[..2] == " I";
    ScanUnique(" I", 0, FieldSep, 1);
    assert " II"[1..] == "II";
  }

  lemma OneClean(x: string, tab: Option<char>)
    requires CleanField(x, tab)
    ensures Clean([x], tab)
  {
    hide CleanField;
  }

  lemma OneWord(s: string)
    requires s != "" && AllIn(s, NonFieldSep)
    ensures Scan(s, 0, FieldSep) == 0 && SkipBlank(s, 0, 1) == |s| && SkipBlank(s, 0, 0) == 0
  {
    ScanUnique(s, 0, FieldSep, 0);
    ScanUnique(s, 0, NonFieldSep, |s|);
    assert NonFieldSep.Has(s[0]);
    hide Scan;
  }

  /** With -k1.2,1:roman the line "xII" is decorated with the value of II, but sort does not see all
      of the number: it starts with the second character there, too. */
  lemma OffsetCutsNumber()
    ensures var specs := [KeySpec(Key(0, 1, 0, 0, false, false), Some(Conv.Roman))];
      var x := ZeroPadded(2, Conv.WIDTH);
      && Decoration("xII", specs, None) == Decorated([x], "xII", None)
      && !Carries(KeyText(Decoration("xII", specs, None), SortKey(specs, 0), None), x, None)
  {
    var (specs, x) := ([KeySpec(Key(0, 1, 0, 0, false, false), Some(Conv.Roman))], ZeroPadded(2, Conv.WIDTH));
    OneWord("xII");
    var keys := DecorateKeys(specs);
    assert specs[..0] == [] && keys == [specs[0].ForDecorating()];
    assert Beg("xII", keys[0].key, None) == 1 && Lim("xII", keys[0].key, None) == 3;
    assert Selected("xII", keys, 0, None) == "II";
    hide FieldOf, Conv.Roman, Decorated, Decoration, Converted, Clean, CleanField, KeyText, Selected, Beg, Lim;
    TwoFromText();
    OneConverted("xII", keys, Conv.Roman, "II", None);
    DecorationIs(specs, "xII", None);
    PaddedClean(2, Conv.WIDTH, None);
    OneClean(x, None);
    hide ZeroPadded, Carries;
    MovedKeyCarries([x], "xII", specs[0].key, 0, None);
  }

  /** With -k1,1:strlen -k1.2 the second key of the line "ab" is "b", but sort compares "ab". */
  lemma StartsOneEarly()
    ensures var specs := [KeySpec(Key(0, 0, 0, 0, false, false), Some(Conv.StrLen)),
                          KeySpec(Key(0, 1, SIZE_MAX, 0, false, false), None)];
      && Meaning("ab", specs, 1, None) == Some("b")
      && Decoration("ab", specs, None) == Decorated([ZeroPadded(2, Conv.WIDTH)], "ab", None)
      && KeyText(Decoration("ab", specs, None), SortKey(specs, 1), None) == "ab"
  {
    var specs := [KeySpec(Key(0, 0, 0, 0, false, false), Some(Conv.StrLen)),
                  KeySpec(Key(0, 1, SIZE_MAX, 0, false, false), None)];
    var (key, x) := (specs[1].key, ZeroPadded(2, Conv.WIDTH));
    hide ZeroPadded;
    var keys := DecorateKeys(specs);
    assert specs[..1] == [specs[0]] && specs[..1][..0] == [];
    assert keys == [specs[0].ForDecorating()] && Conversions(specs) == 1;
    WholeFieldSelected(keys);
    TruncWhole("ab");
    assert Conv.StrLen("ab") == Some(x);
    hide Conv.StrLen, Decorated, Decoration, Converted, Selected, DecorateKeys, Conversions, KeyText, Clean;
    OneConverted("ab", keys, Conv.StrLen, "ab", None);
    DecorationIs(specs, "ab", None);
    PaddedClean(2, Conv.WIDTH, None);
    OneClean(x, None);
    EarlyText(x, key);
    assert SortKey(specs, 1) == ShiftedKey(key, 1);
  }

  lemma WholeFieldSelected(keys: seq<KeySpec>)
    requires |keys| == 1 && keys[0].key == Key(0, 0, 0, 0, true, true)
    ensures Selected("ab", keys, 0, None) == "ab"
  {
    OneWord("ab");
    var key := keys[0].key;
    assert Beg("ab", key, None) == 0 && Lim("ab", key, None) == 2;
    hide Beg, Lim;
    assert "ab"[0..2] == "ab";
  }

  lemma EarlyText(x: string, key: Key)
    requires Clean([x], None) && key == Key(0, 1, SIZE_MAX, 0, false, false)
    ensures KeyText("ab", key, None) == "b"
    ensures KeyText(Decorated([x], "ab", None), ShiftedKey(key, 1), None) == "ab"
  {
    assert SkipBlank("ab", 0, 0) == 0 && Beg("ab", key, None) == 1;
    ShiftedStartWithBlanks([x], "ab", key);
    hide Clean, Beg, SkipBlank, Lim;
    DecoratedWithBlanks([x], "ab");
    var a := Prefix([x], ' ');
    hide Decorated, Prefix;
    assert !ShiftedKey(key, 1).Bounded();
    assert "ab"[1..] == "b" && (a + "ab")[|a|..] == "ab";
  }

  // --- Other modes -------------------------------------------------------------------------

  lemma RowSplit(a: string, b: string, c: string)
    requires '\t' !in a && '\t' !in b && '\t' !in c
    ensures TextLines.Split(a + "\t" + b + "\t" + c, Some('\t')) == [a, b, c]
  {
    TextLines.JoinCons(c, [], '\t');
    TextLines.JoinCons(b, [c], '\t');
    TextLines.JoinCons(a, [b, c], '\t');
    assert [b] + [c] == [b, c] && [a] + [b, c] == [a, b, c];
    TextLines.SplitJoin([a, b, c], '\t');
    hide TextLines.Split, TextLines.Join;
    assert a + "\t" + (b + "\t" + c) == a + "\t" + b + "\t" + c;
  }

  /** datamash crosstab 1,2 last 3. */
  function LastOfThird(parse: string -> Option<real>): GroupBy.Config {
    GroupBy.Config(FieldOps.Env(parse, false, true, ','), false, false, [1, 2],
                   [GroupBy.OpSpec(FieldOps.Last, 3, false)])
  }

  function AsText(cell: FieldOps.Cell): string {
    if cell.Str? then cell.text else ""
  }

  lemma LastConfig(parse: string -> Option<real>)
    ensures CrosstabGroups.IsCrosstab(LastOfThird(parse))
  {
  }

  lemma ThirdColumn(l: GroupBy.Line)
    requires |l| == 3
    ensures GroupBy.Column([l], 3) == [l[2]]
  {
    assert [l][..0] == [];
  }

  lemma LastIsStatistic(env: FieldOps.Env, s: string, xs: seq<real>, ys: seq<real>, r: Option<FieldOps.Cell>)
    requires |xs| == 1 && FieldOps.IsStatistic(env, FieldOps.Last, [s], xs, ys, r)
    ensures r == Some(FieldOps.Str(s))
  {
  }

  /** The last value of a group of one line. */
  lemma LastOfLine(parse: string -> Option<real>, l: GroupBy.Line)
    requires |l| == 3 && NUL !in l[2]
    ensures LastOfThird(parse).Valid()
    ensures GroupBy.ResultOf(LastOfThird(parse), [l], 0) == Some(FieldOps.Str(l[2]))
  {
    var cfg := LastOfThird(parse);
    ThirdColumn(l);
    FieldOps.KeptAll(cfg.env, [l[2]]);
    hide FieldOps.Kept, GroupBy.Column, GroupBy.ResultOf, FieldOps.IsStatistic, FieldOps.Inputs;
    GroupFacts.CellIsStatistic(cfg, [l], 0);
    LastIsStatistic(cfg.env, l[2], FieldOps.Inputs(cfg.env, FieldOps.Last, [l[2]]), [],
                    GroupBy.ResultOf(cfg, [l], 0));
  }

  lemma ReadsLine(parse: string -> Option<real>, l: GroupBy.Line)
    requires |l| == 3 && LastOfThird(parse).Valid()
    ensures GroupBy.LineOk(LastOfThird(parse), l) && GroupFacts.HasKeys(LastOfThird(parse), l)
  {
  }

  lemma LastOfOne(parse: string -> Option<real>, l: GroupBy.Line)
    requires |l| == 3 && NUL !in l[2]
    ensures var cfg := LastOfThird(parse);
      && CrosstabGroups.IsCrosstab(cfg) && CrosstabGroups.Tabulates(cfg, [l])
      && CrosstabGroups.GroupResult(cfg, [l], AsText) == Crosstab.Result(l[0], l[1], l[2])
  {
    LastConfig(parse);
    LastOfLine(parse, l);
    ReadsLine(parse, l);
    hide GroupBy.ResultOf, GroupBy.LineOk, GroupFacts.HasKeys;
  }

  /** Lines that all start a new group. */
  lemma ThreeRuns(cfg: GroupBy.Config, a: GroupBy.Line, b: GroupBy.Line, c: GroupBy.Line)
    requires cfg.Valid() && GroupBy.Breaks(cfg, a, b) == Some(true) && GroupBy.Breaks(cfg, b, c) == Some(true)
    ensures GroupBy.Runs(cfg, [a, b, c]) == [[a], [b], [c]]
  {
    hide GroupBy.Breaks, GroupBy.Config.Valid, GroupBy.Flatten, GroupBy.Runs;
    ThreeFlat(a, b, c);
    GroupBy.PartitionUnique(cfg, [[a], [b], [c]], [a, b, c]);
  }

  lemma ThreeFlat(a: GroupBy.Line, b: GroupBy.Line, c: GroupBy.Line)
    ensures GroupBy.Flatten([[a], [b], [c]]) == [a, b, c]
  {
    hide GroupBy.Flatten;
    GroupBy.FlattenEmpty();
    GroupBy.FlattenSnoc([], [a]);
    GroupBy.FlattenSnoc([[a]], [b]);
    GroupBy.FlattenSnoc([[a], [b]], [c]);
    assert [] + [[a]] == [[a]] && [[a]] + [[b]] == [[a], [b]] && [[a], [b]] + [[c]] == [[a], [b], [c]];
    assert [] + [a] == [a] && [a] + [b] == [a, b] && [a, b] + [c] == [a, b, c];
  }

  lemma FirstNamesDiffer(parse: string -> Option<real>, a: GroupBy.Line, b: GroupBy.Line)
    requires |a| == 3 && |b| == 3 && a[0] != b[0] && LastOfThird(parse).Valid()
    ensures GroupBy.Breaks(LastOfThird(parse), a, b) == Some(true)
  {
  }

  /** The last value for the cell (a, x) is 3, but its groups are not next to each other, and the
      table shows 1. */
  lemma SecondGroupLost(parse: string -> Option<real>)
    ensures var cfg := LastOfThird(parse);
      var ls := TextLines.LinesOf(["a\tx\t1", "b\tx\t2", "a\tx\t3"], Some('\t'));
      && CrosstabGroups.IsCrosstab(cfg) && CrosstabGroups.AllTabulate(cfg, GroupBy.Runs(cfg, ls))
      && var rs := CrosstabGroups.Results(cfg, GroupBy.Runs(cfg, ls), AsText);
      && rs == [Crosstab.Result("a", "x", "1"), Crosstab.Result("b", "x", "2"), Crosstab.Result("a", "x", "3")]
      && Crosstab.FirstData(rs, "a", "x") == Some("1")
  {
    hide *;
    var cfg := LastOfThird(parse);
    var (a, b, c) := (["a", "x", "1"], ["b", "x", "2"], ["a", "x", "3"]);
    ThreeLines();
    NoNul();
    LastOfOne(parse, a);
    LastOfOne(parse, b);
    LastOfOne(parse, c);
    LastOfLine(parse, a);
    FirstNamesDiffer(parse, a, b);
    FirstNamesDiffer(parse, b, c);
    ThreeRuns(cfg, a, b, c);
    ThreeTabulate(cfg, [a], [b], [c]);
    ThreeResults();
  }

  lemma NoNul()
    ensures NUL !in "1" && NUL !in "2" && NUL !in "3"
  {
  }

  lemma ThreeTabulate(cfg: GroupBy.Config, g: seq<GroupBy.Line>, h: seq<GroupBy.Line>, k: seq<GroupBy.Line>)
    requires CrosstabGroups.IsCrosstab(cfg)
    requires CrosstabGroups.Tabulates(cfg, g) && CrosstabGroups.Tabulates(cfg, h) && CrosstabGroups.Tabulates(cfg, k)
    ensures CrosstabGroups.AllTabulate(cfg, [g, h, k])
    ensures CrosstabGroups.Results(cfg, [g, h, k], AsText)
         == [CrosstabGroups.GroupResult(cfg, g, AsText), CrosstabGroups.GroupResult(cfg, h, AsText),
             CrosstabGroups.GroupResult(cfg, k, AsText)]
  {
    hide CrosstabGroups.Tabulates, CrosstabGroups.GroupResult, GroupBy.Config.Valid;
  }

  lemma ThreeLines()
    ensures TextLines.LinesOf(["a\tx\t1", "b\tx\t2", "a\tx\t3"], Some('\t'))
         == [["a", "x", "1"], ["b", "x", "2"], ["a", "x", "3"]]
  {
    hide *;
    LinesSplit3("a\tx\t1", "b\tx\t2", "a\tx\t3", Some('\t'));
    assert "a" + "\t" + "x" + "\t" + "1" == "a\tx\t1" && "b" + "\t" + "x" + "\t" + "2" == "b\tx\t2";
    assert "a" + "\t" + "x" + "\t" + "3" == "a\tx\t3";
    RowSplit("a", "x", "1");
    RowSplit("b", "x", "2");
    RowSplit("a", "x", "3");
  }

  lemma LinesSplit3(a: string, b: string, c: string, d: Option<char>)
    ensures TextLines.LinesOf([a, b, c], d) == [TextLines.Split(a, d), TextLines.Split(b, d), TextLines.Split(c, d)]
  {
    hide TextLines.Split;
    TextLines.LinesOfCons(c, [], d);
    TextLines.LinesOfCons(b, [c], d);
    TextLines.LinesOfCons(a, [b, c], d);
    assert [b] + [c] == [b, c] && [a] + [b, c] == [a, b, c] && [c] + [] == [c];
  }

  lemma ThreeResults()
    ensures var rs := [Crosstab.Result("a", "x", "1"), Crosstab.Result("b", "x", "2"), Crosstab.Result("a", "x", "3")];
      Crosstab.FirstData(rs, "a", "x") == Some("1")
  {
    var rs := [Crosstab.Result("a", "x", "1"), Crosstab.Result("b", "x", "2"), Crosstab.Result("a", "x", "3")];
    Crosstab.FirstDataFound(rs, "a", "x");
    hide Crosstab.FirstData;
    var d := Crosstab.FirstData(rs, "a", "x");
    assert rs[0].row == "a" && rs[0].col == "x";
  }

  /** A line of two empty fields becomes two empty lines, and these become nothing. */
  lemma EmptyFieldsLost(filler: string)
    ensures Transpose.Transposed(["\t"], '\t', true, filler) == Some(["", ""])
    ensures Transpose.Transposed(["", ""], '\t', true, filler) == Some([])
  {
    TextLines.JoinCons("", [], '\t');
    TextLines.JoinCons("", [""], '\t');
    assert [""] + [""] == ["", ""] && "" + "\t" + "" == "\t";
    TextLines.SplitJoin(["", ""], '\t');
    var m := TextLines.LinesOf(["\t"], Some('\t'));
    assert ["\t"][1..] == [] && m == [["", ""]];
    Transpose.RectangularEven(m, 2);
    var e := TextLines.LinesOf(["", ""], Some('\t'));
    assert ["", ""][1..] == [""] && [""][1..] == [] && e == [[], []];
    Transpose.RectangularEven(e, 0);
    hide TextLines.LinesOf, TextLines.Split, Transpose.Width;
    assert Transpose.Joined(Transpose.Flipped(m, filler), '\t') == ["", ""];
    assert Transpose.Joined(Transpose.Flipped(e, filler), '\t') == [];
  }
}
