/** Inputs and outputs written out in full. */
module Worked {
  import opened Text
  import opened Numerals
  import opened OpScanner
  import opened OpParser
  import opened OpPrinter
  import opened KeyCompare
  import opened KeySpec
  import opened KeySyntax
  import KeyShift
  import FieldOps
  import OpLists
  import Conv = Conversions
  import DoubleFormat
  import Extensions
  import TextLines
  import Transpose

  // --- The operation language --------------------------------------------------------------

  lemma Digits()
    ensures Decimal(1) == "1" && Decimal(2) == "2" && Decimal(3) == "3" && Decimal(4) == "4" && Decimal(5) == "5"
    ensures Decimal(90) == "90"
  {
    assert Decimal(90) == Decimal(9) + [DigitChar(0)];
  }

  lemma Names()
    ensures Escaped("sum", true) == "sum" && Escaped("perc", true) == "perc"
    ensures Escaped("a-b", true) == "a\\-b"
  {
    assert Escaped("m", false) == "m" && Escaped("um", false) == "um";
    assert Escaped("c", false) == "c" && Escaped("rc", false) == "rc" && Escaped("erc", false) == "erc";
    assert Escaped("b", false) == "b" && Escaped("-b", false) == "\\-b";
  }

  /** What a single request parses to. */
  lemma RequestRead(r: Request, op: Op, table: OpTable)
    requires r.Good() && table(r.name, r.params) == Some(op) && Suits(op, r.columns)
    ensures OperationsAt(r.Show(), table, [], 0) == Some(ExpandedAll([], op, r.columns))
  {
    hide OperationsAt, ExpandedAll, Suits, Request.Good, Request.Show;
    ParsePrinted(table, [r]);
    assert ShowAll([r]) == r.Show() && [r][1..] == [];
    var ops := ExpandedAll([], op, r.columns);
    assert Requested(table, ops, []) == Some(ops);
  }

  /** "sum 1-3,5" sums the columns 1, 2, 3 and 5. */
  lemma SumColumns(table: OpTable)
    requires table("sum", []) == Some(FieldOps.Sum)
    ensures OperationsAt("sum 1-3,5", table, [], 0) == Some([
      ParsedOp(FieldOps.Sum, Number(1), false, false, 0), ParsedOp(FieldOps.Sum, Number(2), false, false, 0),
      ParsedOp(FieldOps.Sum, Number(3), false, false, 0), ParsedOp(FieldOps.Sum, Number(5), false, false, 0)])
  {
    hide OperationsAt, Decimal, Escaped, ExpandedAll;
    var cs := [Range(1, 3), One(Number(5))];
    var r := Request("sum", [], cs);
    Digits();
    Names();
    assert cs[1..] == [One(Number(5))];
    assert ShowColumns(cs) == ("1" + ("-" + "3")) + ("," + "5") == "1-3,5";
    assert r.Show() == "sum" + ("" + (" " + "1-3,5")) == "sum 1-3,5";
    RequestRead(r, FieldOps.Sum, table);
    TwoItems(FieldOps.Sum);
  }

  lemma TwoItems(op: Op)
    ensures ExpandedAll([], op, [Range(1, 3), One(Number(5))])
         == [Plain(op, Number(1)), Plain(op, Number(2)), Plain(op, Number(3)), Plain(op, Number(5))]
  {
    OpLists.ExpandedOne([], op, Range(1, 3));
    OpLists.ExpandedSnoc([], op, [Range(1, 3)], One(Number(5)));
    hide ExpandedAll;
    assert [Range(1, 3)] + [One(Number(5))] == [Range(1, 3), One(Number(5))];
    assert Span(op, 1, 3) == [Plain(op, Number(1)), Plain(op, Number(2)), Plain(op, Number(3))];
  }

  /** "perc:90 a\-b" asks for the 90th percentile of the column named a-b. */
  lemma PercentileOfName(table: OpTable)
    requires table("perc", [IntParam(90)]) == Some(FieldOps.Percentile(90.0))
    ensures OperationsAt("perc:90 a\\-b", table, [], 0)
         == Some([ParsedOp(FieldOps.Percentile(90.0), Named("a-b"), false, false, 0)])
  {
    hide OperationsAt, Decimal, Escaped;
    var op := FieldOps.Percentile(90.0);
    var r := Request("perc", [IntParam(90)], [One(Named("a-b"))]);
    Digits();
    Names();
    assert r.params[1..] == [] && ShowParams(r.params) == ":" + ("90" + "") == ":90";
    assert r.Show() == "perc" + (":90" + (" " + "a\\-b")) == "perc:90 a\\-b";
    RequestRead(r, op, table);
    OneItem(op, Named("a-b"));
  }

  lemma OneItem(op: Op, f: FieldRef)
    ensures ExpandedAll([], op, [One(f)]) == [Plain(op, f)]
  {
    assert [One(f)][..0] == [];
  }

  // --- Sort keys ---------------------------------------------------------------------------

  /** "2.3b,4.5nr" runs from the third character after the blanks of field 2 to the fifth of field 4,
      and is compared as a number, in reverse. */
  lemma NumericKey()
    ensures KeyAt("2.3b,4.5nr") == Some((SortKey(Key(1, 2, 3, 5, true, false), {'n', 'r'}), 10))
  {
    hide *;
    var (start, end) := (Position(2, Some(3), "b"), Position(4, Some(5), "nr"));
    NumericText(start, end);
    SpecificationRead(start, Some(end));
    NumericMeans(start, end);
  }

  lemma NumericText(start: Position, end: Position)
    requires start == Position(2, Some(3), "b") && end == Position(4, Some(5), "nr")
    ensures start.Good() && end.Good() && ShowEnds(start, Some(end)) == "2.3b,4.5nr"
  {
    hide Decimal;
    Digits();
    assert start.Show() == "2" + ("." + "3" + "b") == "2.3b";
    assert end.Show() == "4" + ("." + "5" + "nr") == "4.5nr";
    hide Position.Show;
    assert "2.3b" + ("," + "4.5nr") == "2.3b,4.5nr";
  }

  lemma NumericMeans(start: Position, end: Position)
    requires start == Position(2, Some(3), "b") && end == Position(4, Some(5), "nr")
    ensures start.field > 0 && start.offset != Some(0) && end.field > 0
    ensures Meant(start, Some(end)) == SortKey(Key(1, 2, 3, 5, true, false), {'n', 'r'})
  {
    assert WithFlags({}, "b") == {} && WithFlags({}, "nr") == {'n', 'r'};
    hide WithFlags;
  }

  // --- Conversions -------------------------------------------------------------------------

  lemma Bytes()
    ensures Fixed(192, 16, 2) == "C0" && Fixed(168, 16, 2) == "A8" && Fixed(0, 16, 2) == "00" && Fixed(1, 16, 2) == "01"
  {
    assert Fixed(12, 16, 1) == Fixed(0, 16, 0) + ['C'] && Fixed(10, 16, 1) == Fixed(0, 16, 0) + ['A'];
    assert Fixed(0, 16, 1) == Fixed(0, 16, 0) + ['0'];
  }

  /** The address 192.168.0.1. */
  lemma AddressDigits()
    ensures Conv.Ipv4(Some([192, 168, 0, 1])) == Some("C0A80001")
  {
    hide *;
    var bs := [192, 168, 0, 1];
    AddressHex();
    AddressIsHex(bs);
  }

  lemma AddressIsHex(bs: seq<nat>)
    requires |bs| == 4 && Conv.IsBytes(bs)
    ensures Conv.Ipv4(Some(bs)) == Some(Conv.Hex(bs))
  {
    Conv.HexIsFixed(bs);
    hide Fixed, Conv.BytesValue, Pow, Conv.Hex;
  }

  lemma NextByte(bs: seq<nat>, b: nat)
    ensures Conv.Hex([]) == "" && Conv.Hex(bs + [b]) == Conv.Hex(bs) + Fixed(b, 16, 2)
  {
    hide Fixed;
    assert (bs + [b])[..|bs|] == bs;
  }

  lemma AddressHex()
    ensures Conv.IsBytes([192, 168, 0, 1]) && Conv.Hex([192, 168, 0, 1]) == "C0A80001"
  {
    hide Conv.Hex, Fixed;
    Bytes();
    NextByte([], 192);
    NextByte([192], 168);
    NextByte([192, 168], 0);
    NextByte([192, 168, 0], 1);
    assert [] + [192] == [192] && [192] + [168] == [192, 168];
    assert [192, 168] + [0] == [192, 168, 0] && [192, 168, 0] + [1] == [192, 168, 0, 1];
    assert "" + "C0" + "A8" + "00" + "01" == "C0A80001";
  }

  /** The numeral XIV. */
  lemma RomanFourteen()
    ensures Conv.Roman("XIV") == Some("000000000000000000014")
  {
    assert "XIV"[1..] == "IV" && "IV"[2..] == "";
    assert Conv.RomanValue("IV") == 4 && Conv.RomanValue("XIV") == 14;
    assert Decimal(14) == Decimal(1) + [DigitChar(4)] == "14";
    hide Conv.RomanValue, Decimal, Zeros;
    NineteenZeros();
    assert "0000000000000000000" + "14" == "000000000000000000014";
  }

  /** No numerals. */
  lemma RomanRefused()
    ensures Conv.Roman("") == None && Conv.Roman("XIA") == None && Conv.Roman("x") == None
  {
    hide Conv.RomanValue, ZeroPadded;
    assert "XIA"[2] == 'A' && "x"[0] == 'x';
  }

  lemma NineteenZeros()
    ensures Zeros(19) == "0000000000000000000"
  {
    ZerosAre(19);
  }

  lemma {:induction false} ZerosAre(n: nat)
    ensures |Zeros(n)| == n && forall i :: 0 <= i < n ==> Zeros(n)[i] == '0'
  {
    if n > 0 {
      ZerosAre(n - 1);
    }
  }

  /** A decorated line: the converted fields, each with a blank or the -t character, and the line. */
  lemma DecoratedText(a: string, b: string, s: string, t: char)
    ensures KeyShift.Decorated([a, b], s, None) == a + " " + b + " " + s
    ensures KeyShift.Decorated([a, b], s, Some(t)) == a + [t] + b + [t] + s
  {
    assert [a, b][1..] == [b] && [b][1..] == [];
    assert forall sep: char :: KeyShift.Prefix([b], sep) == b + [sep] + "";
    assert forall sep: char :: KeyShift.Prefix([a, b], sep) == a + [sep] + (b + [sep] + "");
  }

  // --- Formats and names -------------------------------------------------------------------

  /** "%5.2f%%" prints with "%5.2Lf%%". */
  lemma LongFormat()
    ensures DoubleFormat.Validated("%5.2f%%") == Some("%5.2Lf%%")
  {
    var p := DoubleFormat.Parts("", "", "5", Some("2"), 'f', "%%");
    assert DoubleFormat.IsText("%%", 2, 2) && DoubleFormat.IsText("%%", 0, 2);
    assert DoubleFormat.IsText("", 0, 0);
    hide DoubleFormat.IsText;
    assert p.Directive() == "%" + ("" + ("5" + "." + "2"));
    assert p.Show() == "%5.2f%%" && p.ShowLong() == "%5.2Lf%%";
    hide DoubleFormat.Parts.Show, DoubleFormat.Parts.ShowLong, DoubleFormat.Validated;
    DoubleFormat.AcceptsGrammar("%5.2f%%", p);
  }

  /** The name a.tar.gz has the extension tar.gz. */
  lemma DoubleExtension()
    ensures Extensions.BareOf("a.tar.gz") == "a" && Extensions.ExtOf("a.tar.gz") == "tar.gz"
  {
    var s := "a.tar.gz";
    assert s[5..8] == ".gz" && s[1..5] == ".tar" && s[2..5] == "tar";
    assert Extensions.Ordinary(s, 1, 5);
    assert Extensions.Chain(s, 5, 5) && Extensions.Chain(s, 5, 8);
    assert Extensions.EndsAt(s, 1, 5);
    assert Extensions.ExtensionFrom(s, 1);
    Extensions.GuessIsExtension(s, 1);
    hide Extensions.ExtStart;
    assert s[..1] == "a" && s[2..] == "tar.gz";
  }

  // --- Transposed text ---------------------------------------------------------------------

  /** Two uneven lines, with the filler N/A. */
  lemma UnevenTransposed()
    ensures Transpose.Transposed(["a\tb", "c"], '\t', false, "N/A") == Some(["a\tc", "b\tN/A"])
    ensures Transpose.Transposed(["a\tb", "c"], '\t', true, "N/A") == None
  {
    hide *;
    var lines := ["a\tb", "c"];
    FirstLine();
    SecondLine();
    ColumnText("a", "c");
    ColumnText("b", "N/A");
    assert "a" + "\t" + "c" == "a\tc" && "b" + "\t" + "N/A" == "b\tN/A";
    Transpose.TransposedSays(lines, '\t', false, "N/A");
    Transpose.TransposedSays(lines, '\t', true, "N/A");
    assert lines[0] == "a\tb" && lines[1] == "c";
    TwoColumns(lines, Transpose.Transposed(lines, '\t', false, "N/A").value);
    UnevenLines(lines);
  }

  lemma ColumnText(a: string, b: string)
    ensures TextLines.Join([a, b], '\t') == a + "\t" + b
  {
    TextLines.JoinCons(a, [b], '\t');
    TextLines.JoinCons(b, [], '\t');
    assert [a] + [b] == [a, b];
  }

  lemma FirstLine()
    ensures TextLines.Split("a\tb", Some('\t')) == ["a", "b"]
  {
    ColumnText("a", "b");
    TextLines.SplitJoin(["a", "b"], '\t');
    hide TextLines.Split, TextLines.Join;
    assert "a" + "\t" + "b" == "a\tb";
  }

  lemma SecondLine()
    ensures TextLines.Split("c", Some('\t')) == ["c"]
  {
    TextLines.JoinCons("c", [], '\t');
    TextLines.SplitJoin(["c"], '\t');
    hide TextLines.Split;
  }

  lemma TwoColumns(lines: seq<string>, out: seq<string>)
    requires lines == ["a\tb", "c"] && |out| == 2
    requires TextLines.Split(lines[0], Some('\t')) == ["a", "b"] && TextLines.Split(lines[1], Some('\t')) == ["c"]
    requires forall i :: 0 <= i < 2 ==> Transpose.ShowsColumn(out[i], lines, i, '\t', "N/A")
    ensures out == [TextLines.Join(["a", "c"], '\t'), TextLines.Join(["b", "N/A"], '\t')]
  {
    hide TextLines.Split, TextLines.Join;
    assert Transpose.ShowsColumn(out[0], lines, 0, '\t', "N/A") && Transpose.ShowsColumn(out[1], lines, 1, '\t', "N/A");
    var first :| Transpose.IsColumn(first, lines, 0, '\t', "N/A") && out[0] == TextLines.Join(first, '\t');
    var second :| Transpose.IsColumn(second, lines, 1, '\t', "N/A") && out[1] == TextLines.Join(second, '\t');
    assert first == ["a", "c"] && second == ["b", "N/A"];
  }

  lemma UnevenLines(lines: seq<string>)
    requires |lines| == 2
    requires TextLines.Split(lines[0], Some('\t')) == ["a", "b"] && TextLines.Split(lines[1], Some('\t')) == ["c"]
    ensures 0 < 1 < |lines| && Transpose.Uneven(lines, 1, '\t')
  {
    hide TextLines.Split;
  }
}
