/** The output header line and the result lines have the same columns (print_column_headers,
    print_input_line and summarize_field_ops in src/datamash.c). */
module Headers {
  import opened Text
  import opened GroupBy
  import FieldOps
  import TextLines

  type Op = FieldOps.Op

  /** What print_column_headers does: print a line, report a column the input does not have, or
      fail an assertion of get_input_field_name. */
  datatype Header = Printed(tokens: seq<Token>) | NotEnoughFields(column: nat) | AssertionFails

  function Then(front: seq<Token>, h: Header): Header {
    if h.Printed? then Printed(front + h.tokens) else h
  }

  /** The headers of the key columns from key i on. */
  function KeyHeaders(cfg: Config, names: seq<string>, i: nat): Header
    requires cfg.Valid() && i <= |cfg.groups|
    decreases |cfg.groups| - i
  {
    if i == |cfg.groups| then Printed([]) else
    var c := cfg.groups[i];
    if c > |names| then NotEnoughFields(c)
    else Then([Token.Text("GroupBy(" + names[c - 1] + ")"), Tab], KeyHeaders(cfg, names, i + 1))
  }

  /** The columns after the first one of the operations that operation i starts, and the last of
      these operations; None if the input lacks one of them. */
  function Partners(cfg: Config, names: seq<string>, i: nat): (r: Option<(string, nat)>)
    requires cfg.Valid() && i < |cfg.ops|
    ensures r.Some? ==> i <= r.value.1 < |cfg.ops|
    decreases |cfg.ops| - i
  {
    if !cfg.ops[i].subordinate then Some(("", i))
    else if cfg.ops[i + 1].field > |names| then None
    else match Partners(cfg, names, i + 1)
      case None => None
      case Some((text, j)) => Some(("," + names[cfg.ops[i + 1].field - 1] + text, j))
  }

  /** The headers of the operations from i on. */
  function OpHeaders(cfg: Config, names: seq<string>, opName: Op -> string, i: nat): Header
    requires cfg.Valid() && i <= |cfg.ops|
    decreases |cfg.ops| - i
  {
    if i == |cfg.ops| then Printed([Eol])
    else if cfg.ops[i].field > |names| then NotEnoughFields(cfg.ops[i].field)
    else match Partners(cfg, names, i)
      case None => AssertionFails
      case Some((text, j)) =>
        Then([Token.Text(CellText(cfg, names, opName, i, text))] + Sep(cfg, j), OpHeaders(cfg, names, opName, j + 1))
  }

  /** The header of operation i with its further columns. */
  function CellText(cfg: Config, names: seq<string>, opName: Op -> string, i: nat, text: string): string
    requires cfg.Valid() && i < |cfg.ops| && cfg.ops[i].field <= |names|
  {
    opName(cfg.ops[i].op) + "(" + names[cfg.ops[i].field - 1] + text + ")"
  }

  /** The separator after operation j. */
  function Sep(cfg: Config, j: nat): seq<Token> {
    if j != |cfg.ops| - 1 then [Tab] else []
  }

  function HeaderLine(cfg: Config, names: seq<string>, opName: Op -> string): Header
    requires cfg.Valid()
  {
    var keys := if cfg.full then Printed(FullTokens(names)) else KeyHeaders(cfg, names, 0);
    if keys.Printed? then Then(keys.tokens, OpHeaders(cfg, names, opName, 0)) else keys
  }

  // --- The loops ---------------------------------------------------------------------------

  /** print_column_headers; opName is the table of operation names. The inner loop never leaves the
      list of operations. */
  method PrintColumnHeaders(cfg: Config, names: seq<string>, opName: Op -> string) returns (r: Header)
    requires cfg.Valid()
    ensures r == HeaderLine(cfg, names, opName)
  {
    hide KeyHeaders, OpHeaders, FullTokens;
    var keys;
    if cfg.full {
      var out := PrintNames(names);
      keys := Printed(out);
    } else {
      keys := PrintKeys(cfg, names);
    }
    if !keys.Printed? {
      return keys;
    }
    var ops := PrintOps(cfg, names, opName);
    r := Then(keys.tokens, ops);
  }

  method PrintNames(names: seq<string>) returns (out: seq<Token>)
    ensures out == FullTokens(names)
  {
    out := [];
    var n := 0;
    assert names[0..] == names;
    while n < |names|
      invariant 0 <= n <= |names| && out + FullTokens(names[n..]) == FullTokens(names)
    {
      assert names[n..][1..] == names[n + 1..];
      out := out + [Token.Text(names[n]), Tab];
      n := n + 1;
    }
  }

  method PrintKeys(cfg: Config, names: seq<string>) returns (r: Header)
    requires cfg.Valid()
    ensures r == KeyHeaders(cfg, names, 0)
  {
    var out := [];
    var i := 0;
    ThenNone(KeyHeaders(cfg, names, 0));
    while i < |cfg.groups|
      invariant 0 <= i <= |cfg.groups| && Then(out, KeyHeaders(cfg, names, i)) == KeyHeaders(cfg, names, 0)
    {
      var c := cfg.groups[i];
      if c > |names| {
        return NotEnoughFields(c);
      }
      ghost var cell := [Token.Text("GroupBy(" + names[c - 1] + ")"), Tab];
      ThenThen(out, cell, KeyHeaders(cfg, names, i + 1));
      out := out + [Token.Text("GroupBy(" + names[c - 1] + ")"), Tab];
      i := i + 1;
    }
    assert out + [] == out;
    r := Printed(out);
  }

  method PrintOps(cfg: Config, names: seq<string>, opName: Op -> string) returns (r: Header)
    requires cfg.Valid()
    ensures r == OpHeaders(cfg, names, opName, 0)
  {
    hide Partners, Config.Valid, OpHeaders;
    var out: seq<Token> := [];
    var i := 0;
    ThenNone(OpHeaders(cfg, names, opName, 0));
    OpHeadersEnd(cfg, names, opName);
    while i < |cfg.ops|
      invariant 0 <= i <= |cfg.ops|
      invariant Then(out, OpHeaders(cfg, names, opName, i)) == OpHeaders(cfg, names, opName, 0)
    {
      if cfg.ops[i].field > |names| {
        OpHeadersStep(cfg, names, opName, i);
        return NotEnoughFields(cfg.ops[i].field);
      }
      var first := i;
      ghost var partners := Partners(cfg, names, first);
      var ok, text, j := PrintPartners(cfg, names, first);
      if !ok {
        OpHeadersStep(cfg, names, opName, first);
        return AssertionFails;
      }
      FieldsStart(cfg, first);
      var cell := opName(cfg.ops[first].op) + "(" + names[cfg.ops[first].field - 1] + text + ")";
      var sep := if j != |cfg.ops| - 1 then [Tab] else [];
      OpHeadersStep(cfg, names, opName, first);
      ThenThen(out, [Token.Text(cell)] + sep, OpHeaders(cfg, names, opName, j + 1));
      out := out + ([Token.Text(cell)] + sep);
      i := j + 1;
    }
    r := Printed(out + [Eol]);
  }

  lemma OpHeadersEnd(cfg: Config, names: seq<string>, opName: Op -> string)
    requires cfg.Valid()
    ensures OpHeaders(cfg, names, opName, |cfg.ops|) == Printed([Eol])
  {
  }

  lemma OpHeadersStep(cfg: Config, names: seq<string>, opName: Op -> string, i: nat)
    requires cfg.Valid() && i < |cfg.ops|
    ensures cfg.ops[i].field > |names| ==> OpHeaders(cfg, names, opName, i) == NotEnoughFields(cfg.ops[i].field)
    ensures cfg.ops[i].field <= |names| ==>
      var r := Partners(cfg, names, i);
      OpHeaders(cfg, names, opName, i) == if r.None? then AssertionFails else
        Then([Token.Text(CellText(cfg, names, opName, i, r.value.0))] + Sep(cfg, r.value.1),
             OpHeaders(cfg, names, opName, r.value.1 + 1))
  {
    hide Partners, Config.Valid, CellText, Sep;
  }

  lemma FieldsStart(cfg: Config, i: nat)
    requires cfg.Valid() && i < |cfg.ops|
    ensures cfg.ops[i].field > 0
  {
  }

  /** The inner loop of print_column_headers. */
  method PrintPartners(cfg: Config, names: seq<string>, first: nat) returns (ok: bool, text: string, i: nat)
    requires cfg.Valid() && first < |cfg.ops|
    ensures var r := Partners(cfg, names, first);
      && ok == r.Some?
      && (ok ==> text == r.value.0 && i == r.value.1)
    ensures ok ==> first <= i < |cfg.ops|
  {
    i, text := first, "";
    WithNone(Partners(cfg, names, first));
    while cfg.ops[i].subordinate
      invariant first <= i < |cfg.ops|
      invariant With(text, Partners(cfg, names, i)) == Partners(cfg, names, first)
      decreases |cfg.ops| - i
    {
      i := i + 1;
      if cfg.ops[i].field > |names| {
        return false, text, i;
      }
      var more := "," + names[cfg.ops[i].field - 1];
      WithWith(text, more, Partners(cfg, names, i));
      text := text + more;
    }
    assert text + "" == text;
    ok := true;
  }

  function With(text: string, r: Option<(string, nat)>): Option<(string, nat)> {
    match r
    case None => None
    case Some((more, j)) => Some((text + more, j))
  }

  lemma WithNone(r: Option<(string, nat)>)
    ensures With("", r) == r
  {
    if r.Some? {
      assert "" + r.value.0 == r.value.0;
    }
  }

  lemma WithWith(a: string, b: string, r: Option<(string, nat)>)
    ensures With(a, With(b, r)) == With(a + b, r)
  {
    if r.Some? {
      assert a + (b + r.value.0) == (a + b) + r.value.0;
    }
  }

  lemma ThenNone(h: Header)
    ensures Then([], h) == h
  {
    if h.Printed? {
      assert [] + h.tokens == h.tokens;
    }
  }

  lemma ThenThen(a: seq<Token>, b: seq<Token>, h: Header)
    ensures Then(a, Then(b, h)) == Then(a + b, h)
  {
    if h.Printed? {
      assert a + (b + h.tokens) == (a + b) + h.tokens;
    }
  }

  // --- When a header is printed ------------------------------------------------------------

  lemma {:induction false} KeysPrinted(cfg: Config, names: seq<string>, i: nat)
    requires cfg.Valid() && i <= |cfg.groups|
    ensures KeyHeaders(cfg, names, i).Printed? <==> forall k :: i <= k < |cfg.groups| ==> cfg.groups[k] <= |names|
    ensures !KeyHeaders(cfg, names, i).AssertionFails?
    decreases |cfg.groups| - i
  {
    if i < |cfg.groups| {
      KeysPrinted(cfg, names, i + 1);
    }
  }

  /** Operation k completes the subordinate one before it. */
  predicate Second(cfg: Config, k: nat)
    requires k < |cfg.ops|
  {
    k > 0 && cfg.ops[k - 1].subordinate
  }

  /** The operations after i up to j are partners of the ones before them, and their columns exist. */
  ghost predicate Chained(cfg: Config, n: nat, i: nat, j: nat)
    requires i <= j < |cfg.ops|
  {
    forall k :: i < k <= j ==> cfg.ops[k].field <= n && Second(cfg, k)
  }

  lemma {:induction false} PartnersFound(cfg: Config, names: seq<string>, i: nat)
    requires cfg.Valid() && i < |cfg.ops|
    ensures var r := Partners(cfg, names, i);
      && (r.None? ==> exists k :: i < k < |cfg.ops| && cfg.ops[k].field > |names| && Second(cfg, k))
      && (r.Some? ==> !cfg.ops[r.value.1].subordinate && Chained(cfg, |names|, i, r.value.1))
    decreases |cfg.ops| - i
  {
    PartnersStep(cfg, names, i);
    hide Partners, Config.Valid, Second;
    if cfg.ops[i].subordinate && cfg.ops[i + 1].field <= |names| {
      PartnersFound(cfg, names, i + 1);
    }
  }

  lemma PartnersStep(cfg: Config, names: seq<string>, i: nat)
    requires cfg.Valid() && i < |cfg.ops|
    ensures cfg.ops[i].subordinate ==> i + 1 < |cfg.ops| && Second(cfg, i + 1)
    ensures !cfg.ops[i].subordinate ==> Partners(cfg, names, i) == Some(("", i))
    ensures cfg.ops[i].subordinate && cfg.ops[i + 1].field > |names| ==> Partners(cfg, names, i) == None
    ensures cfg.ops[i].subordinate && cfg.ops[i + 1].field <= |names| ==>
      var r := Partners(cfg, names, i + 1);
      Partners(cfg, names, i).Some? == r.Some? && (r.Some? ==> Partners(cfg, names, i).value.1 == r.value.1)
  {
  }

  /** The first operation from i on whose column the input lacks. */
  function FirstMissing(cfg: Config, n: nat, i: nat): (k: nat)
    requires i <= |cfg.ops|
    ensures i <= k <= |cfg.ops|
    ensures forall m :: i <= m < k ==> cfg.ops[m].field <= n
    ensures k < |cfg.ops| ==> cfg.ops[k].field > n
    decreases |cfg.ops| - i
  {
    if i == |cfg.ops| || cfg.ops[i].field > n then i else FirstMissing(cfg, n, i + 1)
  }

  lemma MissingStep(cfg: Config, n: nat, i: nat)
    requires i < |cfg.ops|
    ensures FirstMissing(cfg, n, i) == if cfg.ops[i].field > n then i else FirstMissing(cfg, n, i + 1)
  {
  }

  /** The inner loop fails exactly if it comes to a missing column. */
  lemma {:induction false} PartnersMissing(cfg: Config, names: seq<string>, i: nat)
    requires cfg.Valid() && i < |cfg.ops| && cfg.ops[i].field <= |names|
    ensures var (r, k) := (Partners(cfg, names, i), FirstMissing(cfg, |names|, i));
      && (r.None? ==> i < k < |cfg.ops| && Second(cfg, k))
      && (r.Some? ==> k == FirstMissing(cfg, |names|, r.value.1 + 1) && !cfg.ops[r.value.1].subordinate)
    decreases |cfg.ops| - i
  {
    hide *;
    PartnersStep(cfg, names, i);
    MissingStep(cfg, |names|, i);
    if cfg.ops[i].subordinate {
      MissingStep(cfg, |names|, i + 1);
      if cfg.ops[i + 1].field <= |names| {
        PartnersMissing(cfg, names, i + 1);
      }
    }
  }

  /** What becomes of the header of the operations from i on: the first missing column k decides. */
  predicate OpsOutcome(cfg: Config, n: nat, i: nat, h: Header)
    requires i <= |cfg.ops|
  {
    var k := FirstMissing(cfg, n, i);
    if k == |cfg.ops| then h.Printed?
    else if k > i && Second(cfg, k) then h.AssertionFails?
    else h == NotEnoughFields(cfg.ops[k].field)
  }

  lemma {:induction false} OpsHeader(cfg: Config, names: seq<string>, opName: Op -> string, i: nat)
    requires cfg.Valid() && i <= |cfg.ops|
    ensures OpsOutcome(cfg, |names|, i, OpHeaders(cfg, names, opName, i))
    decreases |cfg.ops| - i
  {
    hide Partners, Config.Valid, Second, OpHeaders, CellText, Sep;
    if i == |cfg.ops| {
      OpHeadersEnd(cfg, names, opName);
    } else {
      OpHeadersStep(cfg, names, opName, i);
      if cfg.ops[i].field <= |names| {
        PartnersMissing(cfg, names, i);
        var r := Partners(cfg, names, i);
        if r.Some? {
          OpsHeader(cfg, names, opName, r.value.1 + 1);
          NotSecond(cfg, r.value.1);
        }
      }
    }
  }

  lemma NotSecond(cfg: Config, j: nat)
    requires j < |cfg.ops| && !cfg.ops[j].subordinate
    ensures j + 1 < |cfg.ops| ==> !Second(cfg, j + 1)
  {
  }

  predicate KeysExist(cfg: Config, names: seq<string>) {
    cfg.full || forall k :: 0 <= k < |cfg.groups| ==> cfg.groups[k] <= |names|
  }

  /** The header is printed exactly if the input has every column it names. */
  lemma HeaderPrinted(cfg: Config, names: seq<string>, opName: Op -> string)
    requires cfg.Valid()
    ensures HeaderLine(cfg, names, opName).Printed? <==>
      KeysExist(cfg, names) && forall k :: 0 <= k < |cfg.ops| ==> cfg.ops[k].field <= |names|
  {
    KeysPrinted(cfg, names, 0);
    OpsHeader(cfg, names, opName, 0);
    hide OpHeaders, KeyHeaders, FullTokens, Config.Valid, Second;
  }

  /** Only the first column of each operation is checked before it is used: printing the header
      fails the assertion of get_input_field_name, instead of reporting the missing column, exactly
      if the keys are there and the first operation whose column is missing is the second of a pair. */
  lemma PartnerAsserts(cfg: Config, names: seq<string>, opName: Op -> string)
    requires cfg.Valid()
    ensures HeaderLine(cfg, names, opName).AssertionFails? <==>
      KeysExist(cfg, names)
      && exists k :: 0 < k < |cfg.ops| && Second(cfg, k) && cfg.ops[k].field > |names|
                     && forall m :: 0 <= m < k ==> cfg.ops[m].field <= |names|
  {
    KeysPrinted(cfg, names, 0);
    OpsHeader(cfg, names, opName, 0);
    hide OpHeaders, KeyHeaders, FullTokens, Config.Valid;
    var k := FirstMissing(cfg, |names|, 0);
    assert k < |cfg.ops| && Second(cfg, k) ==> k > 0;
  }

  // --- Header and rows have the same columns -----------------------------------------------

  datatype Shape = Cell | Separator | LineEnd

  function ShapeOf(t: Token): Shape {
    match t
    case Text(_) => Cell
    case Value(_) => Cell
    case Tab => Separator
    case Eol => LineEnd
  }

  function Shapes(ts: seq<Token>): (r: seq<Shape>)
    ensures |r| == |ts| && forall i :: 0 <= i < |ts| ==> r[i] == ShapeOf(ts[i])
  {
    if ts == [] then [] else [ShapeOf(ts[0])] + Shapes(ts[1..])
  }

  lemma ShapesConcat(a: seq<Token>, b: seq<Token>)
    ensures Shapes(a + b) == Shapes(a) + Shapes(b)
  {
    hide ShapeOf;
  }

  /** Equal shapes in front and behind. */
  lemma SameShape(a: seq<Token>, b: seq<Token>, c: seq<Token>, d: seq<Token>)
    requires Shapes(a) == Shapes(c) && Shapes(b) == Shapes(d)
    ensures Shapes(a + b) == Shapes(c + d)
  {
    hide Shapes;
    ShapesConcat(a, b);
    ShapesConcat(c, d);
  }

  lemma {:induction false} SubordinatesSkipped(cfg: Config, g: seq<Line>, i: nat, j: nat)
    requires cfg.Valid() && i <= j < |cfg.ops| && forall k :: i < k <= j ==> Second(cfg, k)
    ensures ResultTokens(cfg, g, i) == ResultTokens(cfg, g, j)
    decreases j - i
  {
    hide Config.Valid, ResultOf;
    if i < j {
      assert Second(cfg, i + 1);
      SubordinatesSkipped(cfg, g, i + 1, j);
    }
  }

  lemma ResultStep(cfg: Config, g: seq<Line>, j: nat) returns (cell: FieldOps.Cell)
    requires cfg.Valid() && j < |cfg.ops| && !cfg.ops[j].subordinate && ResultTokens(cfg, g, j).Some?
    ensures ResultTokens(cfg, g, j + 1).Some?
    ensures ResultTokens(cfg, g, j).value
         == [Value(cell)] + Sep(cfg, j) + ResultTokens(cfg, g, j + 1).value
  {
    hide Config.Valid, ResultOf;
    cell := ResultOf(cfg, g, j).value;
  }

  lemma CellShape(t: Token, v: Token, sep: seq<Token>)
    requires t.Text? && v.Value?
    ensures Shapes([t] + sep) == Shapes([v] + sep)
  {
    ShapesConcat([t], sep);
    ShapesConcat([v], sep);
    assert Shapes([t]) == [Cell] && Shapes([v]) == [Cell];
  }

  /** The header cell of operation i and the result cell of the operation it ends with. */
  lemma OpShape(cfg: Config, names: seq<string>, opName: Op -> string, g: seq<Line>, i: nat)
      returns (j: nat, t: Token, cell: FieldOps.Cell)
    requires cfg.Valid() && i < |cfg.ops|
    requires OpHeaders(cfg, names, opName, i).Printed? && ResultTokens(cfg, g, i).Some?
    ensures i <= j < |cfg.ops| && t.Text?
    ensures OpHeaders(cfg, names, opName, j + 1).Printed? && ResultTokens(cfg, g, j + 1).Some?
    ensures var sep := Sep(cfg, j);
      && OpHeaders(cfg, names, opName, i).tokens == ([t] + sep) + OpHeaders(cfg, names, opName, j + 1).tokens
      && ResultTokens(cfg, g, i).value == ([Value(cell)] + sep) + ResultTokens(cfg, g, j + 1).value
  {
    hide *;
    PartnersFound(cfg, names, i);
    OpHeadersStep(cfg, names, opName, i);
    var r := OpFits(cfg, names, opName, i);
    j := r.1;
    t := Token.Text(CellText(cfg, names, opName, i, r.0));
    AllSecond(cfg, |names|, i, j);
    SubordinatesSkipped(cfg, g, i, j);
    cell := ResultStep(cfg, g, j);
  }

  lemma OpFits(cfg: Config, names: seq<string>, opName: Op -> string, i: nat) returns (r: (string, nat))
    requires cfg.Valid() && i < |cfg.ops| && OpHeaders(cfg, names, opName, i).Printed?
    ensures cfg.ops[i].field <= |names| && Partners(cfg, names, i) == Some(r)
    ensures OpHeaders(cfg, names, opName, i).tokens == ([Token.Text(CellText(cfg, names, opName, i, r.0))] + Sep(cfg, r.1))
                                                       + OpHeaders(cfg, names, opName, r.1 + 1).tokens
    ensures OpHeaders(cfg, names, opName, r.1 + 1).Printed?
  {
    hide Partners, Config.Valid, CellText, Sep;
    r := Partners(cfg, names, i).value;
  }

  lemma AllSecond(cfg: Config, n: nat, i: nat, j: nat)
    requires i <= j < |cfg.ops| && Chained(cfg, n, i, j)
    ensures forall k :: i < k <= j ==> Second(cfg, k)
  {
    hide Second;
  }

  lemma {:induction false} OpsShape(cfg: Config, names: seq<string>, opName: Op -> string, g: seq<Line>, i: nat)
    requires cfg.Valid() && i <= |cfg.ops|
    requires OpHeaders(cfg, names, opName, i).Printed? && ResultTokens(cfg, g, i).Some?
    ensures Shapes(OpHeaders(cfg, names, opName, i).tokens) == Shapes(ResultTokens(cfg, g, i).value)
    decreases |cfg.ops| - i
  {
    hide *;
    if i == |cfg.ops| {
      OpHeadersEnd(cfg, names, opName);
      ResultTokensEnd(cfg, g);
    } else {
      var j, t, cell := OpShape(cfg, names, opName, g, i);
      OpsShape(cfg, names, opName, g, j + 1);
      var sep := Sep(cfg, j);
      CellShape(t, Value(cell), sep);
      SameShape([t] + sep, OpHeaders(cfg, names, opName, j + 1).tokens,
                [Value(cell)] + sep, ResultTokens(cfg, g, j + 1).value);
    }
  }

  lemma KeyPositive(cfg: Config, i: nat)
    requires cfg.Valid() && i < |cfg.groups|
    ensures cfg.groups[i] > 0
  {
  }

  lemma {:induction false} KeysShape(cfg: Config, names: seq<string>, l: Line, i: nat)
    requires cfg.Valid() && i <= |cfg.groups|
    requires KeyHeaders(cfg, names, i).Printed? && KeyTokens(cfg, l, i).Some?
    ensures Shapes(KeyHeaders(cfg, names, i).tokens) == Shapes(KeyTokens(cfg, l, i).value)
    decreases |cfg.groups| - i
  {
    hide Config.Valid;
    if i < |cfg.groups| {
      var c := cfg.groups[i];
      KeyPositive(cfg, i);
      KeysShape(cfg, names, l, i + 1);
      var (a, b) := ([Token.Text("GroupBy(" + names[c - 1] + ")"), Tab], [Token.Text(l[c - 1]), Tab]);
      assert Shapes(a) == [Cell, Separator] && Shapes(b) == [Cell, Separator];
      hide Shapes;
      SameShape(a, KeyHeaders(cfg, names, i + 1).tokens, b, KeyTokens(cfg, l, i + 1).value);
    }
  }

  lemma {:induction false} FullShape(a: seq<string>, b: seq<string>)
    requires |a| == |b|
    ensures Shapes(FullTokens(a)) == Shapes(FullTokens(b))
  {
    if a != [] {
      FullShape(a[1..], b[1..]);
      var (x, y) := ([Token.Text(a[0]), Tab], [Token.Text(b[0]), Tab]);
      assert Shapes(x) == [Cell, Separator] && Shapes(y) == [Cell, Separator];
      hide Shapes;
      SameShape(x, FullTokens(a[1..]), y, FullTokens(b[1..]));
    }
  }

  /** The header line and the line of every group have the same cells and separators, in the same
      places; with --full, for lines with as many fields as there are column names. */
  lemma HeaderMatchesRows(cfg: Config, names: seq<string>, opName: Op -> string, g: seq<Line>)
    requires cfg.Valid() && g != [] && LinesOk(cfg, g) && GroupTokens(cfg, g).Some?
    requires HeaderLine(cfg, names, opName).Printed?
    requires cfg.full ==> |names| == |Representative(cfg, g)|
    ensures Shapes(HeaderLine(cfg, names, opName).tokens) == Shapes(GroupTokens(cfg, g).value)
  {
    hide Config.Valid, KeyHeaders, OpHeaders, KeyTokens, FullTokens, ResultTokens, Representative, Shapes, LinesOk;
    var l := Representative(cfg, g);
    if cfg.full {
      FullShape(names, l);
    } else {
      KeysShape(cfg, names, l, 0);
    }
    OpsShape(cfg, names, opName, g, 0);
    var keys := if cfg.full then FullTokens(names) else KeyHeaders(cfg, names, 0).tokens;
    SameShape(keys, OpHeaders(cfg, names, opName, 0).tokens,
              LineTokens(cfg, l).value, ResultTokens(cfg, g, 0).value);
  }

  // --- What the header says ----------------------------------------------------------------

  /** The name of the column operation m reads. */
  function ColumnName(cfg: Config, names: seq<string>, m: nat): string
    requires m < |cfg.ops| && 0 < cfg.ops[m].field <= |names|
  {
    names[cfg.ops[m].field - 1]
  }

  /** The names of the columns of the operations i to j. */
  function ColumnNames(cfg: Config, names: seq<string>, i: nat, j: nat): (ns: seq<string>)
    requires i <= j < |cfg.ops| && forall m :: i <= m <= j ==> 0 < cfg.ops[m].field <= |names|
    ensures |ns| == j - i + 1 && forall m :: 0 <= m <= j - i ==> ns[m] == ColumnName(cfg, names, i + m)
  {
    seq(j - i + 1, m requires 0 <= m <= j - i => ColumnName(cfg, names, i + m))
  }

  /** Partners found: the text after the first name is that of the other names. */
  lemma {:induction false} PartnersText(cfg: Config, names: seq<string>, i: nat)
    requires cfg.Valid() && i < |cfg.ops| && cfg.ops[i].field <= |names| && Partners(cfg, names, i).Some?
    ensures var (text, j) := Partners(cfg, names, i).value;
      && i <= j < |cfg.ops| && !cfg.ops[j].subordinate
      && (forall m :: i <= m < j ==> cfg.ops[m].subordinate)
      && (forall m :: i <= m <= j ==> 0 < cfg.ops[m].field <= |names|)
      && ColumnName(cfg, names, i) + text == TextLines.Join(ColumnNames(cfg, names, i, j), ',')
    decreases |cfg.ops| - i
  {
    PartnersStep(cfg, names, i);
    FieldsStart(cfg, i);
    if cfg.ops[i].subordinate {
      FieldsStart(cfg, i + 1);
      PartnersFirst(cfg, names, i);
      hide Partners, Config.Valid, Second;
      PartnersText(cfg, names, i + 1);
      var (rest, j) := Partners(cfg, names, i + 1).value;
      NamesCons(cfg, names, i, j);
      hide ColumnName, ColumnNames;
      TextLines.JoinCons(ColumnName(cfg, names, i), ColumnNames(cfg, names, i + 1, j), ',');
      var (a, b) := (ColumnName(cfg, names, i), ColumnName(cfg, names, i + 1));
      assert a + ("," + b + rest) == a + [','] + (b + rest);
    } else {
      hide Config.Valid, Second;
      var name := ColumnName(cfg, names, i);
      assert ColumnNames(cfg, names, i, i) == [name];
      TextLines.JoinCons(name, [], ',');
      assert name + "" == name;
    }
  }

  lemma PartnersFirst(cfg: Config, names: seq<string>, i: nat)
    requires cfg.Valid() && i < |cfg.ops| && cfg.ops[i].subordinate && Partners(cfg, names, i).Some?
    ensures i + 1 < |cfg.ops| && 0 < cfg.ops[i + 1].field <= |names| && Partners(cfg, names, i + 1).Some?
    ensures var (rest, j) := Partners(cfg, names, i + 1).value;
      Partners(cfg, names, i) == Some(("," + ColumnName(cfg, names, i + 1) + rest, j))
  {
  }

  lemma NamesCons(cfg: Config, names: seq<string>, i: nat, j: nat)
    requires i < j < |cfg.ops| && forall m :: i <= m <= j ==> 0 < cfg.ops[m].field <= |names|
    ensures ColumnNames(cfg, names, i, j) == [ColumnName(cfg, names, i)] + ColumnNames(cfg, names, i + 1, j)
  {
    var (a, b) := (ColumnNames(cfg, names, i, j), ColumnNames(cfg, names, i + 1, j));
    forall m | 0 <= m <= j - i ensures a[m] == ([ColumnName(cfg, names, i)] + b)[m] {
      if m > 0 {
        assert b[m - 1] == ColumnName(cfg, names, i + 1 + (m - 1));
      }
    }
  }

  /** The cell of the operations i to j: the name of the operation and those of its columns. */
  ghost predicate IsCell(cfg: Config, names: seq<string>, opName: Op -> string, i: nat, j: nat, t: Token) {
    && i <= j < |cfg.ops| && (forall m :: i <= m <= j ==> 0 < cfg.ops[m].field <= |names|)
    && t == Token.Text(opName(cfg.ops[i].op) + "(" + TextLines.Join(ColumnNames(cfg, names, i, j), ',') + ")")
  }

  /** The cells of the operations from i on; each ends with one of the operations ps, which are not
      subordinate. */
  ghost predicate IsCells(cfg: Config, names: seq<string>, opName: Op -> string, i: nat, ps: seq<nat>, ts: seq<Token>) {
    |ts| == 2 * |ps| && forall k :: 0 <= k < |ps| ==>
      && IsCell(cfg, names, opName, if k == 0 then i else ps[k - 1] + 1, ps[k], ts[2 * k])
      && ts[2 * k + 1] == if k == |ps| - 1 then Eol else Tab
  }

  lemma OpCell(cfg: Config, names: seq<string>, opName: Op -> string, i: nat) returns (j: nat, t: Token)
    requires cfg.Valid() && i < |cfg.ops| && OpHeaders(cfg, names, opName, i).Printed?
    ensures i <= j < |cfg.ops| && !cfg.ops[j].subordinate && forall m :: i <= m < j ==> cfg.ops[m].subordinate
    ensures IsCell(cfg, names, opName, i, j, t)
    ensures OpHeaders(cfg, names, opName, j + 1).Printed?
    ensures OpHeaders(cfg, names, opName, i).tokens == ([t] + Sep(cfg, j)) + OpHeaders(cfg, names, opName, j + 1).tokens
  {
    hide Partners, Config.Valid, OpHeaders, Sep, ColumnNames, TextLines.Join;
    var r := OpFits(cfg, names, opName, i);
    PartnersText(cfg, names, i);
    j := r.1;
    t := Token.Text(CellText(cfg, names, opName, i, r.0));
    var (a, b, c) := (opName(cfg.ops[i].op) + "(", names[cfg.ops[i].field - 1], r.0);
    assert a + b + c + ")" == a + (b + c) + ")";
  }

  lemma {:induction false} SkipSubordinates(cfg: Config, ps: seq<nat>, i: nat, j: nat)
    requires cfg.Valid() && i <= j < |cfg.ops| && PrintedOps(cfg, ps, i)
    requires forall m :: i <= m < j ==> cfg.ops[m].subordinate
    ensures PrintedOps(cfg, ps, j)
    decreases j - i
  {
    hide Config.Valid, PrintedOps;
    if i < j {
      LastPrints(cfg, ps, i);
      SkipSubordinates(cfg, ps, i + 1, j);
    }
  }

  lemma {:induction false} CellsFrom(cfg: Config, names: seq<string>, opName: Op -> string, i: nat, ps: seq<nat>)
    requires cfg.Valid() && i < |cfg.ops| && OpHeaders(cfg, names, opName, i).Printed? && PrintedOps(cfg, ps, i)
    ensures IsCells(cfg, names, opName, i, ps, OpHeaders(cfg, names, opName, i).tokens)
    decreases |cfg.ops| - i
  {
    hide *;
    var j, t := OpCell(cfg, names, opName, i);
    SkipSubordinates(cfg, ps, i, j);
    LastPrints(cfg, ps, j);
    SepIs(cfg, j);
    if j + 1 == |cfg.ops| {
      OpHeadersEnd(cfg, names, opName);
      LastCell(cfg, names, opName, i, ps, t, OpHeaders(cfg, names, opName, i).tokens);
    } else {
      CellsFrom(cfg, names, opName, j + 1, ps[1..]);
      LastPrints(cfg, ps[1..], j + 1);
      CellsJoin(cfg, names, opName, i, ps, t, OpHeaders(cfg, names, opName, j + 1).tokens,
                OpHeaders(cfg, names, opName, i).tokens);
    }
  }

  lemma SepIs(cfg: Config, j: nat)
    ensures Sep(cfg, j) == if j != |cfg.ops| - 1 then [Tab] else []
  {
  }

  lemma LastCell(cfg: Config, names: seq<string>, opName: Op -> string, i: nat, ps: seq<nat>, t: Token, ts: seq<Token>)
    requires |ps| == 1 && IsCell(cfg, names, opName, i, ps[0], t) && ts == ([t] + []) + [Eol]
    ensures IsCells(cfg, names, opName, i, ps, ts)
  {
    hide IsCell;
  }

  lemma CellsJoin(cfg: Config, names: seq<string>, opName: Op -> string, i: nat, ps: seq<nat>, t: Token,
                  rest: seq<Token>, ts: seq<Token>)
    requires |ps| > 1 && IsCell(cfg, names, opName, i, ps[0], t)
    requires IsCells(cfg, names, opName, ps[0] + 1, ps[1..], rest) && ts == ([t] + [Tab]) + rest
    ensures IsCells(cfg, names, opName, i, ps, ts)
  {
    hide IsCell;
    forall k | 0 <= k < |ps|
      ensures IsCell(cfg, names, opName, if k == 0 then i else ps[k - 1] + 1, ps[k], ts[2 * k])
      ensures ts[2 * k + 1] == if k == |ps| - 1 then Eol else Tab
    {
      if k > 0 {
        assert ps[1..][k - 1] == ps[k] && (k > 1 ==> ps[1..][k - 2] == ps[k - 1]);
        assert ts[2 * k] == rest[2 * (k - 1)] && ts[2 * k + 1] == rest[2 * (k - 1) + 1];
      }
    }
  }

  /** The names before the operations: with --full those of all columns, otherwise the keys'. */
  ghost predicate IsKeyHeader(cfg: Config, names: seq<string>, ts: seq<Token>) {
    if cfg.full then
      |ts| == 2 * |names| && forall k :: 0 <= k < |names| ==> ts[2 * k] == Token.Text(names[k]) && ts[2 * k + 1] == Tab
    else
      |ts| == 2 * |cfg.groups| && forall k :: 0 <= k < |cfg.groups| ==>
        0 < cfg.groups[k] <= |names|
        && ts[2 * k] == Token.Text("GroupBy(" + names[cfg.groups[k] - 1] + ")") && ts[2 * k + 1] == Tab
  }

  lemma {:induction false} KeyHeadersFrom(cfg: Config, names: seq<string>, i: nat)
    requires cfg.Valid() && i <= |cfg.groups| && KeyHeaders(cfg, names, i).Printed?
    ensures var ts := KeyHeaders(cfg, names, i).tokens;
      |ts| == 2 * (|cfg.groups| - i) && forall k :: i <= k < |cfg.groups| ==>
        0 < cfg.groups[k] <= |names|
        && ts[2 * (k - i)] == Token.Text("GroupBy(" + names[cfg.groups[k] - 1] + ")") && ts[2 * (k - i) + 1] == Tab
    decreases |cfg.groups| - i
  {
    if i < |cfg.groups| {
      KeyPositive(cfg, i);
      hide Config.Valid;
      KeyHeadersFrom(cfg, names, i + 1);
      var (ts, rest) := (KeyHeaders(cfg, names, i).tokens, KeyHeaders(cfg, names, i + 1).tokens);
      assert ts == [Token.Text("GroupBy(" + names[cfg.groups[i] - 1] + ")"), Tab] + rest;
      forall k | i <= k < |cfg.groups|
        ensures 0 < cfg.groups[k] <= |names|
        ensures ts[2 * (k - i)] == Token.Text("GroupBy(" + names[cfg.groups[k] - 1] + ")") && ts[2 * (k - i) + 1] == Tab
      {
        if k > i {
          assert ts[2 * (k - i)] == rest[2 * (k - i - 1)] && ts[2 * (k - i) + 1] == rest[2 * (k - i - 1) + 1];
        }
      }
    }
  }

  /** A printed header names every key column, and for every operation that prints a cell its name and
      the names of its columns, in order. */
  lemma HeaderSays(cfg: Config, names: seq<string>, opName: Op -> string, ps: seq<nat>)
    requires cfg.Valid() && HeaderLine(cfg, names, opName).Printed? && PrintedOps(cfg, ps, 0)
    ensures var (ts, n) := (HeaderLine(cfg, names, opName).tokens, 2 * if cfg.full then |names| else |cfg.groups|);
      n <= |ts| && IsKeyHeader(cfg, names, ts[..n]) && IsCells(cfg, names, opName, 0, ps, ts[n..])
  {
    hide *;
    LastNotSubordinate(cfg);
    var a, b := HeaderParts(cfg, names, opName);
    CellsFrom(cfg, names, opName, 0, ps);
    assert (a + b)[..|a|] == a && (a + b)[|a|..] == b;
  }

  lemma HeaderParts(cfg: Config, names: seq<string>, opName: Op -> string) returns (a: seq<Token>, b: seq<Token>)
    requires cfg.Valid() && HeaderLine(cfg, names, opName).Printed?
    ensures IsKeyHeader(cfg, names, a) && |a| == 2 * if cfg.full then |names| else |cfg.groups|
    ensures OpHeaders(cfg, names, opName, 0) == Printed(b)
    ensures HeaderLine(cfg, names, opName).tokens == a + b
  {
    hide OpHeaders, KeyHeaders, FullTokens, Config.Valid;
    if cfg.full {
      FullTokensAre(names);
    } else {
      KeyHeadersFrom(cfg, names, 0);
    }
    a := if cfg.full then FullTokens(names) else KeyHeaders(cfg, names, 0).tokens;
    b := OpHeaders(cfg, names, opName, 0).tokens;
  }
}
