/** Operations written out and parsed again: every list of requests can be expressed, and the
    parser reads it as written. */
module OpPrinter {
  import opened Text
  import opened Numerals
  import opened OpScanner
  import opened OpParser
  import FieldOps

  // --- Writing -----------------------------------------------------------------------------

  /** A column name with backslashes where the scanner needs them. */
  function Escaped(name: string, first: bool): string {
    if name == "" then "" else EscapedChar(name[0], first) + Escaped(name[1..], false)
  }

  function EscapedChar(c: char, first: bool): (t: string)
    ensures t == ['\\', c] || (t == [c] && IsNameChar(c) && !(first && IsDigit(c)))
  {
    if IsNameChar(c) && !(first && IsDigit(c)) then [c] else ['\\', c]
  }

  function ShowRef(f: FieldRef): string {
    match f
    case Number(n) => Decimal(n)
    case Named(name) => Escaped(name, true)
  }

  function ShowColumn(c: Column): string {
    match c
    case One(f) => ShowRef(f)
    case Range(a, b) => Decimal(a) + ("-" + Decimal(b))
    case Pair(x, y) => ShowRef(x) + (":" + ShowRef(y))
    case PairRange(a, y, b) => Decimal(a) + (":" + (ShowRef(y) + ("-" + Decimal(b))))
  }

  function ShowColumns(cs: seq<Column>): string {
    if cs == [] then "" else if |cs| == 1 then ShowColumn(cs[0])
    else ShowColumn(cs[0]) + ("," + ShowColumns(cs[1..]))
  }

  /** References the language can express: columns from 1 on, and names that fit the buffer. */
  predicate GoodRef(f: FieldRef) {
    match f
    case Number(n) => 0 < n <= LONG_MAX
    case Named(name) => 0 < |name| < MAX_IDENTIFIER_LENGTH
  }

  predicate GoodColumn(c: Column) {
    match c
    case One(f) => GoodRef(f)
    case Range(a, b) => 0 < a < b <= LONG_MAX
    case Pair(x, y) => GoodRef(x) && GoodRef(y)
    case PairRange(a, y, b) => 0 < a < b <= LONG_MAX && GoodRef(y)
  }

  // --- Reading tokens ----------------------------------------------------------------------

  /** A number or name that ends at e is not read further. */
  predicate Ends(s: string, e: nat) {
    e == |s| || (e < |s| && (s[e] == ',' || s[e] == '-' || s[e] == ':' || s[e] == ' '))
  }

  lemma NotSpace(s: string, p: nat, keep: bool)
    requires p < |s| && !IsSpace(s[p])
    ensures Scanned(s, p, keep) == TokenAt(s, p)
  {
    hide TokenAt;
    ScanUnique(s, p, Space, p);
  }

  lemma NumberToken(s: string, p: nat, n: nat, keep: bool)
    requires At(s, p, Decimal(n)) && n <= LONG_MAX && Ends(s, p + |Decimal(n)|)
    ensures Scanned(s, p, keep) == Lexeme(Integer, Decimal(n), n, p + |Decimal(n)|)
  {
    var t := Decimal(n);
    var e := p + |t|;
    DecimalValue(n);
    hide Decimal, DigitsValue;
    forall k | p <= k < e ensures Digit.Has(s[k]) {
      AtChar(s, p, t, k - p);
    }
    ScanUnique(s, p, Digit, e);
    NotSpace(s, p, keep);
    hide Scan, FloatEnd, Scanned;
  }

  lemma PunctuationToken(s: string, p: nat, keep: bool)
    requires p < |s| && (s[p] == ',' || s[p] == '-' || s[p] == ':')
    ensures Scanned(s, p, keep)
         == Lexeme(if s[p] == ',' then Comma else if s[p] == '-' then Dash else Colons, [s[p]], 0, p + 1)
  {
    NotSpace(s, p, keep);
    hide Scanned, NumberAt, NameAt;
  }

  lemma {:induction false} NameRead(s: string, p: nat, name: string, first: bool)
    requires At(s, p, Escaped(name, first)) && Ends(s, p + |Escaped(name, first)|)
    ensures NameFrom(s, p) == Some((name, p + |Escaped(name, first)|))
    decreases |name|
  {
    hide *;
    EscapedCons(name, first);
    if name != "" {
      var (head, rest) := (EscapedChar(name[0], first), Escaped(name[1..], false));
      AtConcat(s, p, head, rest);
      HeadRead(s, p, name[0], head);
      NameRead(s, p + |head|, name[1..], false);
      Prepended(name, NameFrom(s, p + |head|));
    } else {
      NameEnd(s, p);
    }
  }

  lemma Prepended(name: string, r: Option<(string, nat)>)
    requires name != "" && r.Some? && r.value.0 == name[1..]
    ensures PrependChar(name[0], r) == Some((name, r.value.1))
  {
    assert name == [name[0]] + name[1..];
  }

  lemma NameEnd(s: string, p: nat)
    requires Ends(s, p)
    ensures p <= |s| && NameFrom(s, p) == Some(("", p))
  {
  }

  lemma EscapedCons(name: string, first: bool)
    ensures name == "" ==> Escaped(name, first) == ""
    ensures name != "" ==> Escaped(name, first) == EscapedChar(name[0], first) + Escaped(name[1..], false)
  {
  }

  lemma HeadRead(s: string, p: nat, c: char, head: string)
    requires At(s, p, head)
    requires (head == [c] && IsNameChar(c)) || head == ['\\', c]
    ensures NameFrom(s, p) == PrependChar(c, NameFrom(s, p + |head|))
  {
    AtChar(s, p, head, 0);
    if |head| == 2 {
      AtChar(s, p, head, 1);
    }
  }

  lemma NameToken(s: string, p: nat, name: string, keep: bool)
    requires 0 < |name| < MAX_IDENTIFIER_LENGTH
    requires At(s, p, Escaped(name, true)) && Ends(s, p + |Escaped(name, true)|)
    ensures Scanned(s, p, keep) == Lexeme(Identifier, name, 0, p + |Escaped(name, true)|)
  {
    NameRead(s, p, name, true);
    AtChar(s, p, Escaped(name, true), 0);
    assert !IsSpace(s[p]) && !IsDigit(s[p]);
    NotSpace(s, p, keep);
    hide Scanned, Escaped, NameFrom, NumberAt;
  }

  lemma RefToken(s: string, p: nat, f: FieldRef, keep: bool)
    requires GoodRef(f) && At(s, p, ShowRef(f)) && Ends(s, p + |ShowRef(f)|)
    ensures SimpleFrom(Scanned(s, p, keep)) == Some((f, p + |ShowRef(f)|))
  {
    hide Scanned, Decimal, Escaped, At, Ends;
    match f
    case Number(n) => NumberToken(s, p, n, keep);
    case Named(name) => NameToken(s, p, name, keep);
  }

  // --- Reading columns ---------------------------------------------------------------------

  /** A column list may stop at e: a comma, a blank, or the end of the text stands there, and the
      token there does not continue the item. */
  predicate Stops(s: string, e: nat) {
    && Ends(s, e)
    && var l := Scanned(s, e, false); l.Lexeme? && !l.tok.Colons? && !l.tok.Dash?
  }

  /** A column list ends at e. */
  predicate Closes(s: string, e: nat)
    ensures Closes(s, e) ==> e <= |s|
  {
    Stops(s, e) && !Scanned(s, e, false).tok.Comma?
  }

  lemma PunctuationAt(s: string, p: nat, c: char, t: string)
    requires At(s, p, [c] + t) && (c == ',' || c == '-' || c == ':')
    ensures At(s, p + 1, t) && Ends(s, p) && p < |s| && s[p] == c
    ensures Scanned(s, p, false)
         == Lexeme(if c == ',' then Comma else if c == '-' then Dash else Colons, [c], 0, p + 1)
  {
    AtConcat(s, p, [c], t);
    AtChar(s, p, [c], 0);
    hide *;
    PunctuationToken(s, p, false);
  }

  /** The branches of parse_operation_column. */
  lemma OneStep(s: string, l: Lexeme, x: FieldRef, p: nat)
    requires Within(s, l) && SimpleFrom(l) == Some((x, p)) && p <= |s| && Stops(s, p)
    ensures ColumnFrom(s, l) == Some((One(x), p))
  {
    hide SimpleFrom, Scanned, Ends;
  }

  lemma RangeStep(s: string, l: Lexeme, x: FieldRef, p: nat, c: Column, q: nat)
    requires Within(s, l) && SimpleFrom(l) == Some((x, p)) && p < |s|
    requires Scanned(s, p, false) == Lexeme(Dash, "-", 0, p + 1) && RangeAt(s, x, p + 1) == Some((c, q))
    ensures ColumnFrom(s, l) == Some((c, q))
  {
    hide SimpleFrom, Scanned, RangeAt;
  }

  lemma PairStep(s: string, l: Lexeme, x: FieldRef, p: nat, c: Column, q: nat)
    requires Within(s, l) && SimpleFrom(l) == Some((x, p)) && p < |s|
    requires Scanned(s, p, false) == Lexeme(Colons, ":", 0, p + 1) && PairAt(s, x, p + 1) == Some((c, q))
    ensures ColumnFrom(s, l) == Some((c, q))
  {
    hide SimpleFrom, Scanned, PairAt;
  }

  /** A plain second column. */
  lemma PairPlain(s: string, x: FieldRef, p: nat, y: FieldRef, q: nat)
    requires p <= |s| && SimpleFrom(Scanned(s, p, false)) == Some((y, q)) && q <= |s| && Stops(s, q)
    ensures PairAt(s, x, p) == Some((Pair(x, y), q))
  {
    hide SimpleFrom, Scanned, Ends, RangeAt;
  }

  lemma PairRanged(s: string, x: FieldRef, p: nat, y: FieldRef, q: nat, c: Column, r: nat)
    requires p <= |s| && SimpleFrom(Scanned(s, p, false)) == Some((y, q)) && q < |s|
    requires Scanned(s, q, false) == Lexeme(Dash, "-", 0, q + 1) && RangeAt(s, x, q + 1) == Some((c, r))
    ensures c.Range? && PairAt(s, x, p) == Some((PairRange(c.from, y, c.to), r))
  {
    hide SimpleFrom, Scanned, RangeAt;
  }

  lemma RangeEnd(s: string, p: nat, a: nat, b: nat, q: nat)
    requires p <= |s| && SimpleFrom(Scanned(s, p, false)) == Some((Number(b), q)) && a < b
    ensures RangeAt(s, Number(a), p) == Some((Range(a, b), q))
  {
    hide SimpleFrom, Scanned;
  }

  lemma ScannedWithin(s: string, p: nat, t: string)
    requires At(s, p, t)
    ensures p + |t| <= |s| && Within(s, Scanned(s, p, false))
  {
    hide Scanned;
  }

  lemma StopsEnds(s: string, e: nat)
    requires Stops(s, e)
    ensures Ends(s, e)
  {
  }

  lemma NumberRef(n: nat)
    ensures ShowRef(Number(n)) == Decimal(n)
    ensures GoodRef(Number(n)) <==> 0 < n <= LONG_MAX
  {
  }

  /** "-b" after the text of a. */
  lemma RangeRead(s: string, p: nat, a: nat, b: nat)
    requires 0 < a < b <= LONG_MAX && At(s, p, Decimal(b)) && Ends(s, p + |Decimal(b)|)
    ensures RangeAt(s, Number(a), p) == Some((Range(a, b), p + |Decimal(b)|))
  {
    hide *;
    NumberRef(b);
    RefToken(s, p, Number(b), false);
    ScannedWithin(s, p, Decimal(b));
    RangeEnd(s, p, a, b, p + |Decimal(b)|);
  }

  lemma OneRead(s: string, p: nat, f: FieldRef)
    requires GoodRef(f) && At(s, p, ShowRef(f)) && Stops(s, p + |ShowRef(f)|)
    ensures ColumnFrom(s, Scanned(s, p, false)) == Some((One(f), p + |ShowRef(f)|))
  {
    hide *;
    StopsEnds(s, p + |ShowRef(f)|);
    ScannedWithin(s, p, ShowRef(f));
    RefToken(s, p, f, false);
    OneStep(s, Scanned(s, p, false), f, p + |ShowRef(f)|);
  }

  lemma RangeColumnRead(s: string, p: nat, a: nat, b: nat)
    requires 0 < a < b <= LONG_MAX && At(s, p, Decimal(a) + ("-" + Decimal(b)))
    requires Ends(s, p + |Decimal(a) + ("-" + Decimal(b))|)
    ensures ColumnFrom(s, Scanned(s, p, false)) == Some((Range(a, b), p + |Decimal(a) + ("-" + Decimal(b))|))
  {
    hide *;
    var (x, y) := (Decimal(a), Decimal(b));
    ScannedWithin(s, p, x + ("-" + y));
    AtConcat(s, p, x, "-" + y);
    PunctuationAt(s, p + |x|, '-', y);
    NumberRef(a);
    RefToken(s, p, Number(a), false);
    RangeRead(s, p + |x| + 1, a, b);
    RangeStep(s, Scanned(s, p, false), Number(a), p + |x|, Range(a, b), p + |x| + 1 + |y|);
  }

  lemma PairRead(s: string, p: nat, x: FieldRef, y: FieldRef)
    requires GoodRef(x) && GoodRef(y) && At(s, p, ShowRef(x) + (":" + ShowRef(y)))
    requires Stops(s, p + |ShowRef(x) + (":" + ShowRef(y))|)
    ensures ColumnFrom(s, Scanned(s, p, false)) == Some((Pair(x, y), p + |ShowRef(x) + (":" + ShowRef(y))|))
  {
    hide *;
    var (a, b) := (ShowRef(x), ShowRef(y));
    var (q, e) := (p + |a|, p + |a| + 1 + |b|);
    ScannedWithin(s, p, a + (":" + b));
    StopsEnds(s, e);
    AtConcat(s, p, a, ":" + b);
    PunctuationAt(s, q, ':', b);
    RefToken(s, p, x, false);
    RefToken(s, q + 1, y, false);
    PairPlain(s, x, q + 1, y, e);
    PairStep(s, Scanned(s, p, false), x, q, Pair(x, y), e);
  }

  lemma PairRangeRead(s: string, p: nat, a: nat, y: FieldRef, b: nat)
    requires 0 < a < b <= LONG_MAX && GoodRef(y)
    requires At(s, p, Decimal(a) + (":" + (ShowRef(y) + ("-" + Decimal(b)))))
    requires Ends(s, p + |Decimal(a) + (":" + (ShowRef(y) + ("-" + Decimal(b))))|)
    ensures ColumnFrom(s, Scanned(s, p, false))
         == Some((PairRange(a, y, b), p + |Decimal(a) + (":" + (ShowRef(y) + ("-" + Decimal(b))))|))
  {
    hide *;
    var (x, m, z) := (Decimal(a), ShowRef(y), Decimal(b));
    var (q, r) := (p + |x|, p + |x| + 1 + |m|);
    ScannedWithin(s, p, x + (":" + (m + ("-" + z))));
    AtConcat(s, p, x, ":" + (m + ("-" + z)));
    PunctuationAt(s, q, ':', m + ("-" + z));
    AtConcat(s, q + 1, m, "-" + z);
    PunctuationAt(s, r, '-', z);
    NumberRef(a);
    RefToken(s, p, Number(a), false);
    RefToken(s, q + 1, y, false);
    RangeRead(s, r + 1, a, b);
    PairRanged(s, Number(a), q + 1, y, r, Range(a, b), r + 1 + |z|);
    PairStep(s, Scanned(s, p, false), Number(a), q, PairRange(a, y, b), r + 1 + |z|);
  }

  lemma ColumnRead(s: string, p: nat, c: Column)
    requires GoodColumn(c) && At(s, p, ShowColumn(c)) && Stops(s, p + |ShowColumn(c)|)
    ensures ColumnFrom(s, Scanned(s, p, false)) == Some((c, p + |ShowColumn(c)|))
  {
    hide Scanned, At, Ends, ShowRef, Decimal, ColumnFrom, GoodRef;
    StopsEnds(s, p + |ShowColumn(c)|);
    match c
    case One(f) => OneRead(s, p, f);
    case Range(a, b) => RangeColumnRead(s, p, a, b);
    case Pair(x, y) => PairRead(s, p, x, y);
    case PairRange(a, y, b) => PairRangeRead(s, p, a, y, b);
  }

  /** The rest of a list, from the comma on. */
  function ShowMore(cs: seq<Column>): string {
    if cs == [] then "" else "," + (ShowColumn(cs[0]) + ShowMore(cs[1..]))
  }

  lemma {:induction false} ShowColumnsCons(cs: seq<Column>)
    requires cs != []
    ensures ShowColumns(cs) == ShowColumn(cs[0]) + ShowMore(cs[1..])
  {
    hide ShowColumn;
    if |cs| > 1 {
      ShowColumnsCons(cs[1..]);
    }
  }

  lemma EndOfList(s: string, p: nat, t: string)
    requires At(s, p, t) && (t == "" || t[0] == ',')
    requires Stops(s, p + |t|)
    ensures Stops(s, p)
  {
    if t != "" {
      AtChar(s, p, t, 0);
      hide Scanned, At;
      PunctuationToken(s, p, false);
    }
  }

  lemma {:induction false} MoreRead(s: string, done: seq<Column>, cs: seq<Column>, p: nat)
    requires forall c :: c in cs ==> GoodColumn(c)
    requires At(s, p, ShowMore(cs)) && Closes(s, p + |ShowMore(cs)|)
    ensures MoreColumns(s, done, p) == Some((done + cs, p + |ShowMore(cs)|))
    decreases |cs|
  {
    hide Scanned, At, Ends, ShowColumn, ColumnFrom, GoodColumn;
    if cs == [] {
      assert done + cs == done;
    } else {
      var (c, rest) := (cs[0], ShowMore(cs[1..]));
      PunctuationAt(s, p, ',', ShowColumn(c) + rest);
      AtConcat(s, p + 1, ShowColumn(c), rest);
      var q := p + 1 + |ShowColumn(c)|;
      EndOfList(s, q, rest);
      ColumnRead(s, p + 1, c);
      hide ShowMore, Stops;
      MoreRead(s, done + [c], cs[1..], q);
      assert (done + [c]) + cs[1..] == done + cs;
      MoreStep(s, done, c, p, q);
    }
  }

  lemma MoreStep(s: string, done: seq<Column>, c: Column, p: nat, q: nat)
    requires p < |s| && Scanned(s, p, false) == Lexeme(Comma, ",", 0, p + 1)
    requires p < q <= |s| && ColumnFrom(s, Scanned(s, p + 1, false)) == Some((c, q))
    ensures MoreColumns(s, done, p) == MoreColumns(s, done + [c], q)
  {
    hide Scanned, ColumnFrom;
  }

  lemma ColumnsRead(s: string, p: nat, cs: seq<Column>)
    requires cs != [] && forall c :: c in cs ==> GoodColumn(c)
    requires At(s, p, ShowColumns(cs)) && Closes(s, p + |ShowColumns(cs)|)
    ensures ColumnsFrom(s, Scanned(s, p, false)) == Some((cs, p + |ShowColumns(cs)|))
  {
    hide Scanned, At, Ends, Stops, ShowColumn, ColumnFrom, GoodColumn, ShowColumns;
    var rest := ShowMore(cs[1..]);
    ShowColumnsCons(cs);
    AtConcat(s, p, ShowColumn(cs[0]), rest);
    EndOfList(s, p + |ShowColumn(cs[0])|, rest);
    ColumnRead(s, p, cs[0]);
    MoreRead(s, [cs[0]], cs[1..], p + |ShowColumn(cs[0])|);
    assert [cs[0]] + cs[1..] == cs;
  }

  // --- Reading operations ------------------------------------------------------------------

  /** The exponent of a floating-point number, or nothing. */
  predicate IsExponent(t: string) {
    t != "" ==>
      && (t[0] == 'e' || t[0] == 'E') && |t| > 1
      && var d := t[if t[1] == '+' || t[1] == '-' then 2 else 1..]; d != "" && AllIn(d, Digit)
  }

  /** The text of a floating-point number as the scanner takes it: digits, a point, digits and an
      exponent. The whole part is read with strtol first and must fit. */
  predicate IsFloatText(whole: string, rest: string, exponent: string) {
    && whole != "" && AllIn(whole, Digit) && DigitsValue(whole) <= LONG_MAX
    && AllIn(rest, Digit) && IsExponent(exponent)
  }

  /** The parameters the operation `name` can be given: numbers, and letters for getnum. */
  ghost predicate GoodParam(name: string, x: Param) {
    match x
    case IntParam(n) => n <= LONG_MAX
    case FloatParam(t) =>
      exists whole, rest, exponent :: IsFloatText(whole, rest, exponent) && t == whole + ("." + (rest + exponent))
    case CharParam(_) => name == GETNUM
  }

  function ShowParam(x: Param): string {
    match x
    case IntParam(n) => Decimal(n)
    case FloatParam(t) => t
    case CharParam(c) => Escaped([c], true)
  }

  /** An operation as the user writes it: a name, parameters, columns. */
  datatype Request = Request(name: string, params: seq<Param>, columns: seq<Column>)
  {
    ghost predicate Good() {
      && 0 < |name| < MAX_IDENTIFIER_LENGTH
      && (forall i :: 0 <= i < |params| ==> GoodParam(name, params[i]))
      && columns != [] && (forall c :: c in columns ==> GoodColumn(c))
    }

    function Show(): string {
      Escaped(name, true) + (ShowParams(params) + (" " + ShowColumns(columns)))
    }
  }

  function ShowParams(ps: seq<Param>): string {
    if ps == [] then "" else ":" + (ShowParam(ps[0]) + ShowParams(ps[1..]))
  }

  function ShowAll(rs: seq<Request>): string {
    if rs == [] then "" else if |rs| == 1 then rs[0].Show() else rs[0].Show() + (" " + ShowAll(rs[1..]))
  }

  /** The operations the requests stand for, if all are known and suit their columns. */
  function Requested(table: OpTable, ops: seq<ParsedOp>, rs: seq<Request>): Option<seq<ParsedOp>>
    decreases |rs|
  {
    if rs == [] then Some(ops) else
    match Requests(table, ops, rs[0], 0)
    case None => None
    case Some((more, _)) => Requested(table, more, rs[1..])
  }

  /** One request; e is where its text ends. */
  function Requests(table: OpTable, ops: seq<ParsedOp>, r: Request, e: nat): (t: Option<(seq<ParsedOp>, nat)>)
    ensures t.Some? ==> t.value.1 == e
  {
    var op := table(r.name, r.params);
    if op.Some? && Suits(op.value, r.columns) then Some((ExpandedAll(ops, op.value, r.columns), e)) else None
  }

  lemma BlankToken(s: string, p: nat)
    requires p + 1 < |s| && s[p] == ' ' && !IsSpace(s[p + 1])
    ensures Scanned(s, p, false) == Scanned(s, p + 1, false)
    ensures Scanned(s, p, true) == Lexeme(Whitespace, "", 0, p + 1)
  {
    ScanUnique(s, p, Space, p + 1);
    ScanUnique(s, p + 1, Space, p + 1);
    hide TokenAt;
  }

  /** A column list starts with no blank. */
  lemma ColumnsStart(cs: seq<Column>)
    requires cs != [] && GoodColumn(cs[0])
    ensures var t := ShowColumns(cs); t != "" && !IsSpace(t[0])
  {
    ShowColumnsCons(cs);
    var c := cs[0];
    hide ShowColumns, ShowMore;
    RefStart(match c case One(f) => f case Range(a, _) => Number(a) case Pair(x, _) => x case PairRange(a, _, _) => Number(a));
    hide ShowRef, Decimal;
  }

  lemma RefStart(f: FieldRef)
    requires GoodRef(f)
    ensures ShowRef(f) != "" && !IsSpace(ShowRef(f)[0])
    ensures f.Number? ==> ShowRef(f) == Decimal(f.n)
  {
    hide Decimal;
  }

  /** A floating-point number stands at p up to e: where its parts end. */
  lemma FloatParts(s: string, p: nat, whole: string, rest: string, exponent: string)
    requires IsFloatText(whole, rest, exponent) && At(s, p, whole + ("." + (rest + exponent)))
    requires Ends(s, p + |whole + ("." + (rest + exponent))|)
    ensures var (d, e) := (p + |whole|, p + |whole + ("." + (rest + exponent))|);
      && Scan(s, p, Digit) == d && d < |s| && s[d] == '.' && s[p..d] == whole
      && Scan(s, d + 1, Digit) == d + 1 + |rest|
      && At(s, d + 1 + |rest|, exponent) && d + 1 + |rest| + |exponent| == e <= |s|
  {
    hide *;
    var d := p + |whole|;
    var f := d + 1 + |rest|;
    GoodFloat(whole, rest, exponent);
    FloatSplit(s, p, whole, rest, exponent);
    NoDigit('.');
    RunAt(s, p, whole, d);
    NoDigitThere(s, f, exponent);
    RunAt(s, d + 1, rest, f);
    SliceAt(s, p, whole);
    SliceAt(s, f, exponent);
  }

  lemma FloatSplit(s: string, p: nat, whole: string, rest: string, exponent: string)
    requires At(s, p, whole + ("." + (rest + exponent)))
    ensures var d := p + |whole|;
      && At(s, p, whole) && d < |s| && s[d] == '.' && At(s, d + 1, rest) && At(s, d + 1 + |rest|, exponent)
      && p + |whole + ("." + (rest + exponent))| == d + 1 + |rest| + |exponent|
  {
    hide *;
    var d := p + |whole|;
    AtConcat(s, p, whole, "." + (rest + exponent));
    AtConcat(s, d, ".", rest + exponent);
    AtConcat(s, d + 1, rest, exponent);
    AtEnd(s, d);
    AtChar(s, d, ".", 0);
  }

  lemma NoDigit(c: char)
    ensures c == '.' ==> !IsDigit(c)
  {
  }

  lemma SliceAt(s: string, p: nat, t: string)
    requires At(s, p, t)
    ensures p + |t| <= |s| && s[p..p + |t|] == t
  {
  }

  lemma NoDigitThere(s: string, f: nat, exponent: string)
    requires IsExponent(exponent) && At(s, f, exponent) && Ends(s, f + |exponent|)
    ensures f == |s| || (f < |s| && !IsDigit(s[f]))
  {
    if exponent != "" {
      AtChar(s, f, exponent, 0);
    }
  }

  lemma RunAt(s: string, p: nat, t: string, e: nat)
    requires At(s, p, t) && AllIn(t, Digit) && e == p + |t| && (e == |s| || (e < |s| && !IsDigit(s[e])))
    ensures Scan(s, p, Digit) == e
  {
    forall k | p <= k < e ensures Digit.Has(s[k]) {
      AtChar(s, p, t, k - p);
      assert Digit.Has(t[k - p]);
    }
    ScanUnique(s, p, Digit, e);
  }

  lemma ExponentRead(s: string, point: nat, f: nat, exponent: string)
    requires point < f <= |s| && Scan(s, point + 1, Digit) == f && IsExponent(exponent) && At(s, f, exponent)
    requires Ends(s, f + |exponent|)
    ensures FloatEnd(s, point) == f + |exponent|
  {
    if exponent == "" {
      NoExponent(s, point, f);
    } else {
      hide Scan, At, FloatEnd;
      AtChar(s, f, exponent, 0);
      AtChar(s, f, exponent, 1);
      AtEnd(s, f);
      var k := if exponent[1] == '+' || exponent[1] == '-' then 2 else 1;
      var d := exponent[k..];
      ExponentDigits(s, f, exponent, k);
      SomeExponent(s, point, f, f + k, f + |exponent|);
    }
  }

  lemma NoExponent(s: string, point: nat, f: nat)
    requires point < f <= |s| && Scan(s, point + 1, Digit) == f && Ends(s, f)
    ensures FloatEnd(s, point) == f
  {
    hide Scan;
  }

  lemma ExponentDigits(s: string, f: nat, exponent: string, k: nat)
    requires At(s, f, exponent) && 0 < k < |exponent| && AllIn(exponent[k..], Digit) && Ends(s, f + |exponent|)
    ensures f + k < f + |exponent| <= |s| && IsDigit(s[f + k]) && Scan(s, f + k, Digit) == f + |exponent|
  {
    var d := exponent[k..];
    assert Digit.Has(d[0]) && exponent == exponent[..k] + d;
    hide At, AllIn;
    AtConcat(s, f, exponent[..k], d);
    AtChar(s, f + k, d, 0);
    AtEnd(s, f);
    RunAt(s, f + k, d, f + |exponent|);
  }

  lemma SomeExponent(s: string, point: nat, f: nat, d: nat, e: nat)
    requires point < f < d < e <= |s| && Scan(s, point + 1, Digit) == f && (s[f] == 'e' || s[f] == 'E')
    requires d == if s[f + 1] == '+' || s[f + 1] == '-' then f + 2 else f + 1
    requires IsDigit(s[d]) && Scan(s, d, Digit) == e
    ensures FloatEnd(s, point) == e
  {
    hide Scan;
  }

  lemma FloatToken(s: string, p: nat, whole: string, rest: string, exponent: string)
    requires IsFloatText(whole, rest, exponent)
    requires var t := whole + ("." + (rest + exponent)); At(s, p, t) && Ends(s, p + |t|)
    ensures var t := whole + ("." + (rest + exponent));
      Scanned(s, p, true) == Lexeme(Float, t, DigitsValue(whole), p + |t|)
  {
    hide *;
    var t := whole + ("." + (rest + exponent));
    var d := p + |whole|;
    FloatParts(s, p, whole, rest, exponent);
    GoodFloat(whole, rest, exponent);
    FloatStart(s, p, whole, t);
    SliceAt(s, p, t);
    ExponentRead(s, d, d + 1 + |rest|, exponent);
    NotSpace(s, p, true);
    FloatStep(s, p, d, p + |t|);
  }

  lemma GoodFloat(whole: string, rest: string, exponent: string)
    requires IsFloatText(whole, rest, exponent)
    ensures whole != "" && AllIn(whole, Digit) && DigitsValue(whole) <= LONG_MAX
    ensures AllIn(rest, Digit) && IsExponent(exponent)
  {
    hide DigitsValue, IsExponent;
  }

  lemma FloatStart(s: string, p: nat, whole: string, t: string)
    requires whole != "" && AllIn(whole, Digit) && whole <= t && At(s, p, t)
    ensures p < |s| && IsDigit(s[p]) && !IsSpace(s[p])
  {
    AtChar(s, p, t, 0);
    assert t[0] == whole[0] && Digit.Has(whole[0]);
  }

  lemma FloatStep(s: string, p: nat, d: nat, e: nat)
    requires p < d < e <= |s| && Ends(s, e) && IsDigit(s[p])
    requires Scan(s, p, Digit) == d && s[d] == '.' && FloatEnd(s, d) == e
    requires AllIn(s[p..d], Digit) && DigitsValue(s[p..d]) <= LONG_MAX
    ensures TokenAt(s, p) == Lexeme(Float, s[p..e], DigitsValue(s[p..d]), e)
  {
    hide Scan, FloatEnd, DigitsValue, NameAt;
  }

  /** A parameter is read as it was written. */
  lemma ParamToken(s: string, p: nat, name: string, x: Param)
    requires GoodParam(name, x) && At(s, p, ShowParam(x)) && Ends(s, p + |ShowParam(x)|)
    ensures var l := Scanned(s, p, true); ParamOf(name, l) == Some(x) && l.next == p + |ShowParam(x)|
  {
    hide Scanned, Decimal, Escaped, At, Ends, IsFloatText;
    match x {
      case IntParam(n) => NumberToken(s, p, n, true);
      case FloatParam(t) =>
        var whole, rest, exponent :| IsFloatText(whole, rest, exponent) && t == whole + ("." + (rest + exponent));
        FloatToken(s, p, whole, rest, exponent);
      case CharParam(c) => NameToken(s, p, [c], true);
    }
  }

  lemma {:induction false} ParamsRead(s: string, name: string, done: seq<Param>, ps: seq<Param>, p: nat)
    requires forall i :: 0 <= i < |ps| ==> GoodParam(name, ps[i])
    requires At(s, p, ShowParams(ps))
    requires var e := p + |ShowParams(ps)|; e + 1 < |s| && s[e] == ' ' && !IsSpace(s[e + 1])
    ensures ParamsAt(s, name, done, p) == Some((done + ps, Scanned(s, p + |ShowParams(ps)| + 1, false)))
    decreases |ps|
  {
    hide Scanned, At, ShowParam, GoodParam;
    if ps == [] {
      BlankToken(s, p);
      assert done + [] == done;
    } else {
      var (x, rest) := (ps[0], ShowParams(ps[1..]));
      var q := p + 1 + |ShowParam(x)|;
      ParamStart(s, p, name, x, ps[1..]);
      ParamStep(s, name, done, p, x, q);
      ParamsJoin(done, ps);
      hide *;
      ParamsRead(s, name, done + [x], ps[1..], q);
    }
  }

  lemma ParamsJoin(done: seq<Param>, ps: seq<Param>)
    requires ps != []
    ensures (done + [ps[0]]) + ps[1..] == done + ps
    ensures |ShowParams(ps)| == 1 + |ShowParam(ps[0])| + |ShowParams(ps[1..])|
  {
    hide ShowParam;
  }

  /** ":x" and what follows it. */
  lemma ParamStart(s: string, p: nat, name: string, x: Param, more: seq<Param>)
    requires GoodParam(name, x) && At(s, p, ":" + (ShowParam(x) + ShowParams(more)))
    requires var e := p + 1 + |ShowParam(x)| + |ShowParams(more)|; e < |s| && s[e] == ' '
    ensures var q := p + 1 + |ShowParam(x)|;
      && p < |s| && q <= |s| && At(s, q, ShowParams(more))
      && Scanned(s, p, true) == Lexeme(Colons, ":", 0, p + 1)
      && ParamOf(name, Scanned(s, p + 1, true)) == Some(x) && Scanned(s, p + 1, true).next == q
  {
    hide *;
    var rest := ShowParams(more);
    AtConcat(s, p, ":", ShowParam(x) + rest);
    AtChar(s, p, ":", 0);
    AtConcat(s, p + 1, ShowParam(x), rest);
    var q := p + 1 + |ShowParam(x)|;
    ParamsHead(more);
    if rest != "" {
      AtChar(s, q, rest, 0);
    }
    ScannedWithin(s, p + 1, ShowParam(x));
    ScannedWithin(s, p, ":" + (ShowParam(x) + rest));
    PunctuationToken(s, p, true);
    CharEnds(s, q);
    ParamToken(s, p + 1, name, x);
  }

  lemma ParamStep(s: string, name: string, done: seq<Param>, p: nat, x: Param, q: nat)
    requires p < |s| && q <= |s| && Scanned(s, p, true) == Lexeme(Colons, ":", 0, p + 1)
    requires ParamOf(name, Scanned(s, p + 1, true)) == Some(x) && Scanned(s, p + 1, true).next == q
    ensures ParamsAt(s, name, done, p) == ParamsAt(s, name, done + [x], q)
  {
    hide Scanned, ParamOf;
  }

  /** Where the parts of a request stand. */
  lemma RequestParts(s: string, p: nat, r: Request)
    requires r.Good() && At(s, p, r.Show())
    ensures var n := p + |Escaped(r.name, true)|;
      var e := n + |ShowParams(r.params)|;
      && At(s, p, Escaped(r.name, true)) && Ends(s, n)
      && At(s, n, ShowParams(r.params)) && e + 1 < |s| && s[e] == ' ' && !IsSpace(s[e + 1])
      && At(s, e + 1, ShowColumns(r.columns)) && p + |r.Show()| == e + 1 + |ShowColumns(r.columns)|
  {
    hide *;
    var (a, b, c) := (Escaped(r.name, true), ShowParams(r.params), ShowColumns(r.columns));
    RequestShown(r);
    ColumnsStart(r.columns);
    ParamsHead(r.params);
    AtConcat(s, p, a, b + (" " + c));
    AtConcat(s, p + |a|, b, " " + c);
    AtConcat(s, p + |a| + |b|, " ", c);
    ScannedWithin(s, p + |a| + |b| + 1, c);
    AtChar(s, p + |a| + |b|, " ", 0);
    AtChar(s, p + |a| + |b| + 1, c, 0);
    if b != "" {
      AtChar(s, p + |a|, b, 0);
    }
    CharEnds(s, p + |a|);
  }

  lemma RequestShown(r: Request)
    ensures r.Show() == Escaped(r.name, true) + (ShowParams(r.params) + (" " + ShowColumns(r.columns)))
    ensures r.Good() ==> r.columns != [] && GoodColumn(r.columns[0]) && 0 < |r.name| < MAX_IDENTIFIER_LENGTH
  {
  }

  lemma CharEnds(s: string, e: nat)
    requires e < |s| && (s[e] == ':' || s[e] == ' ')
    ensures Ends(s, e)
  {
  }

  lemma ParamsHead(ps: seq<Param>)
    ensures ShowParams(ps) != "" ==> ShowParams(ps)[0] == ':'
  {
  }

  lemma OperationRead(s: string, table: OpTable, ops: seq<ParsedOp>, p: nat, r: Request)
    requires r.Good() && At(s, p, r.Show()) && p <= |s| && Closes(s, p + |r.Show()|)
    ensures Scanned(s, p, false).Lexeme? && Scanned(s, p, false).tok.Identifier?
    ensures OperationFrom(s, table, ops, Scanned(s, p, false)) == Requests(table, ops, r, p + |r.Show()|)
  {
    hide *;
    var (n, e) := (p + |Escaped(r.name, true)|, p + |r.Show()|);
    var c := e - |ShowColumns(r.columns)|;
    RequestParts(s, p, r);
    GoodParts(r);
    NameToken(s, p, r.name, false);
    ParamsRead(s, r.name, [], r.params, n);
    ColumnsRead(s, c, r.columns);
    OperationStep(s, table, ops, Scanned(s, p, false), n, r, c, e);
  }

  lemma GoodParts(r: Request)
    requires r.Good()
    ensures 0 < |r.name| < MAX_IDENTIFIER_LENGTH
    ensures forall i :: 0 <= i < |r.params| ==> GoodParam(r.name, r.params[i])
    ensures r.columns != [] && forall c :: c in r.columns ==> GoodColumn(c)
  {
  }

  lemma OperationStep(s: string, table: OpTable, ops: seq<ParsedOp>, l: Lexeme, n: nat, r: Request, c: nat, e: nat)
    requires n <= |s| && c <= |s| && l == Lexeme(Identifier, r.name, 0, n)
    requires ParamsAt(s, r.name, [], n) == Some(([] + r.params, Scanned(s, c, false)))
    requires ColumnsFrom(s, Scanned(s, c, false)) == Some((r.columns, e))
    ensures OperationFrom(s, table, ops, l) == Requests(table, ops, r, e)
  {
    hide Scanned, Suits, ExpandedAll, ColumnsFrom, ParamsAt;
    assert [] + r.params == r.params;
  }

  /** A request after a blank: the scanner stops before it and then finds it. */
  lemma NextRequest(s: string, table: OpTable, ops: seq<ParsedOp>, e: nat, r: Request)
    requires r.Good() && e < |s| && s[e] == ' ' && At(s, e + 1, r.Show())
    ensures Closes(s, e)
    ensures e + 1 <= |s| && OperationsAt(s, table, ops, e) == OperationsAt(s, table, ops, e + 1)
  {
    hide *;
    RequestParts(s, e + 1, r);
    GoodParts(r);
    NameToken(s, e + 1, r.name, false);
    NameStart(s, e + 1, r.name);
    BlankToken(s, e);
    CharEnds(s, e);
    NameStops(s, e, table, ops);
  }

  lemma NameStops(s: string, e: nat, table: OpTable, ops: seq<ParsedOp>)
    requires e + 1 <= |s| && Ends(s, e) && Scanned(s, e, false) == Scanned(s, e + 1, false)
    requires var l := Scanned(s, e + 1, false); l.Lexeme? && l.tok.Identifier?
    ensures Closes(s, e)
    ensures OperationsAt(s, table, ops, e) == OperationsAt(s, table, ops, e + 1)
  {
    hide Scanned, OperationFrom, Ends;
  }

  lemma NameStart(s: string, p: nat, name: string)
    requires name != "" && At(s, p, Escaped(name, true))
    ensures p < |s| && !IsSpace(s[p])
  {
    EscapedCons(name, true);
    AtChar(s, p, Escaped(name, true), 0);
    hide Escaped;
  }

  lemma EndStops(s: string, table: OpTable, ops: seq<ParsedOp>)
    ensures Closes(s, |s|) && OperationsAt(s, table, ops, |s|) == Some(ops)
  {
  }

  lemma ReadStep(s: string, table: OpTable, ops: seq<ParsedOp>, p: nat, rs: seq<Request>, e: nat)
    requires rs != [] && p < e <= |s| && Scanned(s, p, false).Lexeme? && Scanned(s, p, false).tok.Identifier?
    requires OperationFrom(s, table, ops, Scanned(s, p, false)) == Requests(table, ops, rs[0], e)
    requires var r := Requests(table, ops, rs[0], e);
      r.Some? ==> OperationsAt(s, table, r.value.0, e) == Requested(table, r.value.0, rs[1..])
    ensures OperationsAt(s, table, ops, p) == Requested(table, ops, rs)
  {
    hide Scanned, OperationFrom, Suits, ExpandedAll;
  }

  /** Whatever requests are written out, the parser builds exactly the operations they stand for,
      or fails if one of them is unknown or does not suit its columns. */
  lemma {:induction false} AllRead(s: string, table: OpTable, ops: seq<ParsedOp>, rs: seq<Request>, p: nat)
    requires forall r :: r in rs ==> r.Good()
    requires At(s, p, ShowAll(rs)) && p + |ShowAll(rs)| == |s|
    ensures OperationsAt(s, table, ops, p) == Requested(table, ops, rs)
    decreases |rs|
  {
    hide *;
    EndStops(s, table, ops);
    if rs == [] {
      NoRequests(table, ops);
    } else {
      var (r, e) := (rs[0], p + |rs[0].Show()|);
      ShowAllCons(rs);
      var more := Requests(table, ops, r, e);
      if |rs| == 1 {
        OperationRead(s, table, ops, p, r);
        if more.Some? {
          EndStops(s, table, more.value.0);
          assert rs[1..] == [];
          NoRequests(table, more.value.0);
        }
      } else {
        AtConcat(s, p, r.Show(), " " + ShowAll(rs[1..]));
        NextParts(s, e, rs[1..]);
        NextRequest(s, table, ops, e, rs[1]);
        OperationRead(s, table, ops, p, r);
        if more.Some? {
          NextRequest(s, table, more.value.0, e, rs[1]);
          AllRead(s, table, more.value.0, rs[1..], e + 1);
        }
      }
      ShowNotEmpty(r);
      ReadStep(s, table, ops, p, rs, e);
    }
  }

  lemma NoRequests(table: OpTable, ops: seq<ParsedOp>)
    ensures Requested(table, ops, []) == Some(ops) && ShowAll([]) == ""
  {
  }

  lemma ShowAllCons(rs: seq<Request>)
    requires rs != []
    ensures |rs| == 1 ==> ShowAll(rs) == rs[0].Show()
    ensures |rs| > 1 ==> ShowAll(rs) == rs[0].Show() + (" " + ShowAll(rs[1..]))
  {
    hide Request.Show;
  }

  lemma ShowNotEmpty(r: Request)
    ensures r.Show() != ""
  {
  }

  /** A blank and the next request. */
  lemma NextParts(s: string, e: nat, rs: seq<Request>)
    requires rs != [] && At(s, e, " " + ShowAll(rs))
    ensures e < |s| && s[e] == ' ' && At(s, e + 1, ShowAll(rs)) && At(s, e + 1, rs[0].Show())
  {
    hide *;
    AtConcat(s, e, " ", ShowAll(rs));
    ScannedWithin(s, e, " " + ShowAll(rs));
    AtChar(s, e, " ", 0);
    ShowAllCons(rs);
    if |rs| > 1 {
      AtConcat(s, e + 1, rs[0].Show(), " " + ShowAll(rs[1..]));
    }
  }

  lemma {:induction false} ParsePrinted(table: OpTable, rs: seq<Request>)
    requires forall r :: r in rs ==> r.Good()
    ensures OperationsAt(ShowAll(rs), table, [], 0) == Requested(table, [], rs)
  {
    hide ShowAll, OperationsAt, Requested, Request.Good;
    AllRead(ShowAll(rs), table, [], rs, 0);
  }

  // --- Ranges that are refused -------------------------------------------------------------

  /** A range is accepted only if its columns are numbered from 1 and go up. */
  lemma RangeAccepted(s: string, p: nat, a: nat, b: nat)
    requires a <= LONG_MAX && b <= LONG_MAX && At(s, p, Decimal(a) + ("-" + Decimal(b)))
    requires p <= |s| && Stops(s, p + |Decimal(a) + ("-" + Decimal(b))|)
    ensures var c := ColumnFrom(s, Scanned(s, p, false));
      c == if 0 < a < b then Some((Range(a, b), p + |Decimal(a) + ("-" + Decimal(b))|)) else None
  {
    hide *;
    var d := p + |Decimal(a)|;
    var e := d + 1 + |Decimal(b)|;
    AtConcat(s, p, Decimal(a), "-" + Decimal(b));
    PunctuationAt(s, d, '-', Decimal(b));
    NumberToken(s, p, a, false);
    AtEnd(s, d + 1);
    StopsEnds(s, e);
    NumberToken(s, d + 1, b, false);
    NumberSimple(s, p, a, d);
    NumberSimple(s, d + 1, b, e);
    TokenWithin(s, p);
    RangeBranch(s, p, a, d, b, e);
  }

  lemma TokenWithin(s: string, p: nat)
    requires p <= |s|
    ensures Within(s, Scanned(s, p, false))
  {
    hide Scanned;
  }

  lemma NumberSimple(s: string, p: nat, n: nat, e: nat)
    requires p <= |s| && Scanned(s, p, false) == Lexeme(Integer, Decimal(n), n, e)
    ensures SimpleFrom(Scanned(s, p, false)) == if n > 0 then Some((Number(n), e)) else None
  {
    hide Scanned, Decimal;
  }

  lemma RangeBranch(s: string, p: nat, a: nat, d: nat, b: nat, e: nat)
    requires p <= |s| && d < |s| && e <= |s| && Within(s, Scanned(s, p, false))
    requires SimpleFrom(Scanned(s, p, false)) == if a > 0 then Some((Number(a), d)) else None
    requires Scanned(s, d, false) == Lexeme(Dash, "-", 0, d + 1)
    requires SimpleFrom(Scanned(s, d + 1, false)) == if b > 0 then Some((Number(b), e)) else None
    ensures ColumnFrom(s, Scanned(s, p, false)) == if 0 < a < b then Some((Range(a, b), e)) else None
  {
    hide Scanned, SimpleFrom;
  }

  /** "name a-b" fails unless 0 < a < b. */
  lemma BadRangeRefused(table: OpTable, name: string, a: nat, b: nat)
    requires 0 < |name| < MAX_IDENTIFIER_LENGTH && a <= LONG_MAX && b <= LONG_MAX && !(0 < a < b)
    ensures OperationsAt(Escaped(name, true) + (" " + (Decimal(a) + ("-" + Decimal(b)))), table, [], 0) == None
  {
    hide *;
    var range := Decimal(a) + ("-" + Decimal(b));
    var s := Escaped(name, true) + (" " + range);
    var n := |Escaped(name, true)|;
    AtWhole(s);
    AtConcat(s, 0, Escaped(name, true), " " + range);
    AtConcat(s, n, " ", range);
    AtEnd(s, n + 1);
    AtChar(s, n, " ", 0);
    CharEnds(s, n);
    NameToken(s, 0, name, false);
    DigitFirst(a, "-" + Decimal(b));
    AtChar(s, n + 1, range, 0);
    NoParams(s, name, n);
    EndStops(s, table, []);
    ClosesStops(s, |s|);
    RangeAccepted(s, n + 1, a, b);
    ColumnRefused(s, table, name, n);
  }

  lemma DigitFirst(a: nat, t: string)
    ensures var r := Decimal(a) + t; r != "" && !IsSpace(r[0])
  {
    assert Digit.Has(Decimal(a)[0]);
  }

  lemma ClosesStops(s: string, e: nat)
    requires Closes(s, e)
    ensures Stops(s, e)
  {
    hide Stops;
  }

  lemma NoParams(s: string, name: string, n: nat)
    requires n + 1 < |s| && s[n] == ' ' && !IsSpace(s[n + 1])
    ensures ParamsAt(s, name, [], n) == Some(([], Scanned(s, n + 1, false)))
  {
    assert At(s, n, ShowParams([]));
    hide Scanned, At;
    ParamsRead(s, name, [], [], n);
  }

  lemma ColumnRefused(s: string, table: OpTable, name: string, n: nat)
    requires n < |s| && Scanned(s, 0, false) == Lexeme(Identifier, name, 0, n)
    requires ParamsAt(s, name, [], n) == Some(([], Scanned(s, n + 1, false)))
    requires Within(s, Scanned(s, n + 1, false)) && ColumnFrom(s, Scanned(s, n + 1, false)) == None
    ensures OperationsAt(s, table, [], 0) == None
  {
    hide Scanned, ParamsAt, ColumnFrom;
    assert ColumnsFrom(s, Scanned(s, n + 1, false)) == None;
    hide ColumnsFrom;
    assert OperationFrom(s, table, [], Scanned(s, 0, false)) == None;
  }
}
