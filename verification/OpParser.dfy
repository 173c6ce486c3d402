/** The parser of the operation language and the list of operations it builds (src/op-parser.c). */
module OpParser {
  import opened Text
  import opened OpScanner
  import FieldOps

  type Op = FieldOps.Op

  // --- Columns -----------------------------------------------------------------------------

  datatype FieldRef = Number(n: nat) | Named(name: string)

  /** One item of a column list. The last form, x:y-to, is accepted although the range then belongs
      to x: it stands for the columns x, x+1 ... y, the last of them paired with `to`. */
  datatype Column = One(f: FieldRef) | Range(from: nat, to: nat) | Pair(x: FieldRef, y: FieldRef)
                  | PairRange(from: nat, y: FieldRef, to: nat)
  {
    predicate IsPair() { Pair? || PairRange? }

    /** The parsed fields (struct parser_field_t) of the item. */
    function Fields(): (fs: seq<ParserField>)
      ensures |fs| == if One? then 1 else if PairRange? then 3 else 2
    {
      match this
      case One(f) => [ParserField(f, false, false)]
      case Range(a, b) => [ParserField(Number(a), true, false), ParserField(Number(b), false, false)]
      case Pair(x, y) => [ParserField(x, false, true), ParserField(y, false, false)]
      case PairRange(a, y, b) =>
        [ParserField(Number(a), true, true), ParserField(y, false, false), ParserField(Number(b), false, false)]
    }
  }

  datatype ParserField = ParserField(ref: FieldRef, range: bool, pair: bool)

  /** The num member of a field; 0 when the column is given by name. */
  function NumOf(f: FieldRef): nat {
    if f.Number? then f.n else 0
  }

  // --- The grammar -------------------------------------------------------------------------

  /** parse_simple_operation_column: the column the token l names, and where the next token is
      looked for. */
  function SimpleFrom(l: Lexeme): Option<(FieldRef, nat)> {
    if l.Invalid? then None
    else if l.tok.Identifier? then Some((Named(l.text), l.next))
    else if l.tok.Integer? && l.value > 0 then Some((Number(l.value), l.next))
    else None
  }

  /** A token of s that ends inside it, if it is one at all. */
  predicate Within(s: string, l: Lexeme) {
    l.Lexeme? ==> l.next <= |s|
  }

  /** parse_operation_column, from the token l on. */
  function ColumnFrom(s: string, l: Lexeme): (r: Option<(Column, nat)>)
    requires Within(s, l)
    ensures r.Some? ==> l.Lexeme? && l.next <= r.value.1 <= |s|
  {
    match SimpleFrom(l)
    case None => None
    case Some((x, p)) =>
      var m := Scanned(s, p, false);
      if m.Invalid? then None
      else if m.tok.Colons? then PairAt(s, x, m.next)
      else if m.tok.Dash? then RangeAt(s, x, m.next)
      else Some((One(x), p))
  }

  /** After "x:". */
  function PairAt(s: string, x: FieldRef, pos: nat): (r: Option<(Column, nat)>)
    requires pos <= |s|
    ensures r.Some? ==> pos < r.value.1 <= |s|
  {
    match SimpleFrom(Scanned(s, pos, false))
    case None => None
    case Some((y, p)) =>
      var m := Scanned(s, p, false);
      if m.Invalid? then None
      else if m.tok.Dash? then
        match RangeAt(s, x, m.next)
        case None => None
        case Some((c, q)) => Some((PairRange(c.from, y, c.to), q))
      else Some((Pair(x, y), p))
  }

  /** After "x-". */
  function RangeAt(s: string, x: FieldRef, pos: nat): (r: Option<(Column, nat)>)
    requires pos <= |s|
    ensures r.Some? ==> pos < r.value.1 <= |s| && r.value.0.Range?
  {
    match SimpleFrom(Scanned(s, pos, false))
    case None => None
    case Some((y, p)) => if x.Number? && y.Number? && x.n < y.n then Some((Range(x.n, y.n), p)) else None
  }

  /** parse_operation_column_list. */
  function ColumnsFrom(s: string, l: Lexeme): (r: Option<(seq<Column>, nat)>)
    requires Within(s, l)
    ensures r.Some? ==> l.Lexeme? && l.next <= r.value.1 <= |s|
  {
    match ColumnFrom(s, l)
    case None => None
    case Some((c, p)) => MoreColumns(s, [c], p)
  }

  function MoreColumns(s: string, cs: seq<Column>, p: nat): (r: Option<(seq<Column>, nat)>)
    requires p <= |s|
    ensures r.Some? ==> p <= r.value.1 <= |s|
    decreases |s| - p
  {
    var l := Scanned(s, p, false);
    if l.Invalid? then None
    else if !l.tok.Comma? then Some((cs, p))
    else match ColumnFrom(s, Scanned(s, l.next, false))
      case None => None
      case Some((c, q)) => MoreColumns(s, cs + [c], q)
  }

  function AllFields(cs: seq<Column>): seq<ParserField> {
    if cs == [] then [] else AllFields(cs[..|cs| - 1]) + cs[|cs| - 1].Fields()
  }

  lemma AllFieldsNone(c: Column)
    ensures AllFields([c]) == c.Fields()
  {
    assert [c][..0] == [];
  }

  lemma AllFieldsMore(cs: seq<Column>, c: Column)
    ensures AllFields(cs + [c]) == AllFields(cs) + c.Fields()
  {
    assert (cs + [c])[..|cs|] == cs;
  }

  // --- The operations a column stands for --------------------------------------------------

  /** The part of struct fieldop the parser fills in. */
  datatype ParsedOp = ParsedOp(op: Op, field: FieldRef, subordinate: bool, primary: bool, subordinateIdx: nat)

  function Plain(op: Op, f: FieldRef): ParsedOp {
    ParsedOp(op, f, false, false, 0)
  }

  /** The columns a ... b; only a if b is not larger. */
  function Span(op: Op, a: nat, b: nat): (ops: seq<ParsedOp>)
    ensures |ops| == if a < b then b - a + 1 else 1
    decreases b
  {
    if a < b then Span(op, a, b - 1) + [Plain(op, Number(b))] else [Plain(op, Number(a))]
  }

  /** The last operation is made subordinate, and its partner added. */
  function Paired(ops: seq<ParsedOp>, op: Op, other: FieldRef): seq<ParsedOp>
    requires ops != []
  {
    ops[..|ops| - 1] + [ops[|ops| - 1].(subordinate := true), ParsedOp(op, other, false, true, |ops| - 1)]
  }

  /** ops with the operations of one column added. */
  function Expanded(ops: seq<ParsedOp>, op: Op, c: Column): (r: seq<ParsedOp>)
    ensures r != []
  {
    match c
    case One(f) => ops + [Plain(op, f)]
    case Range(a, b) => ops + Span(op, a, b)
    case Pair(x, y) => Paired(ops + [Plain(op, x)], op, y)
    case PairRange(a, y, b) => Paired(ops + Span(op, a, NumOf(y)), op, Number(b))
  }

  function ExpandedAll(ops: seq<ParsedOp>, op: Op, cs: seq<Column>): seq<ParsedOp> {
    if cs == [] then ops else Expanded(ExpandedAll(ops, op, cs[..|cs| - 1]), op, cs[|cs| - 1])
  }

  /** create_field_ops requires pairs of exactly the operations on pairs. */
  predicate Suits(op: Op, cs: seq<Column>) {
    forall i :: 0 <= i < |cs| ==> cs[i].IsPair() == op.Pair()
  }

  // --- Operations --------------------------------------------------------------------------

  /** The parameters after an operation's name. */
  datatype Param = IntParam(u: nat) | FloatParam(text: string) | CharParam(c: char)

  /** The operation a name and its parameters denote, if any: the table of operations, the check of
      the processing mode and set_op_params, which are not part of this model. */
  type OpTable = (string, seq<Param>) -> Option<Op>

  /** The only operation with a letter as parameter. */
  const GETNUM: string := "getnum"

  /** The parameter the token v stands for. */
  function ParamOf(name: string, v: Lexeme): (r: Option<Param>)
    ensures r.Some? ==> v.Lexeme?
  {
    if v.Invalid? then None
    else if v.tok.Integer? then Some(IntParam(v.value))
    else if v.tok.Float? then Some(FloatParam(v.text))
    else if v.tok.Identifier? && name == GETNUM && v.text != "" then Some(CharParam(v.text[0]))
    else None
  }

  /** parse_operation_params of the operation `name`, from pos on: the parameters, and the token that
      comes after them and after any blanks. */
  function ParamsAt(s: string, name: string, ps: seq<Param>, pos: nat): (r: Option<(seq<Param>, Lexeme)>)
    requires pos <= |s|
    ensures r.Some? ==> Within(s, r.value.1) && (r.value.1.Lexeme? ==> pos <= r.value.1.next)
    decreases |s| - pos
  {
    var l := Scanned(s, pos, true);
    if l.Invalid? then None
    else if l.tok.Whitespace? then Some((ps, Scanned(s, l.next, false)))
    else if !l.tok.Colons? then Some((ps, l))
    else
      var v := Scanned(s, l.next, true);
      match ParamOf(name, v)
      case None => None
      case Some(x) => ParamsAt(s, name, ps + [x], v.next)
  }

  /** parse_operation, from the token l on: ops with the operations of one name and its columns
      added. */
  function OperationFrom(s: string, table: OpTable, ops: seq<ParsedOp>, l: Lexeme): (r: Option<(seq<ParsedOp>, nat)>)
    requires Within(s, l)
    ensures r.Some? ==> l.Lexeme? && l.next <= r.value.1 <= |s|
  {
    if l.Invalid? then None
    else match ParamsAt(s, l.text, [], l.next)
      case None => None
      case Some((ps, first)) =>
        match ColumnsFrom(s, first)
        case None => None
        case Some((cs, q)) =>
          var op := table(l.text, ps);
          if op.Some? && Suits(op.value, cs) then Some((ExpandedAll(ops, op.value, cs), q)) else None
  }

  /** parse_operations, from pos on. */
  function OperationsAt(s: string, table: OpTable, ops: seq<ParsedOp>, pos: nat): (r: Option<seq<ParsedOp>>)
    requires pos <= |s|
    decreases |s| - pos
  {
    var l := Scanned(s, pos, false);
    if l.Invalid? then None
    else if l.tok.End? then Some(ops)
    else match OperationFrom(s, table, ops, l)
      case None => None
      case Some((more, q)) => OperationsAt(s, table, more, q)
  }

  // --- The parser --------------------------------------------------------------------------

  /** The globals of the parser: the fields and parameters of the operation being parsed, and the
      operations so far. */
  class Parser {
    const scanner: Scanner
    var fields: seq<ParserField>
    var params: seq<Param>
    var ops: seq<ParsedOp>

    ghost predicate Valid()
      reads this, scanner
    {
      scanner.Valid() && !scanner.keepWhitespace
    }

    /** The next token is the one found at p. */
    ghost predicate At(p: nat)
      reads this, scanner
    {
      Valid() && p <= |scanner.input| && scanner.at == p && scanner.Next() == Scanned(scanner.input, p, false)
    }

    constructor (input: string)
      ensures fresh(scanner) && scanner.input == input && At(0) && ops == []
    {
      scanner := new Scanner(input);
      fields, params, ops := [], [], [];
    }

    method ParseSimpleColumn() returns (r: Option<FieldRef>)
      requires Valid()
      modifies scanner
      ensures var x := SimpleFrom(old(scanner.Next()));
        && (x.None? ==> r == None)
        && (x.Some? ==> r == Some(x.value.0) && At(x.value.1) && !scanner.havePeek)
    {
      hide Scanned;
      var tok := scanner.GetToken();
      if tok.None? {
        return None;
      }
      match tok.value {
        case Identifier => r := Some(Named(scanner.identifier));
        case Integer => r := if scanner.valInt > 0 then Some(Number(scanner.valInt)) else None;
        case _ => r := None;
      }
    }

    /** parse_operation_column: the field records of one item are appended, the first marked as a
        range or pair while the others are read. */
    method ParseColumn() returns (ok: bool)
      requires Valid()
      modifies scanner, this`fields
      ensures var c := ColumnFrom(scanner.input, old(scanner.Next()));
        && ok == c.Some?
        && (ok ==> fields == old(fields) + c.value.0.Fields() && At(c.value.1))
    {
      hide Scanned;
      var p := |fields|;
      var x := ParseSimpleColumn();
      if x.None? {
        return false;
      }
      fields := fields + [ParserField(x.value, false, false)];
      var tok := scanner.PeekToken();
      if tok == Some(Colons) {
        tok := ParsePartner(p);
      }
      ok := tok.Some?;
      if tok == Some(Dash) {
        ok := ParseRangeEnd(p);
      }
    }

    /** The pair part of parse_operation_column, for the field record p, and the token after it. */
    method ParsePartner(p: nat) returns (tok: Option<Token>)
      requires Valid() && scanner.Next().Lexeme? && scanner.Next().tok.Colons? && p < |fields|
      modifies scanner, this`fields
      ensures var y := SimpleFrom(Scanned(scanner.input, old(scanner.Next().next), false));
        && (y.None? ==> tok == None)
        && (y.Some? ==> tok == TokOf(Scanned(scanner.input, y.value.1, false)))
        && (tok.Some? ==> At(y.value.1) && fields == old(fields)[p := old(fields[p]).(pair := true)]
                                                     + [ParserField(y.value.0, false, false)])
    {
      hide Scanned, SimpleFrom;
      tok := scanner.GetToken();
      fields := fields[p := fields[p].(pair := true)];
      var y := ParseSimpleColumn();
      if y.None? {
        return None;
      }
      fields := fields + [ParserField(y.value, false, false)];
      tok := scanner.PeekToken();
    }

    /** The range part of parse_operation_column, for the field record p. */
    method ParseRangeEnd(p: nat) returns (ok: bool)
      requires Valid() && scanner.Next().Lexeme? && scanner.Next().tok.Dash? && p < |fields|
      modifies scanner, this`fields
      ensures var c := RangeAt(scanner.input, old(fields[p].ref), old(scanner.Next().next));
        && ok == c.Some?
        && (ok ==> At(c.value.1) && fields == old(fields)[p := old(fields[p]).(range := true)]
                                              + [ParserField(Number(c.value.0.to), false, false)])
    {
      hide Scanned;
      var x := fields[p].ref;
      var tok := scanner.GetToken();
      fields := fields[p := fields[p].(range := true)];
      var q := ParseSimpleColumn();
      if q.None? || q.value.Named? || x.Named? || x.n >= q.value.n {
        return false;
      }
      fields := fields + [ParserField(q.value, false, false)];
      ok := true;
    }

    /** parse_operation_column_list. */
    method ParseColumnList() returns (ok: bool)
      requires Valid() && fields == []
      modifies scanner, this`fields
      ensures var cs := ColumnsFrom(scanner.input, old(scanner.Next()));
        && ok == cs.Some?
        && (ok ==> fields == AllFields(cs.value.0) && At(cs.value.1))
    {
      hide Scanned, ColumnFrom;
      ghost var input := scanner.input;
      ghost var c := ColumnFrom(input, scanner.Next());
      ok := ParseColumn();
      if !ok {
        return;
      }
      ghost var cs, here := [c.value.0], c.value.1;
      AllFieldsNone(c.value.0);
      var tok := scanner.PeekToken();
      while tok == Some(Comma)
        invariant here <= |input| && MoreColumns(input, cs, here) == ColumnsFrom(input, old(scanner.Next()))
        invariant fields == AllFields(cs)
        invariant tok == TokOf(Scanned(input, here, false))
        invariant tok.Some? ==> At(here)
        decreases |input| - here
      {
        tok := scanner.GetToken();
        c := ColumnFrom(input, scanner.Next());
        ok := ParseColumn();
        if !ok {
          return;
        }
        AllFieldsMore(cs, c.value.0);
        cs, here := cs + [c.value.0], c.value.1;
        tok := scanner.PeekToken();
      }
      ok := tok.Some?;
    }

    /** The token at `here` was peeked with blanks kept. */
    ghost predicate InParams(here: nat)
      reads this, scanner
    {
      && scanner.Valid() && scanner.havePeek && scanner.keepWhitespace
      && here <= |scanner.input| && scanner.at == here && scanner.Next() == Scanned(scanner.input, here, true)
    }

    /** parse_operation_params, for the operation `name`. */
    method ParseParams(name: string) returns (ok: bool)
      requires Valid() && !scanner.havePeek && params == []
      modifies scanner, this`params
      ensures var ps := ParamsAt(scanner.input, name, [], old(scanner.at));
        && ok == ps.Some?
        && (ok ==> params == ps.value.0 && Valid() && scanner.Next() == ps.value.1)
    {
      hide Scanned;
      ghost var input := scanner.input;
      ghost var here := scanner.at;
      scanner.keepWhitespace := true;
      var tok := scanner.PeekToken();
      while tok == Some(Colons)
        invariant here <= |input| && ParamsAt(input, name, params, here) == ParamsAt(input, name, [], old(scanner.at))
        invariant tok == TokOf(Scanned(input, here, true))
        invariant tok.Some? ==> InParams(here)
        decreases |input| - here
      {
        tok := scanner.GetToken();
        tok := scanner.GetToken();
        if tok == Some(Integer) {
          params := params + [IntParam(scanner.valInt)];
        } else if tok == Some(Float) {
          params := params + [FloatParam(scanner.valFloat)];
        } else if tok == Some(Identifier) && name == GETNUM && scanner.identifier != "" {
          params := params + [CharParam(scanner.identifier[0])];
        } else {
          return false;
        }
        here := scanner.at;
        tok := scanner.PeekToken();
      }
      if tok.None? {
        return false;
      }
      if tok == Some(Whitespace) {
        tok := scanner.GetToken();
      }
      scanner.keepWhitespace := false;
      ok := true;
    }

    /** One round of create_field_ops, for the field records of the column c from index i on. */
    method CreateColumn(fop: Op, i: nat, ghost c: Column) returns (ok: bool, next: nat)
      requires i + |c.Fields()| <= |fields| && fields[i..i + |c.Fields()|] == c.Fields()
      modifies this`ops
      ensures ok == (c.IsPair() == fop.Pair())
      ensures ok ==> next == i + |c.Fields()| && ops == Expanded(old(ops), fop, c)
    {
      Records(fields, i, c);
      next := i;
      var f := fields[next];
      ops := ops + [Plain(fop, f.ref)];
      ok := fop.Pair() == f.pair;
      if !ok {
        return;
      }
      ghost var before := old(ops);
      if f.range {
        next := next + 1;
        var to := NumOf(fields[next].ref);
        var t := NumOf(f.ref);
        while t < to
          invariant f.ref.n <= t && (t <= to || t == f.ref.n)
          invariant ops == before + Span(fop, f.ref.n, t)
        {
          t := t + 1;
          ops := ops + [Plain(fop, Number(t))];
        }
        SpanStops(fop, f.ref.n, to);
      }
      if f.pair {
        ops := ops[|ops| - 1 := ops[|ops| - 1].(subordinate := true)];
        next := next + 1;
        ops := ops + [ParsedOp(fop, fields[next].ref, false, true, |ops| - 1)];
      }
      next := next + 1;
    }

    /** create_field_ops, for the operation fop with its parameters. */
    method CreateFieldOps(fop: Op, ghost cs: seq<Column>) returns (ok: bool)
      requires fields == AllFields(cs)
      modifies this`ops
      ensures ok == Suits(fop, cs)
      ensures ok ==> ops == ExpandedAll(old(ops), fop, cs)
    {
      ok := true;
      ghost var k := 0;
      var i: nat := 0;
      while i < |fields|
        invariant k <= |cs| && i == |AllFields(cs[..k])| && (i == |fields| <==> k == |cs|)
        invariant Suits(fop, cs[..k]) && ops == ExpandedAll(old(ops), fop, cs[..k])
        invariant i <= |fields|
        decreases |fields| - i
      {
        RecordsOf(cs, k);
        hide *;
        ok, i := CreateColumn(fop, i, cs[k]);
        if !ok {
          NotSuited(fop, cs, k);
          return;
        }
        ExpandedMore(old(ops), fop, cs, k);
        k := k + 1;
      }
      assert cs[..k] == cs;
    }

    /** parse_operation. */
    method ParseOperation(table: OpTable) returns (ok: bool)
      requires Valid() && (scanner.Next().Lexeme? ==> scanner.Next().tok.HasText())
      modifies scanner, this`fields, this`params, this`ops
      ensures var r := OperationFrom(scanner.input, table, old(ops), old(scanner.Next()));
        && ok == r.Some?
        && (ok ==> ops == r.value.0 && At(r.value.1))
    {
      hide Scanned, Suits, ExpandedAll, ColumnsFrom, ParamsAt;
      fields, params := [], [];
      var tok := scanner.GetToken();
      if tok.None? {
        return false;
      }
      var name := scanner.identifier;
      ghost var l := old(scanner.Next());
      ghost var ps := ParamsAt(scanner.input, name, [], l.next);
      ok := ParseParams(name);
      if !ok {
        return;
      }
      var fop := table(name, params);
      ghost var cs := ColumnsFrom(scanner.input, scanner.Next());
      ok := ParseColumnList();
      if !ok {
        return;
      }
      if fop.None? {
        return false;
      }
      ok := CreateFieldOps(fop.value, cs.value.0);
    }

    /** parse_operations; the loop that caches the partners of the primary operations is left out,
        as they are found by their index here. */
    method ParseOperations(table: OpTable) returns (ok: bool)
      requires At(scanner.at)
      modifies scanner, this`fields, this`params, this`ops
      ensures var r := OperationsAt(scanner.input, table, old(ops), old(scanner.at));
        && ok == r.Some?
        && (ok ==> ops == r.value)
    {
      hide Scanned, OperationFrom;
      ghost var input, here := scanner.input, scanner.at;
      var tok := scanner.PeekToken();
      while tok.Some? && tok != Some(End)
        invariant here <= |input|
        invariant OperationsAt(input, table, ops, here) == OperationsAt(input, table, old(ops), old(scanner.at))
        invariant tok == TokOf(Scanned(input, here, false))
        invariant tok.Some? ==> At(here)
        decreases |input| - here
      {
        ghost var r := OperationFrom(input, table, ops, scanner.Next());
        ok := ParseOperation(table);
        if !ok {
          return;
        }
        here := r.value.1;
        tok := scanner.PeekToken();
      }
      ok := tok.Some?;
    }
  }

  // --- Lemmas for the loops ----------------------------------------------------------------

  lemma Records(fields: seq<ParserField>, i: nat, c: Column)
    requires i + |c.Fields()| <= |fields| && fields[i..i + |c.Fields()|] == c.Fields()
    ensures forall k :: 0 <= k < |c.Fields()| ==> fields[i + k] == c.Fields()[k]
    ensures fields[i] == c.Fields()[0]
  {
  }

  lemma SpanStops(op: Op, a: nat, to: nat)
    ensures to <= a ==> Span(op, a, a) == Span(op, a, to)
  {
  }

  lemma {:induction false} AllFieldsUpTo(cs: seq<Column>, k: nat)
    requires k <= |cs|
    ensures AllFields(cs[..k]) <= AllFields(cs)
    ensures k < |cs| ==> |AllFields(cs[..k])| < |AllFields(cs)|
  {
    if k < |cs| {
      var init := cs[..|cs| - 1];
      assert init[..k] == cs[..k];
      AllFieldsUpTo(init, k);
    } else {
      assert cs[..k] == cs;
    }
  }

  lemma RecordsOf(cs: seq<Column>, k: nat)
    requires k < |cs|
    ensures var (i, n) := (|AllFields(cs[..k])|, |cs[k].Fields()|);
      && i + n == |AllFields(cs[..k + 1])| <= |AllFields(cs)|
      && (i + n == |AllFields(cs)| <==> k + 1 == |cs|)
      && AllFields(cs)[i..i + n] == cs[k].Fields()
  {
    AllFieldsUpTo(cs, k + 1);
    assert cs[..k + 1][..k] == cs[..k];
    assert k + 1 == |cs| ==> cs[..k + 1] == cs;
  }

  lemma NotSuited(op: Op, cs: seq<Column>, k: nat)
    requires k < |cs| && cs[k].IsPair() != op.Pair()
    ensures !Suits(op, cs)
  {
  }

  lemma ExpandedMore(ops: seq<ParsedOp>, op: Op, cs: seq<Column>, k: nat)
    requires k < |cs|
    ensures ExpandedAll(ops, op, cs[..k + 1]) == Expanded(ExpandedAll(ops, op, cs[..k]), op, cs[k])
    ensures Suits(op, cs[..k]) && cs[k].IsPair() == op.Pair() ==> Suits(op, cs[..k + 1])
  {
    hide Expanded, Column.IsPair, FieldOps.Op.Pair;
    assert cs[..k + 1][..k] == cs[..k];
    assert cs[..k + 1][k] == cs[k];
  }
}
