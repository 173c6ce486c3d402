/** What the lists of operations built by the parser look like. */
module OpLists {
  import opened Text
  import opened OpScanner
  import opened OpParser
  import FieldOps
  import GroupBy

  // --- Primary and subordinate operations --------------------------------------------------

  /** Every primary operation follows its subordinate, which has the same operation and the index
      cached in it; every subordinate is followed by its primary, so the last one is none. */
  ghost predicate WellPaired(ops: seq<ParsedOp>) {
    && (forall i :: 0 <= i < |ops| && ops[i].primary ==> IsPartner(ops, i))
    && (forall i :: 0 <= i < |ops| && ops[i].subordinate ==> i + 1 < |ops| && ops[i + 1].primary)
  }

  ghost predicate IsPartner(ops: seq<ParsedOp>, i: nat)
    requires i < |ops|
  {
    && i > 0 && ops[i].subordinateIdx == i - 1 && !ops[i].subordinate
    && ops[i - 1].subordinate && ops[i - 1].op == ops[i].op
  }

  ghost predicate AllPlain(ops: seq<ParsedOp>, op: Op) {
    forall i :: 0 <= i < |ops| ==> ops[i].op == op && !ops[i].primary && !ops[i].subordinate
  }

  lemma SpanPlain(op: Op, a: nat, b: nat)
    ensures AllPlain(Span(op, a, b), op)
    decreases b
  {
    if a < b {
      SpanPlain(op, a, b - 1);
    }
  }

  lemma AddPlain(ops: seq<ParsedOp>, more: seq<ParsedOp>, op: Op)
    requires WellPaired(ops) && AllPlain(more, op)
    ensures WellPaired(ops + more)
  {
    var r := ops + more;
    forall i | 0 <= i < |r| && r[i].primary ensures IsPartner(r, i) {
      assert ops[i].primary;
      assert IsPartner(ops, i);
    }
  }

  lemma AddPaired(ops: seq<ParsedOp>, more: seq<ParsedOp>, op: Op, other: FieldRef)
    requires WellPaired(ops) && AllPlain(more, op) && more != []
    ensures WellPaired(Paired(ops + more, op, other))
  {
    var r := Paired(ops + more, op, other);
    forall i | 0 <= i < |r| && r[i].primary ensures IsPartner(r, i) {
      if i < |ops| {
        assert IsPartner(ops, i);
      }
    }
  }

  lemma ExpandedWellPaired(ops: seq<ParsedOp>, op: Op, c: Column)
    requires WellPaired(ops)
    ensures WellPaired(Expanded(ops, op, c))
  {
    hide WellPaired, Paired;
    match c
    case One(f) => AddPlain(ops, [Plain(op, f)], op);
    case Range(a, b) =>
      SpanPlain(op, a, b);
      AddPlain(ops, Span(op, a, b), op);
    case Pair(x, y) => AddPaired(ops, [Plain(op, x)], op, y);
    case PairRange(a, y, b) =>
      SpanPlain(op, a, NumOf(y));
      AddPaired(ops, Span(op, a, NumOf(y)), op, Number(b));
  }

  lemma {:induction false} ExpandedAllWellPaired(ops: seq<ParsedOp>, op: Op, cs: seq<Column>)
    requires WellPaired(ops)
    ensures WellPaired(ExpandedAll(ops, op, cs))
  {
    hide WellPaired, Expanded;
    if cs != [] {
      ExpandedAllWellPaired(ops, op, cs[..|cs| - 1]);
      ExpandedWellPaired(ExpandedAll(ops, op, cs[..|cs| - 1]), op, cs[|cs| - 1]);
    }
  }

  /** After parse_operations, whatever the input, the primary operations find their partners. */
  lemma {:induction false} ParsedWellPaired(s: string, table: OpTable, ops: seq<ParsedOp>, pos: nat)
    requires pos <= |s| && WellPaired(ops)
    ensures var r := OperationsAt(s, table, ops, pos); r.Some? ==> WellPaired(r.value)
    decreases |s| - pos
  {
    hide WellPaired, ExpandedAll, ColumnsFrom, ParamsAt, Suits, Scanned;
    var l := Scanned(s, pos, false);
    if l.Lexeme? && !l.tok.End? {
      var r := OperationFrom(s, table, ops, l);
      if r.Some? {
        OperationWellPaired(s, table, ops, l);
        ParsedWellPaired(s, table, r.value.0, r.value.1);
      }
    }
  }

  lemma OperationWellPaired(s: string, table: OpTable, ops: seq<ParsedOp>, l: Lexeme)
    requires Within(s, l) && WellPaired(ops)
    ensures var r := OperationFrom(s, table, ops, l); r.Some? ==> WellPaired(r.value.0)
  {
    hide WellPaired, ExpandedAll, ColumnsFrom, ParamsAt, Suits;
    if l.Lexeme? {
      var ps := ParamsAt(s, l.text, [], l.next);
      if ps.Some? {
        var cs := ColumnsFrom(s, ps.value.1);
        var op := table(l.text, ps.value.0);
        if cs.Some? && op.Some? {
          ExpandedAllWellPaired(ops, op.value, cs.value.0);
        }
      }
    }
  }

  // --- Every operation on pairs has its pair ------------------------------------------------

  /** No operation that needs two columns stands alone. */
  ghost predicate AllPaired(ops: seq<ParsedOp>) {
    forall i :: 0 <= i < |ops| && ops[i].op.Pair() ==> ops[i].primary || ops[i].subordinate
  }

  /** The item stands for no lone columns: it is not a pair and a range x:y-to with x below y. */
  predicate Tidy(c: Column) {
    c.PairRange? ==> NumOf(c.y) <= c.from
  }

  lemma ExpandedPaired(ops: seq<ParsedOp>, op: Op, c: Column)
    requires c.IsPair() == op.Pair() && AllPaired(ops)
    ensures AllPaired(Expanded(ops, op, c)) <==> Tidy(c)
  {
    var r := Expanded(ops, op, c);
    match c {
      case One(_) =>
      case Range(a, b) => SpanPlain(op, a, b);
      case Pair(_, _) =>
      case PairRange(a, y, b) =>
        SpanPlain(op, a, NumOf(y));
        if a < NumOf(y) {
          assert r[|ops|] == Span(op, a, NumOf(y))[0];
        }
    }
  }

  lemma ExpandedKeeps(ops: seq<ParsedOp>, op: Op, c: Column)
    ensures AllPaired(Expanded(ops, op, c)) ==> AllPaired(ops)
  {
    var r := Expanded(ops, op, c);
    assert forall i :: 0 <= i < |ops| ==> r[i] == ops[i];
  }

  /** The operations of a column list are all paired exactly if no item is both a pair and a
      range that starts below its second column. */
  lemma {:induction false} ExpandedAllPaired(ops: seq<ParsedOp>, op: Op, cs: seq<Column>)
    requires Suits(op, cs) && AllPaired(ops)
    ensures AllPaired(ExpandedAll(ops, op, cs)) <==> forall i :: 0 <= i < |cs| ==> Tidy(cs[i])
  {
    if cs != [] {
      var (init, c) := (cs[..|cs| - 1], cs[|cs| - 1]);
      assert c.IsPair() == op.Pair();
      hide AllPaired, Expanded, Tidy;
      ExpandedAllPaired(ops, op, init);
      var before := ExpandedAll(ops, op, init);
      ExpandedKeeps(before, op, c);
      if AllPaired(before) {
        ExpandedPaired(before, op, c);
      }
      assert forall i :: 0 <= i < |init| ==> init[i] == cs[i];
    }
  }

  // --- The operations of an item -----------------------------------------------------------

  /** The n operations of r from index k on are plain ones on the columns a, a + 1, ... */
  ghost predicate CountsUp(r: seq<ParsedOp>, k: nat, n: nat, op: Op, a: nat)
    requires k + n <= |r|
  {
    forall j :: k <= j < k + n ==> r[j] == ParsedOp(op, Number(a + j - k), false, false, 0)
  }

  lemma {:induction false} SpanCounts(op: Op, a: nat, b: nat)
    ensures CountsUp(Span(op, a, b), 0, |Span(op, a, b)|, op, a)
    decreases b
  {
    if a < b {
      SpanCounts(op, a, b - 1);
      assert forall j :: 0 <= j < b - a ==> Span(op, a, b)[j] == Span(op, a, b - 1)[j];
    }
  }

  /** What the items of a column list add to the operations: a column one operation, a range one for
      each of its columns in order, a pair a subordinate for its first and a primary for its second
      column. A pair and a range x:y-to adds one for each of the columns x ... y, the last of them
      subordinate to a primary for `to`. */
  lemma ExpandedSays(ops: seq<ParsedOp>, op: Op, c: Column)
    ensures var (n, r) := (|ops|, Expanded(ops, op, c));
      && ops <= r
      && match c {
           case One(f) => r == ops + [ParsedOp(op, f, false, false, 0)]
           case Range(a, b) => |r| == n + MaxOf(b - a, 0) + 1 && CountsUp(r, n, |r| - n, op, a)
           case Pair(x, y) => r == ops + [ParsedOp(op, x, true, false, 0), ParsedOp(op, y, false, true, n)]
           case PairRange(a, y, b) =>
             var d := MaxOf(NumOf(y) - a, 0);
             && |r| == n + d + 2 && CountsUp(r, n, d, op, a)
             && r[n + d] == ParsedOp(op, Number(a + d), true, false, 0)
             && r[n + d + 1] == ParsedOp(op, Number(b), false, true, n + d)
         }
  {
    match c
    case One(_) =>
    case Range(a, b) => SpanCounts(op, a, b);
    case Pair(_, _) =>
    case PairRange(a, y, b) =>
      SpanCounts(op, a, NumOf(y));
      PairedSays(ops, Span(op, a, NumOf(y)), op, a, Number(b));
  }

  lemma PairedSays(ops: seq<ParsedOp>, span: seq<ParsedOp>, op: Op, a: nat, other: FieldRef)
    requires span != [] && CountsUp(span, 0, |span|, op, a)
    ensures var (n, d, r) := (|ops|, |span| - 1, Paired(ops + span, op, other));
      && ops <= r && |r| == n + d + 2 && CountsUp(r, n, d, op, a)
      && r[n + d] == ParsedOp(op, Number(a + d), true, false, 0)
      && r[n + d + 1] == ParsedOp(op, other, false, true, n + d)
  {
    var (n, d, r) := (|ops|, |span| - 1, Paired(ops + span, op, other));
    assert forall j :: n <= j < n + d ==> r[j] == span[j - n];
  }

  /** The items of a list add their operations one after the other. */
  lemma {:induction false} ExpandedInOrder(ops: seq<ParsedOp>, op: Op, cs: seq<Column>, more: seq<Column>)
    ensures ExpandedAll(ops, op, cs + more) == ExpandedAll(ExpandedAll(ops, op, cs), op, more)
    decreases |more|
  {
    hide Expanded;
    if more == [] {
      assert cs + more == cs;
    } else {
      var init := more[..|more| - 1];
      ExpandedInOrder(ops, op, cs, init);
      assert (cs + more)[..|cs + more| - 1] == cs + init;
    }
  }

  // --- Ranges ------------------------------------------------------------------------------

  /** The list a,a+1,...,b. */
  function Singles(a: nat, b: nat): (cs: seq<Column>)
    ensures cs != []
    decreases b
  {
    if a < b then Singles(a, b - 1) + [One(Number(b))] else [One(Number(a))]
  }

  /** A range stands for exactly the operations of its columns written out. */
  lemma {:induction false} RangeIsList(ops: seq<ParsedOp>, op: Op, a: nat, b: nat)
    ensures ExpandedAll(ops, op, [Range(a, b)]) == ExpandedAll(ops, op, Singles(a, b))
    decreases b
  {
    ExpandedOne(ops, op, Range(a, b));
    if a < b {
      ExpandedOne(ops, op, Range(a, b - 1));
      RangeIsList(ops, op, a, b - 1);
      ExpandedSnoc(ops, op, Singles(a, b - 1), One(Number(b)));
      assert ops + Span(op, a, b) == (ops + Span(op, a, b - 1)) + [Plain(op, Number(b))];
    } else {
      ExpandedOne(ops, op, One(Number(a)));
    }
  }

  lemma ExpandedOne(ops: seq<ParsedOp>, op: Op, c: Column)
    ensures ExpandedAll(ops, op, [c]) == Expanded(ops, op, c)
  {
    hide Expanded;
    assert [c][..0] == [];
  }

  lemma ExpandedSnoc(ops: seq<ParsedOp>, op: Op, cs: seq<Column>, c: Column)
    ensures ExpandedAll(ops, op, cs + [c]) == Expanded(ExpandedAll(ops, op, cs), op, c)
  {
    hide Expanded;
    assert (cs + [c])[..|cs|] == cs;
  }

  // --- The engine's configuration ----------------------------------------------------------

  /** Columns are numbered from 1, as the scanner makes sure. */
  ghost predicate Numbered(ops: seq<ParsedOp>) {
    forall i :: 0 <= i < |ops| ==> ops[i].field.Number? && ops[i].field.n > 0 && ops[i].op.Valid()
  }

  /** The operations as the engine uses them. */
  function OpSpecs(ops: seq<ParsedOp>): (specs: seq<GroupBy.OpSpec>)
    requires Numbered(ops)
    ensures |specs| == |ops|
  {
    seq(|ops|, i requires 0 <= i < |ops| => GroupBy.OpSpec(ops[i].op, ops[i].field.n, ops[i].subordinate))
  }

  /** What the parser guarantees is what the engine asks for, exactly if no operation on pairs
      stands alone. */
  lemma ParsedIsConfig(cfg: GroupBy.Config, ops: seq<ParsedOp>)
    requires Numbered(ops) && ops != [] && WellPaired(ops) && cfg.ops == OpSpecs(ops)
    requires cfg.env.separator != NUL && forall i :: 0 <= i < |cfg.groups| ==> cfg.groups[i] > 0
    ensures cfg.Valid() <==> AllPaired(ops)
  {
    hide FieldOps.Op.Valid, FieldOps.Op.Pair;
    forall i | 0 <= i < |ops|
      ensures cfg.ops[i] == GroupBy.OpSpec(ops[i].op, ops[i].field.n, ops[i].subordinate)
    {
    }
    forall i | 0 <= i < |ops| && ops[i].primary
      ensures i > 0 && ops[i - 1].subordinate && ops[i - 1].op == ops[i].op
    {
      assert IsPartner(ops, i);
    }
    if cfg.Valid() {
      forall i | 0 <= i < |ops| && ops[i].op.Pair() ensures ops[i].primary || ops[i].subordinate {
        if !ops[i].subordinate {
          assert cfg.ops[i] == GroupBy.OpSpec(ops[i].op, ops[i].field.n, ops[i].subordinate);
          assert cfg.IsPrimary(i);
          assert ops[i - 1].subordinate == cfg.ops[i - 1].subordinate;
          assert ops[i - 1 + 1].primary;
        }
      }
    }
  }
}
