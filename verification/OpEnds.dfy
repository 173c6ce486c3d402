/** How the text of the operations may end (src/op-scanner.c, src/op-parser.c): never in a blank or
    backslash that is not part of a name. */
module OpEnds {
  import opened Text
  import opened OpScanner
  import opened OpParser

  /** The backslash before position k takes the character there into a name. */
  predicate Taken(s: string, k: nat)
    requires k <= |s|
  {
    k > 0 && s[k - 1] == '\\' && !Taken(s, k - 1)
  }

  /** The text ends in a blank or a backslash that is not part of a name. */
  predicate Dangling(s: string) {
    s != "" && !Taken(s, |s| - 1) && (IsSpace(s[|s| - 1]) || s[|s| - 1] == '\\')
  }

  /** A token may start at p, and there is text left. */
  predicate Open(s: string, p: nat) {
    p < |s| && !Taken(s, p)
  }

  /** The token l leaves text to be read. */
  predicate LeavesText(s: string, l: Lexeme) {
    l.Lexeme? && !l.tok.End? ==> Open(s, l.next)
  }

  // --- Tokens ------------------------------------------------------------------------------

  /** A token whose last character is neither a blank nor a backslash. */
  lemma EndsOpen(s: string, e: nat)
    requires Dangling(s) && 0 < e <= |s| && !IsSpace(s[e - 1]) && s[e - 1] != '\\'
    ensures Open(s, e)
  {
  }

  lemma FloatLast(s: string, point: nat)
    requires point < |s| && s[point] == '.'
    ensures var e := FloatEnd(s, point); IsDigit(s[e - 1]) || s[e - 1] == '.'
  {
    hide Scan;
  }

  lemma NumberOpen(s: string, p: nat)
    requires Dangling(s) && p < |s| && IsDigit(s[p])
    ensures LeavesText(s, NumberAt(s, p))
  {
    var l := NumberAt(s, p);
    var e := Scan(s, p, Digit);
    if l.Lexeme? {
      if e < |s| && s[e] == '.' {
        FloatLast(s, e);
      }
      hide FloatEnd, Scan;
      EndsOpen(s, l.next);
    }
  }

  lemma {:induction false} NameOpen(s: string, v: nat)
    requires Dangling(s) && Open(s, v)
    ensures var r := NameFrom(s, v); r.Some? ==> Open(s, r.value.1)
    decreases |s| - v
  {
    if IsNameChar(s[v]) {
      EndsOpen(s, v + 1);
      NameOpen(s, v + 1);
    } else if s[v] == '\\' && v + 1 < |s| {
      assert Taken(s, v + 1) && v + 1 != |s| - 1;
      NameOpen(s, v + 2);
    }
  }

  lemma TokenOpen(s: string, p: nat, keep: bool)
    requires Dangling(s) && Open(s, p)
    ensures LeavesText(s, Scanned(s, p, keep))
    ensures var l := Scanned(s, p, keep); l.Lexeme? && l.tok.End? ==> keep
  {
    var q := Scan(s, p, Space);
    assert q > p ==> Space.Has(s[q - 1]);
    if q < |s| {
      hide Scan, NumberAt, NameAt;
      if IsDigit(s[q]) {
        NumberOpen(s, q);
      } else if s[q] == ',' || s[q] == '-' || s[q] == ':' {
        EndsOpen(s, q + 1);
      } else {
        NameTokenOpen(s, q);
      }
    }
  }

  lemma NameTokenOpen(s: string, p: nat)
    requires Dangling(s) && Open(s, p)
    ensures LeavesText(s, NameAt(s, p))
  {
    NameOpen(s, p);
    hide NameFrom;
  }

  // --- Columns -----------------------------------------------------------------------------

  lemma SimpleOpen(s: string, l: Lexeme)
    requires LeavesText(s, l)
    ensures var r := SimpleFrom(l); r.Some? ==> Open(s, r.value.1)
  {
    hide Open;
  }

  lemma RangeOpen(s: string, x: FieldRef, p: nat)
    requires Dangling(s) && Open(s, p)
    ensures var r := RangeAt(s, x, p); r.Some? ==> Open(s, r.value.1)
  {
    TokenOpen(s, p, false);
    SimpleOpen(s, Scanned(s, p, false));
    hide Scanned, SimpleFrom, Taken, Dangling;
  }

  lemma PairOpen(s: string, x: FieldRef, p: nat)
    requires Dangling(s) && Open(s, p)
    ensures var r := PairAt(s, x, p); r.Some? ==> Open(s, r.value.1)
  {
    TokenOpen(s, p, false);
    SimpleOpen(s, Scanned(s, p, false));
    hide Scanned, SimpleFrom, Taken, Dangling, RangeAt;
    var y := SimpleFrom(Scanned(s, p, false));
    if y.Some? {
      var q := y.value.1;
      TokenOpen(s, q, false);
      var m := Scanned(s, q, false);
      if m.Lexeme? && m.tok.Dash? {
        RangeOpen(s, x, m.next);
      }
    }
  }

  lemma ColumnOpen(s: string, l: Lexeme)
    requires Dangling(s) && Within(s, l) && LeavesText(s, l)
    ensures var r := ColumnFrom(s, l); r.Some? ==> Open(s, r.value.1)
  {
    SimpleOpen(s, l);
    hide Scanned, SimpleFrom, Taken, Dangling, RangeAt, PairAt;
    var x := SimpleFrom(l);
    if x.Some? {
      TokenOpen(s, x.value.1, false);
      var m := Scanned(s, x.value.1, false);
      if m.Lexeme? && m.tok.Colons? {
        PairOpen(s, x.value.0, m.next);
      } else if m.Lexeme? && m.tok.Dash? {
        RangeOpen(s, x.value.0, m.next);
      }
    }
  }

  lemma {:induction false} MoreOpen(s: string, cs: seq<Column>, p: nat)
    requires Dangling(s) && Open(s, p)
    ensures var r := MoreColumns(s, cs, p); r.Some? ==> Open(s, r.value.1)
    decreases |s| - p
  {
    TokenOpen(s, p, false);
    hide Scanned, Taken, Dangling, ColumnFrom;
    var l := Scanned(s, p, false);
    if l.Lexeme? && l.tok.Comma? {
      TokenOpen(s, l.next, false);
      ColumnOpen(s, Scanned(s, l.next, false));
      var c := ColumnFrom(s, Scanned(s, l.next, false));
      if c.Some? {
        MoreOpen(s, cs + [c.value.0], c.value.1);
      }
    }
  }

  lemma ColumnsOpen(s: string, l: Lexeme)
    requires Dangling(s) && Within(s, l) && LeavesText(s, l)
    ensures var r := ColumnsFrom(s, l); r.Some? ==> Open(s, r.value.1)
  {
    ColumnOpen(s, l);
    hide Scanned, Taken, Dangling, ColumnFrom, MoreColumns;
    var c := ColumnFrom(s, l);
    if c.Some? {
      MoreOpen(s, [c.value.0], c.value.1);
    }
  }

  // --- Operations --------------------------------------------------------------------------

  lemma {:induction false} ParamsOpen(s: string, name: string, ps: seq<Param>, p: nat)
    requires Dangling(s) && Open(s, p)
    ensures var r := ParamsAt(s, name, ps, p); r.Some? ==> LeavesText(s, r.value.1)
    decreases |s| - p
  {
    TokenOpen(s, p, true);
    hide Scanned, Taken, Dangling;
    var l := Scanned(s, p, true);
    if l.Lexeme? && l.tok.Whitespace? {
      TokenOpen(s, l.next, false);
    } else if l.Lexeme? && l.tok.Colons? {
      TokenOpen(s, l.next, true);
      var v := Scanned(s, l.next, true);
      var x := ParamOf(name, v);
      if x.Some? {
        ParamsOpen(s, name, ps + [x.value], v.next);
      }
    }
  }

  lemma OperationOpen(s: string, table: OpTable, ops: seq<ParsedOp>, l: Lexeme)
    requires Dangling(s) && Within(s, l) && LeavesText(s, l) && (l.Lexeme? ==> !l.tok.End?)
    ensures var r := OperationFrom(s, table, ops, l); r.Some? ==> Open(s, r.value.1)
  {
    hide Scanned, Taken, Dangling, ParamsAt, ColumnsFrom, Suits, ExpandedAll;
    if l.Lexeme? {
      ParamsOpen(s, l.text, [], l.next);
      var ps := ParamsAt(s, l.text, [], l.next);
      if ps.Some? {
        ColumnsOpen(s, ps.value.1);
      }
    }
  }

  lemma {:induction false} NeverParsed(s: string, table: OpTable, ops: seq<ParsedOp>, p: nat)
    requires Dangling(s) && Open(s, p)
    ensures OperationsAt(s, table, ops, p) == None
    decreases |s| - p
  {
    TokenOpen(s, p, false);
    hide Scanned, Taken, Dangling, OperationFrom;
    var l := Scanned(s, p, false);
    if l.Lexeme? {
      OperationOpen(s, table, ops, l);
      var r := OperationFrom(s, table, ops, l);
      if r.Some? {
        NeverParsed(s, table, r.value.0, r.value.1);
      }
    }
  }

  /** No text that ends in a blank or backslash outside a name is accepted, whatever the
      operations are. */
  lemma DanglingRefused(s: string, table: OpTable)
    requires Dangling(s)
    ensures OperationsAt(s, table, [], 0) == None
  {
    hide OperationsAt;
    NeverParsed(s, table, [], 0);
  }

  lemma {:induction false} TakenBefore(s: string, t: string, k: nat)
    requires k <= |s|
    ensures Taken(s + t, k) == Taken(s, k)
  {
    if k > 0 {
      TakenBefore(s, t, k - 1);
      assert (s + t)[k - 1] == s[k - 1];
    }
  }

  /** Every text that is accepted is refused with a blank after it. */
  lemma TrailingBlankRefused(s: string, table: OpTable, blank: char)
    requires IsSpace(blank) && OperationsAt(s, table, [], 0).Some?
    ensures OperationsAt(s + [blank], table, [], 0) == None
  {
    hide OperationsAt;
    var t := s + [blank];
    TakenBefore(s, [blank], |s|);
    if Taken(s, |s|) {
      DanglingRefused(s, table);
    } else {
      DanglingRefused(t, table);
    }
  }
}
