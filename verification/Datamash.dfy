/** The streaming group-by engine of src/datamash.c: process_file and what it calls. */
module Datamash {
  import opened Text
  import opened FieldOps
  import opened GroupBy
  import TextLines
  import StringVector

  /** The state of process_file: the field operations, the group counter and the output so far. */
  class Engine {
    const cfg: Config
    const delim: Option<char>
    const skipComments: bool
    const ops: seq<FieldOp>
    var linesInGroup: nat
    var out: seq<Token>

    /** The operations are the configured ones, and a pair's primary points at its subordinate. */
    ghost predicate Linked()
      ensures Linked() ==> cfg.Valid() && |ops| == |cfg.ops|
    {
      && cfg.Valid() && |ops| == |cfg.ops|
      && (forall i, j :: 0 <= i < j < |ops| ==> ops[i] != ops[j])
      && (forall i :: 0 <= i < |ops| ==> Matches(cfg, ops, i))
    }

    ghost predicate OpsValid()
      reads ops
    {
      forall i :: 0 <= i < |ops| ==> ops[i].Valid()
    }

    /** The accumulators hold exactly the fields of the lines g. */
    ghost predicate Holds(g: seq<Line>)
      requires Linked() && OpsValid()
      reads ops
    {
      forall i :: 0 <= i < |ops| ==> ops[i].View() == AccOf(cfg, g, i)
    }

    /** The state main hands to process_file. */
    constructor (cfg: Config, delim: Option<char>, skipComments: bool)
      requires cfg.Valid()
      ensures this.cfg == cfg && this.delim == delim && this.skipComments == skipComments
      ensures Linked() && OpsValid() && Holds([]) && linesInGroup == 0 && out == []
    {
      var made := MakeOps(cfg);
      this.cfg, this.delim, this.skipComments := cfg, delim, skipComments;
      ops, linesInGroup, out := made, 0, [];
      new;
      hide AccOf, Config.Valid, FieldOp.Valid;
      forall j | 0 <= j < |ops| ensures ops[j].View() == AccOf(cfg, [], j) {
        AccEmpty(cfg, j);
      }
    }

    /** The operations of a configuration, linked as create_field_ops and parse_operations do. */
    static method MakeOps(cfg: Config) returns (ops: seq<FieldOp>)
      requires cfg.Valid()
      ensures |ops| == |cfg.ops| && forall i, j :: 0 <= i < j < |ops| ==> ops[i] != ops[j]
      ensures forall i :: 0 <= i < |ops| ==> fresh(ops[i]) && Matches(cfg, ops, i)
      ensures forall i :: 0 <= i < |ops| ==> ops[i].Valid() && ops[i].View() == EMPTY
    {
      ops := [];
      hide FieldOp.Valid, FieldOp.View;
      while |ops| < |cfg.ops|
        invariant |ops| <= |cfg.ops| && forall i, j :: 0 <= i < j < |ops| ==> ops[i] != ops[j]
        invariant forall i :: 0 <= i < |ops| ==> fresh(ops[i]) && Matches(cfg, ops, i)
        invariant forall i :: 0 <= i < |ops| ==> ops[i].Valid() && ops[i].View() == EMPTY
      {
        var i := |ops|;
        var s := cfg.ops[i];
        var op := new FieldOp(s.op, s.field, s.subordinate, if cfg.IsPrimary(i) then ops[i - 1] else null);
        assert forall j :: 0 <= j < i ==> (ops + [op])[j] == ops[j];
        ops := ops + [op];
      }
    }

    static ghost predicate Matches(cfg: Config, ops: seq<FieldOp>, i: nat)
      requires cfg.Valid() && |ops| <= |cfg.ops| && i < |ops|
    {
      && ops[i].op == cfg.ops[i].op && ops[i].field == cfg.ops[i].field
      && ops[i].subordinate == cfg.ops[i].subordinate
      && (cfg.IsPrimary(i) ==> ops[i].subordinateOp == ops[i - 1])
    }

    /** reset_field_ops: nothing of the finished group is left in the accumulators. */
    method ResetFieldOps()
      requires Linked() && OpsValid()
      modifies ops
      ensures OpsValid() && Holds([])
    {
      hide AccOf, Linked, FieldOp.Valid, FieldOp.View;
      var i := 0;
      while i < |ops|
        invariant 0 <= i <= |ops| && OpsValid()
        invariant forall j :: 0 <= j < i ==> ops[j].View() == EMPTY
      {
        DistinctFrom(i);
        ops[i].Reset();
        i := i + 1;
      }
      forall j | 0 <= j < |ops| ensures ops[j].View() == AccOf(cfg, [], j) {
        AccEmpty(cfg, j);
      }
    }

    lemma DistinctFrom(i: nat)
      requires Linked() && i < |ops|
      ensures Matches(cfg, ops, i)
      ensures cfg.IsPrimary(i) ==> i > 0 && ops[i - 1].subordinate
      ensures forall j :: 0 <= j < |ops| && j != i ==> ops[j] != ops[i]
    {
      if cfg.IsPrimary(i) {
        assert Matches(cfg, ops, i - 1);
      }
    }

    /** different: whether two lines have different keys; None is the fatal error of a missing column. */
    method Different(a: TextLines.LineRecord, b: TextLines.LineRecord) returns (r: Option<bool>)
      requires Linked() && a.Valid() && b.Valid()
      ensures r == Differs(cfg, a.Contents(), b.Contents(), 0)
    {
      hide StringVector.Same, Linked, Differs, Config.Valid;
      ghost var la, lb := a.Contents(), b.Contents();
      KeysEqual(cfg, la, lb);
      var i := 0;
      while i < |cfg.groups|
        invariant 0 <= i <= |cfg.groups| && Differs(cfg, la, lb, 0) == Differs(cfg, la, lb, i)
      {
        DiffersStep(cfg, la, lb, i);
        var c := cfg.groups[i];
        var s1 := a.GetField(c);
        if s1 == None {
          return None;
        }
        var s2 := b.GetField(c);
        if s2 == None {
          return None;
        }
        if |s1.value| != |s2.value| {
          return Some(true);
        }
        if !StringVector.Same(s1.value, s2.value, cfg.env.caseSensitive) {
          return Some(true);
        }
        i := i + 1;
      }
      r := Some(false);
    }

    static lemma KeysEqual(cfg: Config, a: Line, b: Line)
      requires cfg.Valid()
      ensures Differs(cfg, a, b, |cfg.groups|) == Some(false)
    {
    }

    /** One round of the loop. */
    static lemma DiffersStep(cfg: Config, a: Line, b: Line, i: nat)
      requires cfg.Valid() && i < |cfg.groups|
      ensures var c := cfg.groups[i];
        && c > 0 && (c > |a| || c > |b| ==> Differs(cfg, a, b, i) == None)
        && (c <= |a| && c <= |b| ==>
              var (x, y, cs) := (a[c - 1], b[c - 1], cfg.env.caseSensitive);
              && (|x| != |y| || !StringVector.Same(x, y, cs) ==> Differs(cfg, a, b, i) == Some(true))
              && (|x| == |y| && StringVector.Same(x, y, cs) ==>
                    Differs(cfg, a, b, i) == Differs(cfg, a, b, i + 1)))
    {
      var c := cfg.groups[i];
      assert c > 0;
      if c <= |a| && c <= |b| && |a[c - 1]| != |b[c - 1]| {
        KeyLength(a[c - 1], b[c - 1], cfg.env.caseSensitive);
      }
      hide StringVector.Same;
    }

    /** process_line: hand every operation its field; keep tells whether the line should represent
        the group. */
    method ProcessLine(rec: TextLines.LineRecord, ghost g: seq<Line>) returns (ok: bool, keep: bool)
      requires Linked() && OpsValid() && rec.Valid() && Holds(g)
      requires StringVector.NulFree(rec.Contents())
      modifies ops
      ensures Linked() && OpsValid()
      ensures ok <==> LineOk(cfg, rec.Contents())
      ensures ok ==> Holds(g + [rec.Contents()])
      ensures ok ==> (keep <==> exists i :: 0 <= i < |cfg.ops| && KeepsLine(cfg, AccOf(cfg, g, i), rec.Contents(), i))
    {
      hide AccOf, Linked, FieldOp.Valid, FieldOp.View, OpOk, KeepsLine;
      ghost var l := rec.Contents();
      keep := false;
      var i := 0;
      while i < |ops|
        invariant 0 <= i <= |ops| && OpsValid()
        invariant forall j :: 0 <= j < i ==> OpOk(cfg, l, j)
        invariant forall j :: 0 <= j < i ==> ops[j].View() == AccOf(cfg, g + [l], j)
        invariant forall j :: i <= j < |ops| ==> ops[j].View() == AccOf(cfg, g, j)
        invariant keep <==> exists j :: 0 <= j < i && KeepsLine(cfg, AccOf(cfg, g, j), l, j)
      {
        DistinctFrom(i);
        var good, kept := CollectField(rec, i, g);
        if !good {
          assert !OpOk(cfg, l, i);
          return false, false;
        }
        keep := keep || kept;
        i := i + 1;
      }
      ok := true;
    }

    /** One round of process_line. */
    method CollectField(rec: TextLines.LineRecord, i: nat, ghost g: seq<Line>) returns (ok: bool, kept: bool)
      requires Linked() && i < |ops| && Matches(cfg, ops, i) && rec.Valid()
      requires ops[i].Valid() && ops[i].View() == AccOf(cfg, g, i)
      requires StringVector.NulFree(rec.Contents())
      modifies ops[i]
      ensures ops[i].Valid()
      ensures ok <==> OpOk(cfg, rec.Contents(), i)
      ensures ok ==> ops[i].View() == AccOf(cfg, g + [rec.Contents()], i)
      ensures ok ==> (kept <==> KeepsLine(cfg, AccOf(cfg, g, i), rec.Contents(), i))
    {
      var text := rec.GetField(ops[i].field);
      if text == None {
        return false, false;
      }
      var rc := ops[i].Collect(cfg.env, text.value);
      if rc == INVALID_NUMBER {
        return false, false;
      }
      AccSnoc(cfg, g, rec.Contents(), i);
      ok, kept := true, rc == KEEP_LINE;
    }

    /** print_input_line: false when a key column is missing. */
    method PrintInputLine(rec: TextLines.LineRecord) returns (ok: bool)
      requires Linked() && rec.Valid()
      modifies this`out
      ensures ok <==> LineTokens(cfg, rec.Contents()).Some?
      ensures ok ==> out == old(out) + LineTokens(cfg, rec.Contents()).value
    {
      if cfg.full {
        PrintAllFields(rec);
        ok := true;
      } else {
        ok := PrintKeys(rec);
      }
    }

    method PrintAllFields(rec: TextLines.LineRecord)
      requires rec.Valid()
      modifies this`out
      ensures out == old(out) + FullTokens(rec.Contents())
    {
      ghost var l := rec.Contents();
      var i := 1;
      assert l[0..] == l;
      while i <= rec.numFields
        invariant 1 <= i <= rec.numFields + 1
        invariant old(out) + FullTokens(l) == out + FullTokens(l[i - 1..])
      {
        var s := rec.GetField(i);
        FullTokensStep(l, i - 1);
        assert out + ([Text(l[i - 1]), Tab] + FullTokens(l[i..])) == out + [Text(l[i - 1]), Tab] + FullTokens(l[i..]);
        out := out + [Text(s.value), Tab];
        i := i + 1;
      }
    }

    method PrintKeys(rec: TextLines.LineRecord) returns (ok: bool)
      requires Linked() && rec.Valid()
      modifies this`out
      ensures ok <==> KeyTokens(cfg, rec.Contents(), 0).Some?
      ensures ok ==> out == old(out) + KeyTokens(cfg, rec.Contents(), 0).value
    {
      ghost var l := rec.Contents();
      ghost var printed: seq<Token> := [];
      PrependNothing(KeyTokens(cfg, l, 0));
      var i := 0;
      while i < |cfg.groups|
        invariant 0 <= i <= |cfg.groups|
        invariant out == old(out) + printed
        invariant KeyTokens(cfg, l, 0) == Prepend(printed, KeyTokens(cfg, l, i))
      {
        var s := rec.GetField(cfg.groups[i]);
        if s == None {
          return false;
        }
        ghost var more := [Text(s.value), Tab];
        PrependTwice(printed, more, KeyTokens(cfg, l, i + 1));
        out := out + [Text(s.value), Tab];
        printed := printed + more;
        i := i + 1;
      }
      ok := true;
    }

    /** summarize_field_ops: false is the fatal error of a pair with uneven columns. */
    method SummarizeFieldOps(ghost g: seq<Line>) returns (ok: bool)
      requires Linked() && OpsValid() && Holds(g)
      modifies this`out, ops
      ensures OpsValid()
      ensures ok <==> ResultTokens(cfg, g, 0).Some?
      ensures ok ==> out == old(out) + ResultTokens(cfg, g, 0).value
    {
      hide AccOf, Linked, FieldOp.Valid, FieldOp.View, ResultOf, ResultTokens;
      ghost var printed: seq<Token> := [];
      PrependNothing(ResultTokens(cfg, g, 0));
      var i := 0;
      while i < |ops|
        invariant 0 <= i <= |ops| && OpsValid()
        invariant forall j :: 0 <= j < |ops| && (j >= i || ops[j].subordinate) ==> ops[j].View() == AccOf(cfg, g, j)
        invariant out == old(out) + printed
        invariant ResultTokens(cfg, g, 0) == Prepend(printed, ResultTokens(cfg, g, i))
      {
        DistinctFrom(i);
        ResultTokensStep(cfg, g, i);
        if !ops[i].subordinate {
          var cell := SummarizeOne(i, g);
          if cell == None {
            return false;
          }
          ghost var more := [Value(cell.value)] + if i != |ops| - 1 then [Tab] else [];
          PrependTwice(printed, more, ResultTokens(cfg, g, i + 1));
          out := out + [Value(cell.value)];
          if i != |ops| - 1 {
            out := out + [Tab];
          }
          printed := printed + more;
        }
        i := i + 1;
      }
      ResultTokensEnd(cfg, g);
      out := out + [Eol];
      ok := true;
    }

    /** One round of summarize_field_ops. */
    method SummarizeOne(i: nat, ghost g: seq<Line>) returns (cell: Option<Cell>)
      requires Linked() && OpsValid() && i < |ops| && Matches(cfg, ops, i) && !ops[i].subordinate
      requires ops[i].View() == AccOf(cfg, g, i)
      requires cfg.IsPrimary(i) ==> i > 0 && ops[i - 1].subordinate && ops[i - 1].View() == AccOf(cfg, g, i - 1)
      modifies ops[i]
      ensures ops[i].Valid()
      ensures cell == ResultOf(cfg, g, i)
    {
      hide AccOf;
      cell := ops[i].Summarize(cfg.env);
    }

    /** process_group: print the finished group, if it has lines, and start over. */
    method ProcessGroup(rep: TextLines.LineRecord, ghost g: seq<Line>) returns (ok: bool)
      requires Linked() && OpsValid() && Holds(g) && linesInGroup == |g| && rep.Valid()
      requires LinesOk(cfg, g) && (g != [] ==> rep.Contents() == Representative(cfg, g))
      modifies this`out, this`linesInGroup, ops
      ensures OpsValid()
      ensures ok <==> (g == [] || GroupTokens(cfg, g).Some?)
      ensures ok ==> Holds([]) && linesInGroup == 0
      ensures ok ==> out == if g == [] then old(out) else old(out) + GroupTokens(cfg, g).value
    {
      hide Linked, OpsValid, Holds, LinesOk, Representative, ResultTokens, LineTokens;
      ok := true;
      if linesInGroup > 0 {
        ok := PrintInputLine(rep);
        if !ok {
          return;
        }
        assert OpsValid() && Holds(g);
        ok := SummarizeFieldOps(g);
        if !ok {
          return;
        }
      }
      linesInGroup := 0;
      ResetFieldOps();
    }

    /** Between two lines: the closed groups are printed, the accumulators hold the open group g,
        and rep is its representative. The recorded length of rep is zero exactly when no group
        is open, which is what process_file relies on. */
    ghost predicate Between(closed: seq<seq<Line>>, g: seq<Line>, rep: TextLines.LineRecord, start: seq<Token>)
      requires Linked()
      reads this, ops, rep
    {
      && OpsValid() && rep.Valid()
      && RunsOk(cfg, closed) && LinesOk(cfg, g)
      && out == start + Records(cfg, closed)
      && Holds(g) && linesInGroup == |g|
      && (rep.length == 0 <==> g == [])
      && (g != [] ==> rep.Contents() == Representative(cfg, g))
    }

    /** Is the line the first of a new group? The guard of the loop in process_file. */
    method StartsGroup(thisline: TextLines.LineRecord, rep: TextLines.LineRecord, ghost g: seq<Line>)
      returns (r: Option<bool>)
      requires Linked() && thisline.Valid() && rep.Valid()
      requires rep.length == 0 <==> g == []
      requires g != [] ==> Unbroken(cfg, g) && LinesOk(cfg, g) && rep.Contents() == Representative(cfg, g)
      ensures r == if g == [] then Some(true) else Breaks(cfg, g[|g| - 1], thisline.Contents())
    {
      hide Unbroken, LinesOk, Representative, Differs;
      if |cfg.groups| > 0 || cfg.lineMode {
        if rep.length == 0 || cfg.lineMode {
          return Some(true);
        }
        CompareWithRepresentative(cfg, g, rep.Contents(), thisline.Contents());
        r := Different(thisline, rep);
      } else {
        NoKeys(cfg, thisline.Contents());
        r := Some(rep.length == 0);
      }
    }

    lemma NoKeys(cfg: Config, l: Line)
      requires cfg.Valid() && cfg.groups == []
      ensures forall a: Line :: Differs(cfg, l, a, 0) == Some(false)
    {
    }

    /** The first half of a round of the loop in process_file: close the open group if the line
        starts a new one. */
    method CloseGroup(thisline: TextLines.LineRecord, rep: TextLines.LineRecord,
                      ghost closed: seq<seq<Line>>, ghost g: seq<Line>, ghost start: seq<Token>)
      returns (ok: bool, newGroup: bool)
      requires Linked() && Between(closed, g, rep, start) && thisline.Valid() && thisline != rep
      requires g != [] ==> Unbroken(cfg, g)
      modifies this`out, this`linesInGroup, ops, rep`length
      ensures rep.Valid()
      ensures var b := if g == [] then Some(true) else Breaks(cfg, g[|g| - 1], thisline.Contents());
        && (ok <==> b.Some? && (g != [] && b == Some(true) ==> GroupTokens(cfg, g).Some?))
        && (ok ==> b == Some(newGroup))
      ensures ok ==> Between(if newGroup && g != [] then closed + [g] else closed, if newGroup then [] else g, rep, start)
    {
      hide Linked, OpsValid, Holds, LinesOk, LineOk, Representative, GroupTokens, Records, Breaks, Unbroken;
      var r := StartsGroup(thisline, rep, g);
      if r == None {
        return false, false;
      }
      ok, newGroup := true, r.value;
      if newGroup && (|cfg.groups| > 0 || cfg.lineMode) {
        ok := ProcessGroup(rep, g);
        if !ok {
          return;
        }
        rep.length := 0;
        if g != [] {
          RecordsSnoc(cfg, closed, g);
        }
        LinesOkEmpty(cfg);
      } else if newGroup {
        OnlyFirstIsNew(thisline.Contents(), g);
      }
    }

    lemma OnlyFirstIsNew(l: Line, g: seq<Line>)
      requires Linked() && |cfg.groups| == 0 && !cfg.lineMode
      requires (if g == [] then Some(true) else Breaks(cfg, g[|g| - 1], l)) == Some(true)
      ensures g == []
    {
    }

    /** The second half: collect the line, and let it represent its group if it is the first one
        or an operation asks for it. */
    method TakeLine(thisline: TextLines.LineRecord, rep: TextLines.LineRecord, newGroup: bool,
                    ghost closed: seq<seq<Line>>, ghost g: seq<Line>, ghost start: seq<Token>)
      returns (ok: bool, swap: bool)
      requires Linked() && Between(closed, g, rep, start) && (newGroup <==> g == [])
      requires thisline.Valid() && StringVector.NulFree(thisline.Contents())
      requires thisline.length == 0 ==> thisline.Contents() == []
      modifies this`linesInGroup, ops
      ensures ok <==> LineOk(cfg, thisline.Contents())
      ensures ok ==> Between(closed, g + [thisline.Contents()], if swap then thisline else rep, start)
    {
      hide Linked, OpsValid, Holds, LineOk, Representative, Records, RunsOk, KeepsLine;
      ghost var l := thisline.Contents();
      linesInGroup := linesInGroup + 1;
      var keep;
      ok, keep := ProcessLine(thisline, g);
      swap := newGroup || keep;
      if ok {
        EmptyLineFails(cfg, l);
        assert LinesOk(cfg, g + [l]);
        RepresentativeSnoc(cfg, g, l);
      }
    }

    /** Read the next data line, line k of the input. */
    method ReadLine(rec: TextLines.LineRecord, input: seq<string>, at: nat, ghost all: seq<Line>, ghost k: nat)
      returns (more: bool, next: nat)
      requires at <= |input| && rec.Valid() && StringVector.NulFree(input) && k <= |all|
      requires TextLines.LinesOf(TextLines.DataLines(input[at..], skipComments), delim) == all[k..]
      modifies rec
      ensures rec.Valid() && at <= next <= |input|
      ensures more <==> k < |all|
      ensures more ==> at < next && rec.Contents() == all[k]
      ensures more ==> StringVector.NulFree(all[k]) && (rec.length == 0 ==> all[k] == [])
      ensures more ==> TextLines.LinesOf(TextLines.DataLines(input[next..], skipComments), delim) == all[k + 1..]
    {
      hide TextLines.DataLines, TextLines.Split, TextLines.LinesOf;
      more, next := rec.ReadNext(input, at, delim, skipComments, all[k..]);
      if more {
        DataLineClean(input, at, skipComments, rec.buffer, delim);
      }
    }

    /** One round of the loop in process_file, on line k. */
    method ProcessOne(thisline: TextLines.LineRecord, rep: TextLines.LineRecord,
                      ghost all: seq<Line>, ghost k: nat, ghost start: seq<Token>)
      returns (ok: bool, swap: bool)
      requires Linked() && k < |all| && FineSoFar(cfg, all, k)
      requires Between(Closed(Runs(cfg, all[..k])), Open(Runs(cfg, all[..k])), rep, start)
      requires thisline != rep && thisline.Valid() && thisline.Contents() == all[k]
      requires StringVector.NulFree(all[k]) && (thisline.length == 0 ==> all[k] == [])
      modifies this`out, this`linesInGroup, ops, rep`length
      ensures rep.Valid()
      ensures !ok ==> !Succeeds(cfg, all)
      ensures ok ==> FineSoFar(cfg, all, k + 1)
      ensures ok ==> Between(Closed(Runs(cfg, all[..k + 1])), Open(Runs(cfg, all[..k + 1])),
                             if swap then thisline else rep, start)
    {
      hide Linked, OpsValid, Holds, Runs, Breaks, Unbroken, LineOk, LinesOk, GroupTokens, Config.Valid, Records, FineSoFar, Representative, RunsOk, Succeeds;
      ghost var ls := all[..k];
      ghost var closed, g := Closed(Runs(cfg, ls)), Open(Runs(cfg, ls));
      if ls != [] {
        OpenRun(cfg, ls);
      } else {
        assert Runs(cfg, ls) == [];
      }
      var newGroup;
      ok, newGroup := CloseGroup(thisline, rep, closed, g, start);
      if !ok {
        FailsAt(cfg, all, k);
        return false, false;
      }
      ok, swap := TakeLine(thisline, rep, newGroup, if newGroup && g != [] then closed + [g] else closed,
                           if newGroup then [] else g, start);
      if !ok {
        FailsAt(cfg, all, k);
        return;
      }
      FineStep(cfg, all, k);
      OpenRunStep(cfg, ls, all[k]);
      assert all[..k + 1] == ls + [all[k]] && [] + [all[k]] == [all[k]];
    }

    /** process_file: the streaming loop succeeds exactly on the inputs whose batch meaning is
        defined, and then prints one record per maximal run of lines with equal keys, in order. */
    method ProcessFile(input: seq<string>) returns (ok: bool)
      requires Linked() && OpsValid() && Holds([]) && linesInGroup == 0
      requires StringVector.NulFree(input)
      modifies this, ops
      ensures var all := TextLines.LinesOf(TextLines.DataLines(input, skipComments), delim);
        && (ok <==> Succeeds(cfg, all))
        && (ok ==> RunsOk(cfg, Runs(cfg, all)) && out == old(out) + Records(cfg, Runs(cfg, all)))
    {
      hide Linked, OpsValid, Holds, Between, Runs, Breaks, LineOk, Prints, Config.Valid, Records, FineSoFar, RunsOk, Succeeds;
      ghost var all := TextLines.LinesOf(TextLines.DataLines(input, skipComments), delim);
      ghost var start := out;
      ghost var k := 0;
      var thisline := new TextLines.LineRecord();
      var rep := new TextLines.LineRecord();
      var at := 0;
      assert input[0..] == input && all[0..] == all && all[..0] == [];
      StartBetween(rep, start);
      FineAtStart(cfg, all);
      while true
        invariant at <= |input| && k <= |all|
        invariant TextLines.LinesOf(TextLines.DataLines(input[at..], skipComments), delim) == all[k..]
        invariant fresh(thisline) && fresh(rep) && thisline != rep && thisline.Valid()
        invariant Linked() && FineSoFar(cfg, all, k)
        invariant Between(Closed(Runs(cfg, all[..k])), Open(Runs(cfg, all[..k])), rep, start)
        decreases |input| - at
      {
        var more;
        more, at := ReadLine(thisline, input, at, all, k);
        if !more {
          break;
        }
        var swap;
        ok, swap := ProcessOne(thisline, rep, all, k, start);
        if !ok {
          return;
        }
        if swap {
          thisline, rep := rep, thisline;
        }
        k := k + 1;
      }
      assert all[..k] == all;
      ok := FinishFile(rep, all, start);
    }

    lemma StartBetween(rep: TextLines.LineRecord, start: seq<Token>)
      requires Linked() && OpsValid() && Holds([]) && linesInGroup == 0 && out == start
      requires rep.Valid() && rep.length == 0
      ensures Between(Closed(Runs(cfg, [])), Open(Runs(cfg, [])), rep, start)
    {
    }

    /** The call of process_group after the loop. */
    method FinishFile(rep: TextLines.LineRecord, ghost all: seq<Line>, ghost start: seq<Token>) returns (ok: bool)
      requires Linked() && FineSoFar(cfg, all, |all|)
      requires Between(Closed(Runs(cfg, all)), Open(Runs(cfg, all)), rep, start)
      modifies this`out, this`linesInGroup, ops
      ensures ok <==> Succeeds(cfg, all)
      ensures ok ==> RunsOk(cfg, Runs(cfg, all)) && out == start + Records(cfg, Runs(cfg, all))
    {
      hide Linked, OpsValid, Holds, Runs, Breaks, LinesOk, GroupTokens, Config.Valid, Records, FineSoFar, Representative, Succeeds;
      ghost var g := Open(Runs(cfg, all));
      FineAtEnd(cfg, all);
      ok := ProcessGroup(rep, g);
      if all != [] {
        OpenRun(cfg, all);
        if ok {
          RecordsSnoc(cfg, Closed(Runs(cfg, all)), g);
        }
      }
    }
  }

  lemma KeyLength(a: string, b: string, cs: bool)
    ensures StringVector.Same(a, b, cs) ==> |a| == |b|
  {
  }

  lemma FullTokensStep(l: Line, i: nat)
    requires i < |l|
    ensures FullTokens(l[i..]) == [Text(l[i]), Tab] + FullTokens(l[i + 1..])
  {
    assert l[i..][1..] == l[i + 1..];
  }

  lemma PrependNothing(r: Option<seq<Token>>)
    ensures r == Prepend([], r)
  {
    if r.Some? {
      assert [] + r.value == r.value;
    }
  }

  lemma PrependTwice(p: seq<Token>, q: seq<Token>, r: Option<seq<Token>>)
    ensures Prepend(p, Prepend(q, r)) == Prepend(p + q, r)
  {
    if r.Some? {
      assert p + (q + r.value) == (p + q) + r.value;
    }
  }

  lemma ResultTokensStep(cfg: Config, g: seq<Line>, i: nat)
    requires cfg.Valid() && i < |cfg.ops|
    ensures ResultTokens(cfg, g, i)
         == if cfg.ops[i].subordinate then ResultTokens(cfg, g, i + 1)
            else if ResultOf(cfg, g, i) == None then None
            else Prepend([Value(ResultOf(cfg, g, i).value)] + (if i != |cfg.ops| - 1 then [Tab] else []),
                         ResultTokens(cfg, g, i + 1))
  {
  }

  lemma LinesOkEmpty(cfg: Config)
    requires cfg.Valid()
    ensures LinesOk(cfg, [])
  {
  }

  /** A line without fields fails process_line, so a representative never has length zero. */
  lemma EmptyLineFails(cfg: Config, l: Line)
    requires cfg.Valid() && LineOk(cfg, l)
    ensures l != []
  {
    assert OpOk(cfg, l, 0);
  }

  lemma DataLineClean(input: seq<string>, at: nat, skip: bool, s: string, delim: Option<char>)
    requires at <= |input| && StringVector.NulFree(input)
    requires s in TextLines.DataLines(input[at..], skip)
    ensures StringVector.NulFree(TextLines.Split(s, delim))
    ensures s == "" ==> TextLines.Split(s, delim) == []
  {
    TextLines.DataLinesFrom(input[at..], skip);
    assert s in input[at..];
    TextLines.FieldsWithin(s, delim, NUL);
  }

  lemma FineAtStart(cfg: Config, all: seq<Line>)
    requires cfg.Valid()
    ensures FineSoFar(cfg, all, 0)
  {
    assert all[..0] == [];
  }
}
