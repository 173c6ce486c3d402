/** The table datamash prints for an input in crosstab mode: what process_group of src/datamash.c
    hands to the tables of src/crosstab.c, group by group. */
module CrosstabGroups {
  import opened GroupBy
  import opened GroupFacts
  import opened Crosstab
  import FieldOps
  import StringVector
  import T = Text

  /** printf's text for a cell. */
  type Printf = FieldOps.Cell -> string

  /** Two group columns, and a first operation that needs no pair. */
  ghost predicate IsCrosstab(cfg: Config) {
    cfg.Valid() && !cfg.lineMode && |cfg.groups| == 2 && !cfg.ops[0].op.Pair()
  }

  /** The group can be processed: its lines can be read and have both names. */
  ghost predicate Tabulates(cfg: Config, g: seq<Line>)
    requires cfg.Valid()
  {
    g != [] && LinesOk(cfg, g) && ResultOf(cfg, g, 0).Some? && forall l :: l in g ==> HasKeys(cfg, l)
  }

  ghost predicate AllTabulate(cfg: Config, rs: seq<seq<Line>>)
    requires cfg.Valid()
  {
    forall k :: 0 <= k < |rs| ==> Tabulates(cfg, rs[k])
  }

  /** process_group in crosstab mode: the names come from the line that represents the group. */
  function GroupResult(cfg: Config, g: seq<Line>, show: Printf): Result
    requires IsCrosstab(cfg) && Tabulates(cfg, g)
  {
    var l := Representative(cfg, g);
    Result(l[cfg.groups[0] - 1], l[cfg.groups[1] - 1], show(ResultOf(cfg, g, 0).value))
  }

  /** The results of the groups, in order. */
  function Results(cfg: Config, rs: seq<seq<Line>>, show: Printf): (r: seq<Result>)
    requires IsCrosstab(cfg) && AllTabulate(cfg, rs)
    ensures |r| == |rs| && forall k :: 0 <= k < |rs| ==> r[k] == GroupResult(cfg, rs[k], show)
  {
    seq(|rs|, k requires 0 <= k < |rs| => GroupResult(cfg, rs[k], show))
  }

  /** Groups with the same names have the same key. */
  lemma NamesMeanKey(cfg: Config, g: seq<Line>, h: seq<Line>, show: Printf)
    requires IsCrosstab(cfg) && Tabulates(cfg, g) && Tabulates(cfg, h)
    requires SameCell(GroupResult(cfg, g, show), GroupResult(cfg, h, show))
    ensures !Apart(cfg, g, h)
  {
    var (a, b) := (Representative(cfg, g), Representative(cfg, h));
    hide Representative, LinesOk, ResultOf, SameKey;
    EqualNames(cfg, a, b);
  }

  lemma EqualNames(cfg: Config, a: Line, b: Line)
    requires cfg.Valid() && |cfg.groups| == 2 && HasKeys(cfg, a) && HasKeys(cfg, b)
    requires a[cfg.groups[0] - 1] == b[cfg.groups[0] - 1] && a[cfg.groups[1] - 1] == b[cfg.groups[1] - 1]
    ensures SameKey(cfg, a, b)
  {
    hide StringVector.Same;
    assert cfg.groups[0] > 0 && cfg.groups[1] > 0;
    hide Config.Valid;
    SameItself(a[cfg.groups[0] - 1], cfg.env.caseSensitive);
    SameItself(a[cfg.groups[1] - 1], cfg.env.caseSensitive);
  }

  lemma SameItself(s: string, caseSensitive: bool)
    ensures StringVector.Same(s, s, caseSensitive)
  {
  }

  /** If the lines with equal keys are contiguous, no group is lost in the table. */
  lemma AllGroupsShown(cfg: Config, ls: seq<Line>, show: Printf, k: nat)
    requires IsCrosstab(cfg) && AllTabulate(cfg, Runs(cfg, ls)) && Contiguous(cfg, ls) && k < |Runs(cfg, ls)|
    ensures IsShown(Results(cfg, Runs(cfg, ls), show), k)
  {
    var rs := Runs(cfg, ls);
    ContiguousGivesOnce(cfg, ls);
    hide Runs, Contiguous, Config.Valid, SameKey, Apart, FirstData, Tabulates, GroupResult, SameCell;
    var results := Results(cfg, rs, show);
    var i := FirstOfCell(results, k);
    SameCellMeets(results, i, k);
    if i < k {
      NamesMeanKey(cfg, rs[i], rs[k], show);
    } else if k < i {
      NamesMeanKey(cfg, rs[k], rs[i], show);
    }
  }

  lemma SameCellMeets(rs: seq<Result>, i: nat, k: nat)
    requires i < |rs| && k < |rs| && SameCell(rs[i], rs[k])
    ensures SameCell(rs[k], rs[i])
  {
  }

  /** The table of an input whose equal keys are contiguous: for every line, the cell with its row
      and column shows the result over exactly the lines of the input with that key. */
  lemma CellOfLine(cfg: Config, ls: seq<Line>, show: Printf, x: Line)
    requires IsCrosstab(cfg) && AllTabulate(cfg, Runs(cfg, ls)) && Contiguous(cfg, ls) && x in ls
    ensures var g := KeyLines(cfg, ls, x);
      Tabulates(cfg, g)
      && var r := GroupResult(cfg, g, show);
      FirstData(Results(cfg, Runs(cfg, ls), show), r.row, r.col) == T.Some(show(ResultOf(cfg, g, 0).value))
  {
    RunsPartition(cfg, ls);
    var rs := Runs(cfg, ls);
    hide Runs, Contiguous, SameKey, FirstData, Flatten, LinesOk, ResultOf, HasKeys, KeyLines, Config.Valid;
    var k := FlattenIn(rs, x);
    assert Tabulates(cfg, rs[k]);
    GroupIsKeyLines(cfg, ls, k, x);
    AllGroupsShown(cfg, ls, show, k);
  }

  /** With case-sensitive names, the row and column of that cell are the names in the line. */
  lemma NamesOfLine(cfg: Config, ls: seq<Line>, show: Printf, x: Line)
    requires IsCrosstab(cfg) && cfg.env.caseSensitive && HasKeys(cfg, x) && Tabulates(cfg, KeyLines(cfg, ls, x))
    ensures var r := GroupResult(cfg, KeyLines(cfg, ls, x), show);
      r.row == x[cfg.groups[0] - 1] && r.col == x[cfg.groups[1] - 1]
  {
    var g := KeyLines(cfg, ls, x);
    KeyLinesShare(cfg, ls, x, Representative(cfg, g));
    hide KeyLines, Representative, LinesOk, ResultOf;
  }

  lemma {:induction false} KeyLinesShare(cfg: Config, ls: seq<Line>, x: Line, y: Line)
    requires cfg.Valid() && y in KeyLines(cfg, ls, x)
    ensures SameKey(cfg, y, x) && y in ls
  {
    hide SameKey, Config.Valid;
    var n := |ls| - 1;
    if y in KeyLines(cfg, ls[..n], x) {
      KeyLinesShare(cfg, ls[..n], x, y);
    }
  }

  // --- The printed table -------------------------------------------------------------------

  lemma FirstForFirstData(rs: seq<Result>, row: string, col: string, filler: string, shown: string, data: string)
    requires CellShows(rs, row, col, filler, shown) && FirstData(rs, row, col) == T.Some(data)
    ensures shown == data && row in RowNames(rs) && col in ColNames(rs)
  {
    FirstDataFound(rs, row, col);
    hide FirstData;
    var i :| 0 <= i < |rs| && rs[i] == Result(row, col, data)
             && forall j :: 0 <= j < i ==> !(rs[j].row == row && rs[j].col == col);
    assert IsFor(rs[i], row, col) && rs[i] in rs;
    if IsFirstFor(rs, row, col, shown) {
      var k :| 0 <= k < |rs| && IsFor(rs[k], row, col) && rs[k].data == shown
               && forall j :: 0 <= j < k ==> !IsFor(rs[j], row, col);
    }
  }

  /** The table printed for an input whose equal keys are contiguous, and any of its lines x: in the
      line that starts with the row name and the column headed by the column name of x, it shows the
      result over exactly the lines of the input with the key of x. */
  lemma PrintedCell(cfg: Config, ls: seq<Line>, show: Printf, x: Line, rows: seq<string>, cs: seq<string>,
                    filler: string)
      returns (r: nat, c: nat)
    requires IsCrosstab(cfg) && AllTabulate(cfg, Runs(cfg, ls)) && Contiguous(cfg, ls) && x in ls
    requires var rs := Results(cfg, Runs(cfg, ls), show); Listing(rows, RowNames(rs)) && Listing(cs, ColNames(rs))
    ensures Tabulates(cfg, KeyLines(cfg, ls, x)) && r < |rows| && c < |cs|
    ensures var (g, t) := (KeyLines(cfg, ls, x), Table(Results(cfg, Runs(cfg, ls), show), rows, cs, filler));
      && rows[r] == GroupResult(cfg, g, show).row && cs[c] == GroupResult(cfg, g, show).col
      && |t[0]| == |t[r + 1]| == |cs| + 1 && t[0][c + 1] == cs[c] && t[r + 1][0] == rows[r]
      && t[r + 1][c + 1] == show(ResultOf(cfg, g, 0).value)
  {
    CellOfLine(cfg, ls, show, x);
    var rs := Results(cfg, Runs(cfg, ls), show);
    var (res, data) := (GroupResult(cfg, KeyLines(cfg, ls, x), show), ResultOf(cfg, KeyLines(cfg, ls, x), 0).value);
    TableSays(rs, rows, cs, filler);
    hide *;
    r, c := CellFound(rs, rows, cs, filler, res.row, res.col, show(data));
  }

  lemma CellFound(rs: seq<Result>, rows: seq<string>, cs: seq<string>, filler: string, row: string, col: string,
                  data: string)
      returns (r: nat, c: nat)
    requires Listing(rows, RowNames(rs)) && Listing(cs, ColNames(rs)) && FirstData(rs, row, col) == T.Some(data)
    ensures r < |rows| && c < |cs| && rows[r] == row && cs[c] == col
    ensures var t := Table(rs, rows, cs, filler);
      && |t[0]| == |t[r + 1]| == |cs| + 1 && t[0][c + 1] == col && t[r + 1][0] == row && t[r + 1][c + 1] == data
  {
    TableSays(rs, rows, cs, filler);
    FirstDataShows(rs, row, col, filler);
    hide FirstData, Table, RowNames, ColNames, CellShows, StringVector.Increasing;
    FirstForFirstData(rs, row, col, filler, data, data);
    r :| 0 <= r < |rows| && rows[r] == row;
    c :| 0 <= c < |cs| && cs[c] == col;
    var t := Table(rs, rows, cs, filler);
    assert IsRow(rs, rows[r], cs, filler, t[r + 1]);
    FirstForFirstData(rs, row, col, filler, t[r + 1][c + 1], data);
  }
}
