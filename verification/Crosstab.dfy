/** Cross-tabulation: results collected in hash tables and printed as a table (src/crosstab.c). */
module Crosstab {
  import opened Text
  import StringVector
  import TextLines

  /** The result of one group: its row name, column name and value. */
  datatype Result = Result(row: string, col: string, data: string)

  // --- The table a list of results makes ---------------------------------------------------

  /** The value shown in a cell: that of the first result for the cell. */
  function FirstData(rs: seq<Result>, row: string, col: string): Option<string> {
    if rs == [] then None else
    var (before, last) := (FirstData(rs[..|rs| - 1], row, col), rs[|rs| - 1]);
    if before.Some? then before else if last.row == row && last.col == col then Some(last.data) else None
  }

  function RowNames(rs: seq<Result>): set<string> {
    set r | r in rs :: r.row
  }

  function ColNames(rs: seq<Result>): set<string> {
    set r | r in rs :: r.col
  }

  /** The cells of a row, for the columns cs. */
  function Cells(rs: seq<Result>, row: string, cs: seq<string>, filler: string): (cells: seq<string>)
    ensures |cells| == |cs|
  {
    if cs == [] then [] else
    var n := |cs| - 1;
    Cells(rs, row, cs[..n], filler)
    + [match FirstData(rs, row, cs[n]) case Some(d) => d case None => filler]
  }

  /** The lines of the table, each a list of cells: the column names, then the rows. */
  function Table(rs: seq<Result>, rows: seq<string>, cs: seq<string>, filler: string): (lines: seq<seq<string>>)
    ensures |lines| == |rows| + 1
  {
    if rows == [] then [[""] + cs] else
    var n := |rows| - 1;
    Table(rs, rows[..n], cs, filler) + [[rows[n]] + Cells(rs, rows[n], cs, filler)]
  }

  function Shown(lines: seq<seq<string>>, sep: char, eol: char): string {
    if lines == [] then "" else
    Shown(lines[..|lines| - 1], sep, eol) + TextLines.Join(lines[|lines| - 1], sep) + [eol]
  }

  /** A list of the names in increasing order, each once. */
  ghost predicate Listing(l: seq<string>, names: set<string>) {
    StringVector.Increasing(l, true) && (forall x :: x in l <==> x in names)
  }

  // --- The hash tables ---------------------------------------------------------------------

  /** struct crosstab; the tables as sets and a map, by the names they are hashed on. */
  class CrosstabTables {
    var rows: set<string>
    var columns: set<string>
    var data: map<(string, string), string>

    /** The tables hold the results rs, the first one for each cell. */
    ghost predicate Holds(rs: seq<Result>)
      reads this
    {
      && rows == RowNames(rs) && columns == ColNames(rs)
      && forall r, c :: FirstData(rs, r, c) == if (r, c) in data then Some(data[(r, c)]) else None
    }

    constructor ()
      ensures Holds([])
    {
      rows, columns, data := {}, {}, map[];
    }

    /** crosstab_add_result: a hash table keeps the entry it has. */
    method AddResult(row: string, col: string, value: string, ghost rs: seq<Result>)
      requires Holds(rs)
      modifies this
      ensures Holds(rs + [Result(row, col, value)])
    {
      if row !in rows {
        rows := rows + {row};
      }
      if col !in columns {
        columns := columns + {col};
      }
      if (row, col) !in data {
        data := data[(row, col) := value];
      }
      var more := rs + [Result(row, col, value)];
      assert more[..|rs|] == rs;
    }

    /** hash_get_entries and qsort. */
    method SortedEntries(names: set<string>) returns (l: seq<string>)
      ensures Listing(l, names)
    {
      var left := names;
      l := [];
      while left != {}
        invariant left <= names && Listing(l, names - left)
        decreases |left|
      {
        var x: string :| x in left;
        l := InsertName(x, l, names - left);
        left := left - {x};
      }
    }

    method InsertName(x: string, l: seq<string>, ghost names: set<string>) returns (more: seq<string>)
      requires x !in names && Listing(l, names)
      ensures Listing(more, names + {x})
    {
      more := StringVector.Insert(x, l, true);
      InsertListing(x, l, names);
    }

    /** crosstab_print. */
    method Print(sep: char, eol: char, filler: string, ghost rs: seq<Result>)
        returns (out: string, ghost rowsList: seq<string>, ghost colsList: seq<string>)
      requires Holds(rs)
      ensures Listing(rowsList, RowNames(rs)) && Listing(colsList, ColNames(rs))
      ensures out == Shown(Table(rs, rowsList, colsList, filler), sep, eol)
    {
      var rl := SortedEntries(rows);
      var cl := SortedEntries(columns);
      rowsList, colsList := rl, cl;
      out := PrintLine("", cl, sep, eol);
      TableHead(rs, cl, filler, sep, eol);
      var r := 0;
      while r < |rl|
        invariant 0 <= r <= |rl| && out == Shown(Table(rs, rl[..r], cl, filler), sep, eol)
      {
        var cells := RowCells(rl[r], cl, filler, rs);
        var line := PrintLine(rl[r], cells, sep, eol);
        TableRow(rs, rl, r, cl, filler, sep, eol);
        out := out + line;
        r := r + 1;
      }
      assert rl[..r] == rl;
    }

    /** The lookups of one row. */
    method RowCells(row: string, cl: seq<string>, filler: string, ghost rs: seq<Result>) returns (cells: seq<string>)
      requires Holds(rs)
      ensures cells == Cells(rs, row, cl, filler)
    {
      cells := [];
      var c := 0;
      while c < |cl|
        invariant 0 <= c <= |cl| && cells == Cells(rs, row, cl[..c], filler)
      {
        assert cl[..c + 1][..c] == cl[..c];
        cells := cells + [if (row, cl[c]) in data then data[(row, cl[c])] else filler];
        c := c + 1;
      }
      assert cl[..c] == cl;
    }

    /** A name and the cells after it, each after a separator. */
    method PrintLine(name: string, cells: seq<string>, sep: char, eol: char) returns (line: string)
      ensures line == TextLines.Join([name] + cells, sep) + [eol]
    {
      line := name;
      var c := 0;
      assert [name] + cells[..0] == [name];
      while c < |cells|
        invariant 0 <= c <= |cells| && line == TextLines.Join([name] + cells[..c], sep)
      {
        TextLines.JoinSnoc([name] + cells[..c], cells[c], sep);
        assert [name] + cells[..c + 1] == ([name] + cells[..c]) + [cells[c]];
        line := line + [sep] + cells[c];
        c := c + 1;
      }
      assert cells[..c] == cells;
      line := line + [eol];
    }
  }

  lemma TableHead(rs: seq<Result>, cs: seq<string>, filler: string, sep: char, eol: char)
    ensures Shown(Table(rs, [], cs, filler), sep, eol) == TextLines.Join([""] + cs, sep) + [eol]
  {
    hide TextLines.Join;
    assert Table(rs, [], cs, filler)[..0] == [];
  }

  lemma TableRow(rs: seq<Result>, rows: seq<string>, r: nat, cs: seq<string>, filler: string, sep: char, eol: char)
    requires r < |rows|
    ensures Shown(Table(rs, rows[..r + 1], cs, filler), sep, eol)
         == Shown(Table(rs, rows[..r], cs, filler), sep, eol)
            + (TextLines.Join([rows[r]] + Cells(rs, rows[r], cs, filler), sep) + [eol])
  {
    hide TextLines.Join, Cells;
    var t := Table(rs, rows[..r], cs, filler);
    assert rows[..r + 1][..r] == rows[..r];
    var line := [rows[r]] + Cells(rs, rows[r], cs, filler);
    assert (t + [line])[..|t|] == t;
  }

  lemma InsertListing(x: string, l: seq<string>, names: set<string>)
    requires x !in names && Listing(l, names)
    ensures Listing(StringVector.Insert(x, l, true), names + {x})
  {
    InsertMembers(x, l);
    InsertIncreasing(x, l);
  }

  lemma {:induction false} InsertMembers(x: string, l: seq<string>)
    ensures forall y :: y in StringVector.Insert(x, l, true) <==> y == x || y in l
  {
    hide StrLe;
    if l != [] {
      InsertMembers(x, l[1..]);
      assert l == [l[0]] + l[1..];
    }
  }

  lemma ConsIncreasing(h: string, t: seq<string>)
    requires StringVector.Increasing(t, true) && forall y :: y in t ==> StringVector.Below(h, y, true)
    ensures StringVector.Increasing([h] + t, true)
  {
    hide StringVector.Below;
  }

  lemma TailIncreasing(l: seq<string>)
    requires l != [] && StringVector.Increasing(l, true)
    ensures StringVector.Increasing(l[1..], true)
    ensures forall y :: y in l[1..] ==> StringVector.Below(l[0], y, true)
  {
    hide StringVector.Below;
  }

  /** Below is transitive, and total on different strings. */
  lemma BelowOrder(a: string, b: string, c: string)
    ensures StringVector.Below(a, b, true) && StringVector.Below(b, c, true) ==> StringVector.Below(a, c, true)
    ensures a == b || StringVector.Below(a, b, true) || StringVector.Below(b, a, true)
    ensures !(StringVector.Below(a, b, true) && StringVector.Below(b, a, true))
    ensures StringVector.Le(a, b, true) <==> a == b || StringVector.Below(a, b, true)
  {
    StringVector.StrLeTotal(a, b);
    StringVector.LeReflexive(a, true);
    if StrLe(a, b) && StrLe(b, a) {
      StringVector.StrLeAntisymmetric(a, b);
    }
    if StrLe(a, b) && StrLe(b, c) {
      StringVector.StrLeTransitive(a, b, c);
      if StrLe(c, b) {
        StringVector.StrLeAntisymmetric(b, c);
      }
    }
    hide StrLe;
  }

  lemma {:induction false} InsertIncreasing(x: string, l: seq<string>)
    requires x !in l && StringVector.Increasing(l, true)
    ensures StringVector.Increasing(StringVector.Insert(x, l, true), true)
  {
    hide StringVector.Below, StringVector.Le, StringVector.Increasing;
    if l == [] {
      NoneIncreasing();
      ConsIncreasing(x, []);
      assert [x] + [] == [x];
    } else {
      TailIncreasing(l);
      BelowOrder(x, l[0], l[0]);
      assert l == [l[0]] + l[1..];
      if StringVector.Le(x, l[0], true) {
        forall y | y in l ensures StringVector.Below(x, y, true) {
          BelowOrder(x, l[0], y);
        }
        ConsIncreasing(x, l);
      } else {
        InsertIncreasing(x, l[1..]);
        InsertMembers(x, l[1..]);
        ConsIncreasing(l[0], StringVector.Insert(x, l[1..], true));
      }
    }
  }

  lemma NoneIncreasing()
    ensures StringVector.Increasing([], true)
  {
  }

  // --- What the table shows ----------------------------------------------------------------

  /** There is one listing of a set of names: the order of the hash table does not show. */
  lemma {:induction false} ListingUnique(a: seq<string>, b: seq<string>, names: set<string>)
    requires Listing(a, names) && Listing(b, names)
    ensures a == b
    decreases |a|
  {
    hide StringVector.Below, StringVector.Increasing;
    if a == [] {
      NoNames(b, names);
    } else {
      assert a[0] in names && b != [];
      TailIncreasing(a);
      TailIncreasing(b);
      assert a == [a[0]] + a[1..] && b == [b[0]] + b[1..];
      SmallestFirst(a[0], b[0], a, b);
      TailListing(a, names);
      TailListing(b, names);
      ListingUnique(a[1..], b[1..], names - {a[0]});
    }
  }

  lemma NoNames(l: seq<string>, names: set<string>)
    requires Listing(l, names) && Listing([], names)
    ensures l == []
  {
    hide StringVector.Increasing;
    assert names == {};
    HeadIn(l);
  }

  lemma HeadIn(l: seq<string>)
    ensures l == [] || l[0] in l
  {
  }

  lemma SmallestFirst(x: string, y: string, a: seq<string>, b: seq<string>)
    requires x in b && y in a
    requires forall z :: z in a ==> z == x || StringVector.Below(x, z, true)
    requires forall z :: z in b ==> z == y || StringVector.Below(y, z, true)
    ensures x == y
  {
    hide StringVector.Below;
    BelowOrder(x, y, y);
  }

  lemma TailListing(l: seq<string>, names: set<string>)
    requires l != [] && Listing(l, names)
    ensures Listing(l[1..], names - {l[0]})
  {
    TailIncreasing(l);
    assert l == [l[0]] + l[1..];
    forall y | y in l[1..] ensures y != l[0] {
      BelowOrder(l[0], y, y);
    }
    hide StringVector.Increasing, StringVector.Below;
  }

  lemma {:induction false} FirstDataFound(rs: seq<Result>, row: string, col: string)
    ensures FirstData(rs, row, col).None? <==> forall i :: 0 <= i < |rs| ==> !(rs[i].row == row && rs[i].col == col)
    ensures var d := FirstData(rs, row, col); d.Some? ==>
      exists i :: 0 <= i < |rs| && rs[i] == Result(row, col, d.value)
                  && forall j :: 0 <= j < i ==> !(rs[j].row == row && rs[j].col == col)
  {
    if rs != [] {
      var init := rs[..|rs| - 1];
      FirstDataFound(init, row, col);
      assert forall i :: 0 <= i < |init| ==> init[i] == rs[i];
      hide FirstData;
    }
  }

  /** Results for the same cell do not differ. */
  ghost predicate Consistent(rs: seq<Result>) {
    forall i, j :: 0 <= i < |rs| && 0 <= j < |rs| && SameCell(rs[i], rs[j]) ==> rs[i].data == rs[j].data
  }

  predicate SameCell(a: Result, b: Result) {
    a.row == b.row && a.col == b.col
  }

  /** Result i is the one its cell shows. */
  ghost predicate IsShown(rs: seq<Result>, i: nat)
    requires i < |rs|
  {
    FirstData(rs, rs[i].row, rs[i].col) == Some(rs[i].data)
  }

  lemma FirstOfCell(rs: seq<Result>, i: nat) returns (k: nat)
    requires i < |rs|
    ensures k < |rs| && SameCell(rs[k], rs[i]) && FirstData(rs, rs[i].row, rs[i].col) == Some(rs[k].data)
  {
    FirstDataFound(rs, rs[i].row, rs[i].col);
    var d := FirstData(rs, rs[i].row, rs[i].col);
    hide FirstData;
    k :| 0 <= k < |rs| && rs[k] == Result(rs[i].row, rs[i].col, d.value);
  }

  /** The results are all shown exactly if no two results for the same cell differ: of the groups
      with the same two keys, only the first one counts. */
  lemma AllResultsShown(rs: seq<Result>)
    ensures (forall i :: 0 <= i < |rs| ==> IsShown(rs, i)) <==> Consistent(rs)
  {
    hide FirstData;
    forall i | 0 <= i < |rs| ensures Consistent(rs) ==> IsShown(rs, i) {
      var k := FirstOfCell(rs, i);
    }
    forall i, j | 0 <= i < |rs| && 0 <= j < |rs| && SameCell(rs[i], rs[j])
      ensures IsShown(rs, i) && IsShown(rs, j) ==> rs[i].data == rs[j].data
    {
    }
  }

  // --- What the table says -----------------------------------------------------------------

  predicate IsFor(r: Result, row: string, col: string) { r.row == row && r.col == col }

  /** data is that of the first result for the row and the column. */
  ghost predicate IsFirstFor(rs: seq<Result>, row: string, col: string, data: string) {
    exists i :: 0 <= i < |rs| && IsFor(rs[i], row, col) && rs[i].data == data
                && forall j :: 0 <= j < i ==> !IsFor(rs[j], row, col)
  }

  /** The cell of the row and the column shows that data, or the filler if there is no result. */
  ghost predicate CellShows(rs: seq<Result>, row: string, col: string, filler: string, shown: string) {
    || IsFirstFor(rs, row, col, shown)
    || (shown == filler && forall i :: 0 <= i < |rs| ==> !IsFor(rs[i], row, col))
  }

  lemma FirstDataShows(rs: seq<Result>, row: string, col: string, filler: string)
    ensures CellShows(rs, row, col, filler, match FirstData(rs, row, col) case Some(d) => d case None => filler)
  {
    FirstDataFound(rs, row, col);
    hide FirstData;
    var d := FirstData(rs, row, col);
    if d.Some? {
      var i :| 0 <= i < |rs| && rs[i] == Result(row, col, d.value)
               && forall j :: 0 <= j < i ==> !(rs[j].row == row && rs[j].col == col);
      assert IsFor(rs[i], row, col);
    }
  }

  lemma {:induction false} CellsShow(rs: seq<Result>, row: string, cs: seq<string>, filler: string, c: nat)
    requires c < |cs|
    ensures CellShows(rs, row, cs[c], filler, Cells(rs, row, cs, filler)[c])
  {
    var n := |cs| - 1;
    if c == n {
      FirstDataShows(rs, row, cs[n], filler);
    } else {
      CellsShow(rs, row, cs[..n], filler, c);
    }
    hide FirstData, CellShows;
  }

  /** A line of the table after the first: the name of its row, then its cells. */
  ghost predicate IsRow(rs: seq<Result>, row: string, cs: seq<string>, filler: string, line: seq<string>) {
    |line| == |cs| + 1 && line[0] == row && forall c :: 0 <= c < |cs| ==> CellShows(rs, row, cs[c], filler, line[c + 1])
  }

  lemma RowIs(rs: seq<Result>, row: string, cs: seq<string>, filler: string)
    ensures IsRow(rs, row, cs, filler, [row] + Cells(rs, row, cs, filler))
  {
    hide Cells, CellShows;
    forall c | 0 <= c < |cs| ensures CellShows(rs, row, cs[c], filler, ([row] + Cells(rs, row, cs, filler))[c + 1]) {
      CellsShow(rs, row, cs, filler, c);
    }
  }

  /** The first line of the table holds the column names, and every other one the cells of its row. */
  lemma {:induction false} TableSays(rs: seq<Result>, rows: seq<string>, cs: seq<string>, filler: string)
    ensures var t := Table(rs, rows, cs, filler);
      t[0] == [""] + cs && forall r :: 0 <= r < |rows| ==> IsRow(rs, rows[r], cs, filler, t[r + 1])
  {
    if rows != [] {
      var n := |rows| - 1;
      TableSays(rs, rows[..n], cs, filler);
      RowIs(rs, rows[n], cs, filler);
      hide Cells, IsRow;
      var (t, u) := (Table(rs, rows, cs, filler), Table(rs, rows[..n], cs, filler));
      forall r | 0 <= r < |rows| ensures IsRow(rs, rows[r], cs, filler, t[r + 1]) {
        if r < n {
          assert t[r + 1] == u[r + 1] && rows[..n][r] == rows[r];
        }
      }
    }
  }

  function JoinedLines(lines: seq<seq<string>>, sep: char): (js: seq<string>)
    ensures |js| == |lines| && forall i :: 0 <= i < |lines| ==> js[i] == TextLines.Join(lines[i], sep)
  {
    seq(|lines|, i requires 0 <= i < |lines| => TextLines.Join(lines[i], sep))
  }

  /** The printed table is its lines, cells separated, each with a line end. */
  lemma {:induction false} ShownIsJoin(lines: seq<seq<string>>, sep: char, eol: char)
    ensures Shown(lines, sep, eol) == TextLines.Join(JoinedLines(lines, sep) + [""], eol)
  {
    if lines != [] {
      var n := |lines| - 1;
      var (init, last) := (JoinedLines(lines[..n], sep), TextLines.Join(lines[n], sep));
      ShownIsJoin(lines[..n], sep, eol);
      assert JoinedLines(lines, sep) == init + [last];
      hide JoinedLines;
      TextLines.JoinSnoc(init + [last], "", eol);
      TextLines.JoinSnoc(init, last, eol);
      TextLines.JoinSnoc(init, "", eol);
      hide TextLines.Join;
      ShownLast(TextLines.Join(init, eol), last, init == [], eol);
    }
  }

  lemma ShownLast(before: string, last: string, first: bool, eol: char)
    ensures (before + (if first then "" else [eol]) + last) + [eol] + ""
         == (before + (if first then "" else [eol]) + "") + last + [eol]
  {
  }
}
