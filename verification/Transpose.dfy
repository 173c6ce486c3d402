/** The transpose and reverse modes (transpose_file and reverse_fields_in_file in src/datamash.c). */
module Transpose {
  import opened Text
  import TextLines

  type Matrix = seq<seq<string>>

  /** max_num_fields. */
  function Width(m: Matrix): (w: nat)
    ensures forall j :: 0 <= j < |m| ==> |m[j]| <= w
    ensures m != [] ==> exists j :: 0 <= j < |m| && |m[j]| == w
    ensures m == [] ==> w == 0
  {
    if m == [] then 0 else
    var w := Width(m[..|m| - 1]);
    if w > |m[|m| - 1]| then w else
    assert m[|m| - 1] == m[|m| - 1];
    |m[|m| - 1]|
  }

  /** Every line has as many fields as the one before it: the strict mode's demand. */
  predicate Even(m: Matrix) {
    forall j :: 0 < j < |m| ==> |m[j]| == |m[j - 1]|
  }

  /** Field i of line j, or the filler. */
  function Cell(m: Matrix, j: nat, i: nat, filler: string): string
    requires j < |m|
  {
    if i < |m[j]| then m[j][i] else filler
  }

  function Flipped(m: Matrix, filler: string): (f: Matrix)
    ensures |f| == Width(m)
    ensures forall i :: 0 <= i < |f| ==> |f[i]| == |m|
    ensures forall i, j :: 0 <= i < |f| && 0 <= j < |m| ==> f[i][j] == Cell(m, j, i, filler)
  {
    seq(Width(m), i requires 0 <= i < Width(m) => seq(|m|, j requires 0 <= j < |m| => Cell(m, j, i, filler)))
  }

  function Joined(m: Matrix, d: char): (lines: seq<string>)
    ensures |lines| == |m|
    ensures forall i :: 0 <= i < |m| ==> lines[i] == TextLines.Join(m[i], d)
  {
    seq(|m|, i requires 0 <= i < |m| => TextLines.Join(m[i], d))
  }

  /** The output lines for the input lines; None is the fatal error of the strict mode. */
  function Transposed(lines: seq<string>, d: char, strict: bool, filler: string): Option<seq<string>> {
    var m := TextLines.LinesOf(lines, Some(d));
    if strict && !Even(m) then None else Some(Joined(Flipped(m, filler), d))
  }

  // --- The loops ---------------------------------------------------------------------------

  /** transpose_file, over the fields of the lines read. */
  method TransposeFile(m: Matrix, d: char, strict: bool, filler: string) returns (r: Option<seq<string>>)
    ensures r == if strict && !Even(m) then None else Some(Joined(Flipped(m, filler), d))
  {
    hide Even, Width;
    var ok, maxNumFields := MeasureLines(m, strict);
    if !ok {
      return None;
    }
    var out: seq<string> := [];
    var i := 0;
    while i < maxNumFields
      invariant 0 <= i == |out| <= maxNumFields == Width(m)
      invariant forall k :: 0 <= k < i ==> out[k] == TextLines.Join(Flipped(m, filler)[k], d)
    {
      var line := PrintRow(m, i, d, filler);
      out := out + [line];
      i := i + 1;
    }
    assert out == Joined(Flipped(m, filler), d);
    r := Some(out);
  }

  /** The reading loop: the strict mode's check and the largest number of fields. */
  method MeasureLines(m: Matrix, strict: bool) returns (ok: bool, maxNumFields: nat)
    ensures ok == (strict ==> Even(m))
    ensures ok ==> maxNumFields == Width(m)
  {
    hide Even, Width;
    EvenSteps(m, 0);
    maxNumFields := 0;
    var prevNumFields, n := 0, 0;
    while n < |m|
      invariant 0 <= n <= |m| && maxNumFields == Width(m[..n])
      invariant n > 0 ==> prevNumFields == |m[n - 1]|
      invariant strict ==> Even(m[..n])
    {
      var numFields := |m[n]|;
      EvenSteps(m, n);
      if strict && n > 0 && numFields != prevNumFields {
        return false, maxNumFields;
      }
      WidthMore(m, n);
      prevNumFields := numFields;
      maxNumFields := if maxNumFields > numFields then maxNumFields else numFields;
      n := n + 1;
    }
    assert m[..n] == m;
    ok := true;
  }

  lemma EvenSteps(m: Matrix, n: nat)
    requires n <= |m|
    ensures Even(m[..0]) && Width(m[..0]) == 0
    ensures n < |m| && Even(m[..n]) && (n > 0 ==> |m[n]| == |m[n - 1]|) ==> Even(m[..n + 1])
    ensures 0 < n < |m| && |m[n]| != |m[n - 1]| ==> !Even(m)
  {
  }

  lemma WidthMore(m: Matrix, n: nat)
    requires n < |m|
    ensures Width(m[..n + 1]) == if Width(m[..n]) > |m[n]| then Width(m[..n]) else |m[n]|
  {
    assert m[..n + 1][..n] == m[..n];
  }

  method PrintRow(m: Matrix, i: nat, d: char, filler: string) returns (line: string)
    requires i < Width(m)
    ensures line == TextLines.Join(Flipped(m, filler)[i], d)
  {
    ghost var row := Flipped(m, filler)[i];
    line := "";
    var j := 0;
    while j < |m|
      invariant 0 <= j <= |m| && line == TextLines.Join(row[..j], d)
    {
      assert row[..j + 1] == row[..j] + [row[j]];
      TextLines.JoinSnoc(row[..j], row[j], d);
      if j > 0 {
        line := line + [d];
      }
      line := line + Cell(m, j, i, filler);
      j := j + 1;
    }
    assert row[..j] == row;
  }

  // --- What is printed ---------------------------------------------------------------------

  /** Field i of every line, in order, and the filler for the lines that have no such field. */
  ghost predicate IsColumn(row: seq<string>, lines: seq<string>, i: nat, d: char, filler: string) {
    && |row| == |lines|
    && forall j :: 0 <= j < |lines| ==>
      var fs := TextLines.Split(lines[j], Some(d)); row[j] == if i < |fs| then fs[i] else filler
  }

  /** The output line shows column i of the text. */
  ghost predicate ShowsColumn(out: string, lines: seq<string>, i: nat, d: char, filler: string) {
    exists row :: IsColumn(row, lines, i, d, filler) && out == TextLines.Join(row, d)
  }

  /** Line j has another number of fields than the line before it. */
  ghost predicate Uneven(lines: seq<string>, j: nat, d: char)
    requires 0 < j < |lines|
  {
    |TextLines.Split(lines[j], Some(d))| != |TextLines.Split(lines[j - 1], Some(d))|
  }

  /** Transposing any text, even or not: it fails exactly in strict mode over two neighbouring lines
      that have different numbers of fields; otherwise there is one output line for each field of the
      longest line, and output line i shows column i. */
  lemma TransposedSays(lines: seq<string>, d: char, strict: bool, filler: string)
    ensures var r := Transposed(lines, d, strict, filler);
      && (r.None? <==> strict && exists j :: 0 < j < |lines| && Uneven(lines, j, d))
      && (r.Some? ==>
            && (forall j :: 0 <= j < |lines| ==> |TextLines.Split(lines[j], Some(d))| <= |r.value|)
            && (r.value != [] ==> exists j :: 0 <= j < |lines| && |TextLines.Split(lines[j], Some(d))| == |r.value|)
            && forall i :: 0 <= i < |r.value| ==> ShowsColumn(r.value[i], lines, i, d, filler))
  {
    LinesSplit(lines, d);
    var m := TextLines.LinesOf(lines, Some(d));
    hide TextLines.LinesOf, TextLines.Split, TextLines.Join;
    assert forall j :: 0 < j < |lines| ==> (Uneven(lines, j, d) <==> |m[j]| != |m[j - 1]|);
    var r := Transposed(lines, d, strict, filler);
    if r.Some? {
      forall i | 0 <= i < |r.value| ensures ShowsColumn(r.value[i], lines, i, d, filler) {
        assert IsColumn(Flipped(m, filler)[i], lines, i, d, filler);
      }
    }
  }

  // --- Transposing twice -------------------------------------------------------------------

  /** The lines all have n fields. */
  ghost predicate Rectangular(m: Matrix, n: nat) {
    forall j :: 0 <= j < |m| ==> |m[j]| == n
  }

  lemma {:induction false} LinesSplit(lines: seq<string>, d: char)
    ensures var m := TextLines.LinesOf(lines, Some(d));
      |m| == |lines| && forall j :: 0 <= j < |m| ==> m[j] == TextLines.Split(lines[j], Some(d))
  {
    hide TextLines.Split;
    if lines != [] {
      LinesSplit(lines[1..], d);
    }
  }

  lemma RectangularEven(m: Matrix, n: nat)
    requires Rectangular(m, n)
    ensures Even(m) && (m != [] ==> Width(m) == n)
  {
  }

  lemma FlippedTwice(m: Matrix, n: nat, filler: string)
    requires m != [] && n > 0 && Rectangular(m, n)
    ensures Rectangular(Flipped(m, filler), |m|) && |Flipped(m, filler)| == n
    ensures Flipped(Flipped(m, filler), filler) == m
  {
    hide Width;
    RectangularEven(m, n);
    var f := Flipped(m, filler);
    RectangularEven(f, |m|);
    var g := Flipped(f, filler);
    forall j | 0 <= j < |m| ensures g[j] == m[j] {
      forall i | 0 <= i < n ensures g[j][i] == m[j][i] {
        assert g[j][i] == Cell(f, i, j, filler) == f[i][j] == Cell(m, j, i, filler);
      }
    }
  }

  /** A field without delimiters stays one when lines and columns are exchanged. */
  lemma FlippedClean(m: Matrix, n: nat, d: char, filler: string)
    requires m != [] && n > 0 && Rectangular(m, n)
    requires forall j, f :: 0 <= j < |m| && f in m[j] ==> d !in f
    ensures forall i, f :: 0 <= i < n && f in Flipped(m, filler)[i] ==> d !in f
  {
    RectangularEven(m, n);
    hide Width;
    var r := Flipped(m, filler);
    forall i, f | 0 <= i < n && f in r[i] ensures d !in f {
      var j :| 0 <= j < |m| && r[i][j] == f;
      assert f == Cell(m, j, i, filler) == m[j][i];
    }
  }

  /** What a line of the transposed text is read as: its fields, unless it is one empty field. */
  lemma RowRead(row: seq<string>, d: char)
    requires row != [] && forall f :: f in row ==> d !in f
    ensures TextLines.Split(TextLines.Join(row, d), Some(d)) == if row == [""] then [] else row
  {
    TextLines.SplitJoin(row, d);
    if row == [""] {
      TextLines.JoinCons("", [], d);
    }
    hide TextLines.Join;
  }

  lemma {:induction false} EvenAll(m: Matrix, j: nat)
    requires Even(m) && j < |m|
    ensures |m[j]| == |m[0]|
  {
    if j > 0 {
      EvenAll(m, j - 1);
    }
  }

  lemma LinesClean(lines: seq<string>, d: char)
    ensures var m := TextLines.LinesOf(lines, Some(d));
      && (forall j, f :: 0 <= j < |m| && f in m[j] ==> d !in f)
      && Joined(m, d) == lines
  {
    LinesSplit(lines, d);
    var m := TextLines.LinesOf(lines, Some(d));
    hide TextLines.LinesOf, TextLines.Split, TextLines.Join;
    forall j | 0 <= j < |m| ensures TextLines.Join(m[j], d) == lines[j] && forall f :: f in m[j] ==> d !in f {
      TextLines.JoinSplit(lines[j], d);
    }
  }

  /** What the transposed text is read as. */
  lemma TransposedRead(f: Matrix, d: char)
    requires forall i, x :: 0 <= i < |f| && x in f[i] ==> d !in x
    requires forall i :: 0 <= i < |f| ==> f[i] != []
    ensures var m := TextLines.LinesOf(Joined(f, d), Some(d));
      |m| == |f| && forall i :: 0 <= i < |f| ==> m[i] == if f[i] == [""] then [] else f[i]
  {
    LinesSplit(Joined(f, d), d);
    hide TextLines.LinesOf, TextLines.Split, TextLines.Join;
    forall i | 0 <= i < |f|
      ensures TextLines.Split(TextLines.Join(f[i], d), Some(d)) == if f[i] == [""] then [] else f[i]
    {
      RowRead(f[i], d);
    }
  }

  /** No field of the text stands alone in its column and is empty. */
  ghost predicate NoLoneEmpty(m: Matrix) {
    |m| > 1 || forall j, f :: 0 <= j < |m| && f in m[j] ==> f != ""
  }

  lemma ReadBack(lines: seq<string>, d: char, n: nat, filler: string)
    requires var m := TextLines.LinesOf(lines, Some(d)); m != [] && n > 0 && Rectangular(m, n)
    ensures var f := Flipped(TextLines.LinesOf(lines, Some(d)), filler);
      var m2 := TextLines.LinesOf(Joined(f, d), Some(d));
      |m2| == |f| == n && forall i :: 0 <= i < n ==> f[i] != [] && m2[i] == if f[i] == [""] then [] else f[i]
  {
    hide TextLines.LinesOf, Width, Joined, Even, Flipped;
    var m := TextLines.LinesOf(lines, Some(d));
    LinesClean(lines, d);
    RectangularEven(m, n);
    FlippedClean(m, n, d, filler);
    TransposedRead(Flipped(m, filler), d);
  }

  /** Transposing a text with the same number of fields, at least one, in every line and then the
      result gives the text back exactly if no column is a single empty field: such a column becomes
      an empty line, which has no field. */
  lemma TransposeTwice(lines: seq<string>, d: char, n: nat, filler: string)
    requires lines != [] && n > 0 && Rectangular(TextLines.LinesOf(lines, Some(d)), n)
    ensures var once := Transposed(lines, d, true, filler);
      once.Some? && (Transposed(once.value, d, true, filler) == Some(lines)
                     <==> NoLoneEmpty(TextLines.LinesOf(lines, Some(d))))
  {
    var m := TextLines.LinesOf(lines, Some(d));
    LinesSplit(lines, d);
    RectangularEven(m, n);
    var f := Flipped(m, filler);
    ReadBack(lines, d, n, filler);
    var m2 := TextLines.LinesOf(Joined(f, d), Some(d));
    LinesClean(lines, d);
    hide TextLines.LinesOf, Width, Joined, Flipped;
    if NoLoneEmpty(m) {
      AllRowsRead(m, f, m2, n, filler);
      FlippedTwice(m, n, filler);
      RectangularEven(f, |m|);
    } else {
      LoneEmptyLost(m, f, m2, n, filler);
    }
  }

  lemma AllRowsRead(m: Matrix, f: Matrix, m2: Matrix, n: nat, filler: string)
    requires m != [] && n > 0 && Rectangular(m, n) && NoLoneEmpty(m) && f == Flipped(m, filler)
    requires |m2| == |f| == n && forall i :: 0 <= i < n ==> m2[i] == if f[i] == [""] then [] else f[i]
    ensures m2 == f
  {
    hide Width;
    forall i | 0 <= i < n ensures f[i] != [""] {
      assert |f[i]| == |m| && f[i][0] == Cell(m, 0, i, filler) == m[0][i];
      assert m[0][i] in m[0];
    }
  }

  /** With one line, an empty field makes the lines read back uneven, or all of them empty. */
  lemma LoneEmptyLost(m: Matrix, f: Matrix, m2: Matrix, n: nat, filler: string)
    requires m != [] && n > 0 && Rectangular(m, n) && !NoLoneEmpty(m) && f == Flipped(m, filler)
    requires |m2| == |f| == n && forall i :: 0 <= i < n ==> m2[i] == if f[i] == [""] then [] else f[i]
    ensures !Even(m2) || Flipped(m2, filler) == []
  {
    var i :| 0 <= i < |m[0]| && m[0][i] == "";
    assert f[i][0] == Cell(m, 0, i, filler) && |f[i]| == |m| == 1;
    assert f[i] == [""];
    if Even(m2) {
      EvenAll(m2, i);
      forall k | 0 <= k < n ensures |m2[k]| == 0 {
        EvenAll(m2, k);
      }
    }
  }

  // --- Reversing fields --------------------------------------------------------------------

  function Reversed(fs: seq<string>): (r: seq<string>)
    ensures |r| == |fs|
    ensures forall i :: 0 <= i < |fs| ==> r[i] == fs[|fs| - 1 - i]
  {
    if fs == [] then [] else Reversed(fs[1..]) + [fs[0]]
  }

  /** The output of reverse_fields_in_file without header options. */
  function ReversedLines(lines: seq<string>, d: char, strict: bool): (r: Option<seq<string>>)
    ensures r.Some? ==> |r.value| == |lines|
  {
    LinesSplit(lines, d);
    var m := TextLines.LinesOf(lines, Some(d));
    if strict && !Even(m) then None
    else Some(seq(|m|, i requires 0 <= i < |m| => TextLines.Join(Reversed(m[i]), d)))
  }

  /** reverse_fields_in_file, over the fields of the lines read; in strict mode a line with another
      number of fields than the one before is fatal. */
  method ReverseFieldsInFile(m: Matrix, d: char, strict: bool) returns (r: Option<seq<string>>)
    ensures r.None? <==> strict && !Even(m)
    ensures r.Some? ==> |r.value| == |m|
    ensures r.Some? ==> forall j :: 0 <= j < |m| ==> r.value[j] == TextLines.Join(Reversed(m[j]), d)
  {
    hide Even;
    EvenSteps(m, 0);
    var out: seq<string> := [];
    var prevNumFields, n := 0, 0;
    while n < |m|
      invariant 0 <= n == |out| <= |m|
      invariant n > 0 ==> prevNumFields == |m[n - 1]|
      invariant strict ==> Even(m[..n])
      invariant forall j :: 0 <= j < n ==> out[j] == TextLines.Join(Reversed(m[j]), d)
    {
      var numFields := |m[n]|;
      EvenSteps(m, n);
      if strict && n > 0 && numFields != prevNumFields {
        return None;
      }
      prevNumFields := numFields;
      var line := PrintReversed(m[n], d);
      out := out + [line];
      n := n + 1;
    }
    assert m[..n] == m;
    r := Some(out);
  }

  method PrintReversed(fs: seq<string>, d: char) returns (line: string)
    ensures line == TextLines.Join(Reversed(fs), d)
  {
    line := "";
    var i := |fs|;
    ghost var r := Reversed(fs);
    while i > 0
      invariant 0 <= i <= |fs| && line == TextLines.Join(r[..|fs| - i], d)
    {
      assert r[..|fs| - i + 1] == r[..|fs| - i] + [fs[i - 1]];
      TextLines.JoinSnoc(r[..|fs| - i], fs[i - 1], d);
      if i < |fs| {
        line := line + [d];
      }
      line := line + fs[i - 1];
      i := i - 1;
    }
    assert r[..|fs|] == r;
  }

  /** A reversed line is read as its fields in reverse order: a line never is one empty field. */
  lemma ReversedRead(s: string, d: char)
    ensures var fs := TextLines.Split(s, Some(d));
      TextLines.Split(TextLines.Join(Reversed(fs), d), Some(d)) == Reversed(fs) && Reversed(Reversed(fs)) == fs
  {
    var fs := TextLines.Split(s, Some(d));
    TextLines.JoinSplit(s, d);
    TextLines.SplitJoin(Reversed(fs), d);
    if fs == [""] {
      TextLines.JoinCons("", [], d);
      EmptyLineSplit(d);
    }
    hide TextLines.Split, TextLines.Join, Reversed;
    forall f | f in Reversed(fs) ensures d !in f {
      var i :| 0 <= i < |fs| && Reversed(fs)[i] == f;
      assert fs[|fs| - 1 - i] in fs;
    }
    assert Reversed(Reversed(fs)) == fs;
    assert Reversed(fs) == [""] ==> fs == [""];
  }

  lemma EmptyLineSplit(d: char)
    ensures TextLines.Split("", Some(d)) == []
  {
  }

  /** Reversing the fields twice gives every text back. */
  lemma ReverseTwice(lines: seq<string>, d: char, strict: bool)
    ensures var once := ReversedLines(lines, d, strict);
      once.Some? ==> ReversedLines(once.value, d, strict) == Some(lines)
  {
    var m := TextLines.LinesOf(lines, Some(d));
    LinesSplit(lines, d);
    LinesClean(lines, d);
    var once := ReversedLines(lines, d, strict);
    if once.Some? {
      LinesSplit(once.value, d);
      var m2 := TextLines.LinesOf(once.value, Some(d));
      hide TextLines.LinesOf, TextLines.Split, TextLines.Join, Reversed;
      forall j | 0 <= j < |lines|
        ensures m2[j] == Reversed(m[j]) && TextLines.Join(Reversed(m2[j]), d) == lines[j]
      {
        ReversedRead(lines[j], d);
        assert Joined(m, d)[j] == lines[j];
      }
      assert Even(m) ==> Even(m2);
      var twice := ReversedLines(once.value, d, strict);
      assert twice.Some? && twice.value == lines;
    }
  }
}
