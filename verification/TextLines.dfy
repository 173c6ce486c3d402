/** Lines split into fields: src/text-lines.c without the vnlog prologue. */
module TextLines {
  import opened Text

  /** A field is a slice of the line buffer (struct field_record_t). */
  datatype Slice = Slice(start: nat, len: nat)

  // --- What a split means ------------------------------------------------------------------

  /** The pieces of s between the occurrences of d, from position pos on. */
  function Pieces(s: string, pos: nat, d: char): (ps: seq<string>)
    requires pos <= |s|
    ensures |ps| > 0
    decreases |s| - pos
  {
    var end := Scan(s, pos, Except(d));
    if end == |s| then [s[pos..end]] else [s[pos..end]] + Pieces(s, end + 1, d)
  }

  /** The words of s from position pos on: one per round, so the last is empty when blanks end s. */
  function Words(s: string, pos: nat): (ws: seq<string>)
    requires pos <= |s|
    decreases |s| - pos
  {
    if pos == |s| then [] else
    var begin := Scan(s, pos, Blank);
    var end := Scan(s, begin, NonBlank);
    [s[begin..end]] + Words(s, end)
  }

  /** The fields of a line; no delimiter means runs of blanks. */
  function Split(s: string, delim: Option<char>): (fs: seq<string>) {
    match delim
    case None => Words(s, 0)
    case Some(d) => if s == "" then [] else Pieces(s, 0, d)
  }

  function Join(fs: seq<string>, d: char): string {
    if |fs| == 0 then "" else if |fs| == 1 then fs[0] else fs[0] + [d] + Join(fs[1..], d)
  }

  function CountOf(s: string, d: char): nat {
    if s == "" then 0 else (if s[0] == d then 1 else 0) + CountOf(s[1..], d)
  }

  /** True of the lines --skip-comments drops. */
  predicate IsComment(s: string) {
    var i := Scan(s, 0, Blank);
    i < |s| && (s[i] == '#' || s[i] == ';')
  }

  function DataLines(input: seq<string>, skipComments: bool): seq<string> {
    if input == [] then []
    else (if skipComments && IsComment(input[0]) then [] else [input[0]]) + DataLines(input[1..], skipComments)
  }

  // --- One round of each loop --------------------------------------------------------------

  /** What the delimiter loop has left to find at position pos. */
  function PiecesLeft(s: string, pos: nat, d: char): seq<string> {
    if pos <= |s| then Pieces(s, pos, d) else []
  }

  lemma PiecesRound(s: string, begin: nat, end: nat, d: char, found: seq<string>)
    requires begin <= end <= |s|
    requires forall k :: begin <= k < end ==> s[k] != d
    requires end < |s| ==> s[end] == d
    ensures found + PiecesLeft(s, begin, d) == found + [s[begin..end]] + PiecesLeft(s, end + 1, d)
  {
    ScanUnique(s, begin, Except(d), end);
  }

  lemma WordsEnds(s: string)
    ensures Words(s, |s|) == []
  {
  }

  lemma PiecesEnds(s: string, d: char)
    ensures PiecesLeft(s, |s| + 1, d) == []
    ensures Split(s, Some(d)) == if s == "" then [] else PiecesLeft(s, 0, d)
  {
  }

  lemma WordsRound(s: string, pos: nat, begin: nat, end: nat, found: seq<string>)
    requires pos <= begin <= end <= |s| && pos < |s|
    requires forall k :: pos <= k < begin ==> IsBlank(s[k])
    requires forall k :: begin <= k < end ==> !IsBlank(s[k])
    requires begin < |s| ==> !IsBlank(s[begin])
    requires end < |s| ==> IsBlank(s[end])
    ensures pos < end
    ensures found + Words(s, pos) == found + [s[begin..end]] + Words(s, end)
  {
    ScanUnique(s, pos, Blank, begin);
    ScanUnique(s, begin, NonBlank, end);
    hide Scan;
  }

  /** The fields of each data line. */
  function LinesOf(data: seq<string>, delim: Option<char>): seq<seq<string>> {
    if data == [] then [] else [Split(data[0], delim)] + LinesOf(data[1..], delim)
  }

  lemma LinesOfCons(s: string, rest: seq<string>, delim: Option<char>)
    ensures LinesOf([s] + rest, delim) == [Split(s, delim)] + LinesOf(rest, delim)
  {
    assert ([s] + rest)[1..] == rest;
  }

  // --- Delimiter mode: split and join undo each other --------------------------------------

  lemma PiecesMore(s: string, pos: nat, d: char) returns (end: nat)
    requires pos <= |s| && Scan(s, pos, Except(d)) < |s|
    ensures pos <= end < |s| && s[end] == d && d !in s[pos..end]
    ensures Pieces(s, pos, d) == [s[pos..end]] + Pieces(s, end + 1, d)
    ensures CountOf(s[pos..], d) == CountOf(s[end..], d)
  {
    end := Scan(s, pos, Except(d));
    CountOfRun(s, pos, end, d);
  }

  lemma PiecesLast(s: string, pos: nat, d: char)
    requires pos <= |s| && Scan(s, pos, Except(d)) == |s|
    ensures Pieces(s, pos, d) == [s[pos..]] && d !in s[pos..]
    ensures CountOf(s[pos..], d) == 0
  {
    CountOfRun(s, pos, |s|, d);
    assert s[pos..|s|] == s[pos..];
  }

  lemma JoinCons(f: string, fs: seq<string>, d: char)
    ensures Join([f], d) == f
    ensures |fs| > 0 ==> Join([f] + fs, d) == f + [d] + Join(fs, d)
  {
    assert ([f] + fs)[1..] == fs;
  }

  lemma {:induction false} JoinSnoc(fs: seq<string>, x: string, d: char)
    ensures Join(fs + [x], d) == Join(fs, d) + (if fs == [] then "" else [d]) + x
  {
    if |fs| > 1 {
      assert (fs + [x])[1..] == fs[1..] + [x];
      JoinSnoc(fs[1..], x, d);
    } else if |fs| == 1 {
      assert (fs + [x])[1..] == [x];
    }
  }

  lemma {:induction false} JoinPieces(s: string, pos: nat, d: char)
    requires pos <= |s|
    ensures Join(Pieces(s, pos, d), d) == s[pos..]
    ensures |Pieces(s, pos, d)| == CountOf(s[pos..], d) + 1
    decreases |s| - pos
  {
    if Scan(s, pos, Except(d)) == |s| {
      PiecesLast(s, pos, d);
      hide Pieces;
    } else {
      var end := PiecesMore(s, pos, d);
      hide *;
      JoinPieces(s, end + 1, d);
      JoinStep(s, pos, end, d, Pieces(s, end + 1, d));
    }
  }

  lemma JoinStep(s: string, pos: nat, end: nat, d: char, ps: seq<string>)
    requires pos <= end < |s| && s[end] == d && |ps| > 0
    requires Join(ps, d) == s[end + 1..] && |ps| == CountOf(s[end + 1..], d) + 1
    ensures Join([s[pos..end]] + ps, d) == s[pos..]
    ensures |[s[pos..end]] + ps| == CountOf(s[end..], d) + 1
  {
    hide Join, CountOf;
    JoinCons(s[pos..end], ps, d);
    CountOfHead(s[end + 1..], d);
    Cut(s, pos, end);
    assert s[end..] == [d] + s[end + 1..];
  }

  lemma CountOfHead(s: string, d: char)
    ensures CountOf([d] + s, d) == CountOf(s, d) + 1 && CountOf("", d) == 0
  {
    assert ([d] + s)[1..] == s;
  }

  lemma Cut(s: string, pos: nat, end: nat)
    requires pos <= end < |s|
    ensures s[pos..] == s[pos..end] + [s[end]] + s[end + 1..]
  {
  }

  lemma {:induction false} PiecesClean(s: string, pos: nat, d: char)
    requires pos <= |s|
    ensures forall f :: f in Pieces(s, pos, d) ==> d !in f
    decreases |s| - pos
  {
    if Scan(s, pos, Except(d)) == |s| {
      PiecesLast(s, pos, d);
    } else {
      var end := PiecesMore(s, pos, d);
      hide *;
      PiecesClean(s, end + 1, d);
    }
  }

  lemma CountOfRun(s: string, pos: nat, end: nat, d: char)
    requires pos <= end <= |s|
    requires forall k :: pos <= k < end ==> s[k] != d
    ensures CountOf(s[pos..], d) == CountOf(s[end..], d)
    decreases end - pos
  {
    if pos < end {
      assert s[pos..][1..] == s[pos + 1..];
      CountOfRun(s, pos + 1, end, d);
    }
  }

  lemma {:induction false} PiecesJoin(pre: string, fs: seq<string>, d: char)
    requires |fs| > 0
    requires forall f :: f in fs ==> d !in f
    ensures Pieces(pre + Join(fs, d), |pre|, d) == fs
    decreases |fs|
  {
    hide *;
    var f := fs[0];
    if |fs| == 1 {
      assert fs == [f];
      PiecesOne(pre, f, d);
    } else {
      var rest := fs[1..];
      assert fs == [f] + rest;
      JoinCons(f, rest, d);
      PieceFirst(pre, f, [d] + Join(rest, d), d);
      PiecesJoin(pre + f + [d], rest, d);
      Reassociate(pre, f, d, Join(rest, d));
    }
  }

  lemma PiecesOne(pre: string, f: string, d: char)
    requires d !in f
    ensures Pieces(pre + Join([f], d), |pre|, d) == [f]
  {
    hide *;
    JoinCons(f, [], d);
    PieceFirst(pre, f, "", d);
    assert pre + f + "" == pre + f;
  }

  lemma Reassociate(a: string, b: string, d: char, c: string)
    ensures a + (b + [d] + c) == a + b + ([d] + c) == (a + b + [d]) + c
  {
  }

  lemma PieceFirst(pre: string, f: string, rest: string, d: char)
    requires d !in f
    requires rest == "" || rest[0] == d
    ensures Pieces(pre + f + rest, |pre|, d)
         == if rest == "" then [f] else [f] + Pieces(pre + f + rest, |pre| + |f| + 1, d)
  {
    assert AllIn(f, Except(d));
    ScanOver(pre, f, rest, Except(d));
    assert (pre + f + rest)[|pre|..|pre| + |f|] == f;
  }

  /** A line with k delimiters has k + 1 fields, none holds a delimiter, and joined they are the line. */
  lemma JoinSplit(s: string, d: char)
    ensures var fs := Split(s, Some(d));
      && Join(fs, d) == s
      && |fs| == (if s == "" then 0 else CountOf(s, d) + 1)
      && forall f :: f in fs ==> d !in f
  {
    JoinPieces(s, 0, d);
    PiecesClean(s, 0, d);
    assert s[0..] == s;
  }

  /** A list of fields survives being joined and split exactly when no field holds the delimiter
      and the list is not the one empty field (whose line is empty, and an empty line has no field). */
  lemma SplitJoin(fs: seq<string>, d: char)
    ensures Split(Join(fs, d), Some(d)) == fs <==> (fs != [""] && forall f :: f in fs ==> d !in f)
  {
    if |fs| > 0 && (forall f :: f in fs ==> d !in f) {
      PiecesJoin("", fs, d);
      assert "" + Join(fs, d) == Join(fs, d);
    }
    JoinSplit(Join(fs, d), d);
  }

  // --- Blank mode --------------------------------------------------------------------------

  /** Every field but the last is a non-empty word, and the last is empty exactly when the line
      ends in a blank; no field holds a blank. */
  lemma {:induction false} WordsShape(s: string, pos: nat)
    requires pos <= |s|
    ensures var ws := Words(s, pos);
      && (|ws| == 0 <==> pos == |s|)
      && (forall i :: 0 <= i < |ws| ==> AllIn(ws[i], NonBlank))
      && (forall i :: 0 <= i < |ws| - 1 ==> ws[i] != "")
      && (|ws| > 0 ==> (ws[|ws| - 1] == "" <==> IsBlank(s[|s| - 1])))
    decreases |s| - pos
  {
    if pos < |s| {
      var begin := Scan(s, pos, Blank);
      var end := Scan(s, begin, NonBlank);
      WordsShape(s, end);
      assert begin < end ==> NonBlank.Has(s[end - 1]);
      assert pos < begin ==> Blank.Has(s[begin - 1]);
      assert AllIn(s[begin..end], NonBlank);
    }
  }

  /** A word and the blanks before it. */
  datatype Word = Word(blanks: string, text: string)

  /** A line built word by word: only the first word may have no blanks before it. */
  predicate WellSpaced(ws: seq<Word>) {
    forall i :: 0 <= i < |ws| ==>
      && ws[i].text != "" && AllIn(ws[i].text, NonBlank)
      && AllIn(ws[i].blanks, Blank) && (i > 0 ==> ws[i].blanks != "")
  }

  function Lay(ws: seq<Word>, tail: string): string {
    if ws == [] then tail else ws[0].blanks + ws[0].text + Lay(ws[1..], tail)
  }

  function Texts(ws: seq<Word>): seq<string> {
    if ws == [] then [] else [ws[0].text] + Texts(ws[1..])
  }

  /** However much blank space separates the words, the fields are the words in order,
      followed by one empty field when blanks end the line. */
  lemma {:induction false} WordsOfLay(pre: string, ws: seq<Word>, tail: string)
    requires WellSpaced(ws) && AllIn(tail, Blank)
    ensures Words(pre + Lay(ws, tail), |pre|) == Texts(ws) + (if tail == "" then [] else [""])
    decreases |ws|
  {
    if ws == [] {
      if tail != "" {
        WordFirst(pre, tail, "", "");
        Regroup(pre, tail, "", "");
        assert pre + (tail + "" + "") == pre + tail;
      }
    } else {
      var b, w, rest := ws[0].blanks, ws[0].text, Lay(ws[1..], tail);
      LayStartsBlank(ws[1..], tail);
      WordsOfLay(pre + b + w, ws[1..], tail);
      WordFirst(pre, b, w, rest);
      hide Words;
      Regroup(pre, b, w, rest);
    }
  }

  lemma Regroup(a: string, b: string, c: string, e: string)
    ensures a + (b + c + e) == a + b + c + e
  {
  }

  lemma WordFirst(pre: string, b: string, w: string, rest: string)
    requires AllIn(b, Blank) && AllIn(w, NonBlank) && b + w != ""
    requires rest == "" || (w != "" && IsBlank(rest[0]))
    ensures Words(pre + b + w + rest, |pre|) == [w] + Words(pre + b + w + rest, |pre + b + w|)
  {
    hide Words;
    var s := pre + b + w + rest;
    var begin, end := |pre| + |b|, |pre + b + w|;
    assert forall k :: |pre| <= k < begin ==> s[k] == b[k - |pre|];
    assert forall k :: begin <= k < end ==> s[k] == w[k - begin];
    assert forall k :: 0 <= k < |b| ==> Blank.Has(b[k]);
    assert forall k :: 0 <= k < |w| ==> NonBlank.Has(w[k]);
    WordsRound(s, |pre|, begin, end, []);
    assert s[begin..end] == w;
    assert [] + Words(s, |pre|) == Words(s, |pre|) && [] + [w] == [w];
  }

  lemma LayStartsBlank(ws: seq<Word>, tail: string)
    requires WellSpaced(ws) && AllIn(tail, Blank)
    requires |ws| > 0 ==> ws[0].blanks != ""
    ensures Lay(ws, tail) != "" ==> IsBlank(Lay(ws, tail)[0])
  {
    if ws != [] {
      assert Blank.Has(ws[0].blanks[0]);
    } else if tail != "" {
      assert Blank.Has(tail[0]);
    }
  }

  /** Fields hold no character the line does not hold. */
  lemma FieldsWithin(s: string, delim: Option<char>, c: char)
    requires c !in s
    ensures forall f :: f in Split(s, delim) ==> c !in f
  {
    match delim
    case None => WordsWithin(s, 0, c);
    case Some(d) => PiecesWithin(s, 0, d, c);
  }

  lemma {:induction false} WordsWithin(s: string, pos: nat, c: char)
    requires c !in s && pos <= |s|
    ensures forall f :: f in Words(s, pos) ==> c !in f
    decreases |s| - pos
  {
    if pos < |s| {
      WordsWithin(s, Scan(s, Scan(s, pos, Blank), NonBlank), c);
    }
  }

  lemma {:induction false} PiecesWithin(s: string, pos: nat, d: char, c: char)
    requires c !in s && pos <= |s|
    ensures forall f :: f in Pieces(s, pos, d) ==> c !in f
    decreases |s| - pos
  {
    var end := Scan(s, pos, Except(d));
    if end < |s| {
      PiecesWithin(s, end + 1, d, c);
    }
  }

  /** A comment is a line with nothing but blanks before its first '#' or ';'. */
  lemma CommentLine(s: string)
    ensures IsComment(s) <==>
      exists i :: 0 <= i < |s| && (s[i] == '#' || s[i] == ';') && forall k :: 0 <= k < i ==> s[k] == ' ' || s[k] == '\t'
  {
    var i := Scan(s, 0, Blank);
    assert forall k :: 0 <= k < i ==> Blank.Has(s[k]);
    if j :| 0 <= j < |s| && (s[j] == '#' || s[j] == ';') && forall k :: 0 <= k < j ==> s[k] == ' ' || s[k] == '\t' {
      ScanUnique(s, 0, Blank, j);
    }
  }

  /** Every line of the input is read, in order, but the comments when they are skipped. */
  lemma {:induction false} DataLinesSays(before: seq<string>, s: string, after: seq<string>, skip: bool)
    ensures DataLines(before + [s] + after, skip)
         == DataLines(before, skip) + (if skip && IsComment(s) then [] else [s]) + DataLines(after, skip)
  {
    hide IsComment;
    var all := before + [s] + after;
    if before == [] {
      assert all[1..] == after;
    } else {
      assert all[1..] == before[1..] + [s] + after;
      DataLinesSays(before[1..], s, after, skip);
    }
  }

  lemma {:induction false} DataLinesFrom(input: seq<string>, skip: bool)
    ensures forall s :: s in DataLines(input, skip) ==> s in input
  {
    if input != [] {
      DataLinesFrom(input[1..], skip);
    }
  }

  // --- The line record ---------------------------------------------------------------------

  /** struct line_record_t: the buffer of one line, the length recorded for it, and the growable
      table of its fields. Entries of `fields` from numFields on are left over from earlier lines.
      The length is the buffer's own after a read; process_file sets it to zero as a mark. */
  class LineRecord {
    var buffer: string
    var length: nat
    var fields: seq<Slice>
    var numFields: nat

    /** |fields| is alloc_fields. */
    ghost predicate Valid()
      reads this
    {
      && 0 < |fields| && numFields <= |fields|
      && forall i :: 0 <= i < numFields ==> fields[i].start + fields[i].len <= |buffer|
    }

    constructor ()
      ensures Valid() && numFields == 0 && length == 0
    {
      buffer := "";
      length := 0;
      fields := seq(10, _ => Slice(0, 0));
      numFields := 0;
    }

    function Text(f: Slice): string
      requires f.start + f.len <= |buffer|
      reads this
    {
      buffer[f.start..f.start + f.len]
    }

    /** The fields of the record, as text. */
    ghost function Contents(): (fs: seq<string>)
      requires Valid()
      reads this
      ensures |fs| == numFields
    {
      seq(numFields, i requires 0 <= i < numFields && Valid() reads this => Text(fields[i]))
    }

    /** line_record_get_field: fields are numbered from 1. */
    method GetField(n: nat) returns (text: Option<string>)
      requires Valid() && n > 0
      ensures text == if n <= numFields then Some(Contents()[n - 1]) else None
    {
      if numFields < n {
        return None;
      }
      text := Some(Text(fields[n - 1]));
    }

    /** Make room for entry n; the table at least doubles and keeps its entries. */
    method ReserveFields(n: nat)
      requires 0 < |fields| && n <= |fields|
      modifies this`fields
      ensures n < |fields| && old(fields) <= fields
    {
      if |fields| <= n {
        var alloc := MaxOf(n, |fields|) * 2;
        fields := fields + seq(alloc - |fields|, _ => Slice(0, 0));
      }
    }

    /** Append the slice to the first n fields found so far. */
    method AddField(n: nat, f: Slice, ghost done: seq<string>) returns (ghost texts: seq<string>)
      requires 0 < |fields|
      requires f.start + f.len <= |buffer|
      requires Parsed(n, done)
      modifies this`fields
      ensures texts == done + [Text(f)] && Parsed(n + 1, texts)
    {
      ReserveFields(n);
      fields := fields[n := f];
      texts := done + [Text(f)];
    }

    /** The first n entries of the table hold the texts in fs. */
    ghost predicate Parsed(n: nat, fs: seq<string>)
      reads this
    {
      && |fs| == n <= |fields|
      && forall i :: 0 <= i < n ==>
        && fields[i].start + fields[i].len <= |buffer|
        && Text(fields[i]) == fs[i]
    }

    /** line_record_parse_fields, outside vnlog mode. */
    method ParseFields(delim: Option<char>)
      requires 0 < |fields|
      modifies this`fields, this`numFields
      ensures Valid() && Contents() == Split(buffer, delim)
    {
      ghost var texts;
      if delim.Some? {
        texts := ParseDelimited(delim.value);
      } else {
        texts := ParseBlanks();
      }
      assert Contents() == texts;
    }

    method ParseDelimited(d: char) returns (ghost texts: seq<string>)
      requires 0 < |fields|
      modifies this`fields, this`numFields
      ensures Parsed(numFields, texts) && 0 < |fields|
      ensures texts == Split(buffer, Some(d))
    {
      hide Pieces, PiecesLeft;
      PiecesEnds(buffer, d);
      var n, pos, buflen := 0, 0, |buffer|;
      texts := [];
      while buflen > 0 && pos <= buflen
        invariant pos <= buflen + 1 && 0 < |fields|
        invariant Parsed(n, texts)
        invariant PiecesLeft(buffer, 0, d) == texts + PiecesLeft(buffer, pos, d)
        invariant buflen == 0 ==> texts == []
      {
        var begin := pos;
        pos := ToDelimiter(pos, d);
        PiecesRound(buffer, begin, pos, d, texts);
        texts := AddField(n, Slice(begin, pos - begin), texts);
        n := n + 1;
        pos := pos + 1;
      }
      numFields := n;
    }

    /** The inner loop: the next delimiter, or the end of the line. */
    method ToDelimiter(begin: nat, d: char) returns (pos: nat)
      requires begin <= |buffer|
      ensures begin <= pos <= |buffer|
      ensures (forall k :: begin <= k < pos ==> buffer[k] != d) && (pos < |buffer| ==> buffer[pos] == d)
    {
      pos := begin;
      while pos < |buffer| && buffer[pos] != d
        invariant begin <= pos <= |buffer|
        invariant forall k :: begin <= k < pos ==> buffer[k] != d
      {
        pos := pos + 1;
      }
    }

    method ParseBlanks() returns (ghost texts: seq<string>)
      requires 0 < |fields|
      modifies this`fields, this`numFields
      ensures Parsed(numFields, texts) && 0 < |fields|
      ensures texts == Split(buffer, None)
    {
      hide Words;
      WordsEnds(buffer);
      var n, pos, buflen := 0, 0, |buffer|;
      texts := [];
      while pos < buflen
        invariant pos <= buflen && 0 < |fields|
        invariant Parsed(n, texts)
        invariant Split(buffer, None) == texts + Words(buffer, pos)
      {
        ghost var from := pos;
        while pos < buflen && IsBlank(buffer[pos])
          invariant from <= pos <= buflen
          invariant forall k :: from <= k < pos ==> IsBlank(buffer[k])
        {
          pos := pos + 1;
        }
        var begin, len := pos, 0;
        while pos < buflen && !IsBlank(buffer[pos])
          invariant begin <= pos <= buflen && len == pos - begin
          invariant forall k :: begin <= k < pos ==> !IsBlank(buffer[k])
        {
          pos, len := pos + 1, len + 1;
        }
        WordsRound(buffer, from, begin, pos, texts);
        texts := AddField(n, Slice(begin, len), texts);
        n := n + 1;
      }
      numFields := n;
    }

    /** line_record_fread: the next data line of the input from line `at` on. */
    method Fread(input: seq<string>, at: nat, delim: Option<char>, skipComments: bool)
      returns (ok: bool, next: nat)
      requires at <= |input| && Valid()
      modifies this
      ensures Valid() && at <= next <= |input|
      ensures ok <==> DataLines(input[at..], skipComments) != []
      ensures ok ==> at < next
      ensures ok ==> DataLines(input[at..], skipComments) == [buffer] + DataLines(input[next..], skipComments)
      ensures ok ==> Contents() == Split(buffer, delim) && length == |buffer|
    {
      next := at;
      while next < |input|
        invariant at <= next <= |input|
        invariant Valid()
        invariant DataLines(input[at..], skipComments) == DataLines(input[next..], skipComments)
      {
        var line := input[next];
        assert input[next..][1..] == input[next + 1..];
        next := next + 1;
        if !(skipComments && IsComment(line)) {
          buffer := line;
          length := |line|;
          ParseFields(delim);
          return true, next;
        }
      }
      ok := false;
    }

    /** line_record_fread, seen as taking the next of the lines still to come. */
    method ReadNext(input: seq<string>, at: nat, delim: Option<char>, skipComments: bool,
                    ghost rest: seq<seq<string>>)
      returns (more: bool, next: nat)
      requires at <= |input| && Valid()
      requires LinesOf(DataLines(input[at..], skipComments), delim) == rest
      modifies this
      ensures Valid() && at <= next <= |input|
      ensures more <==> rest != []
      ensures more ==> at < next && Contents() == rest[0] && length == |buffer|
      ensures more ==> LinesOf(DataLines(input[next..], skipComments), delim) == rest[1..]
      ensures more ==> buffer in DataLines(input[at..], skipComments) && rest[0] == Split(buffer, delim)
    {
      hide DataLines, Split;
      more, next := Fread(input, at, delim, skipComments);
      if more {
        LinesOfCons(buffer, DataLines(input[next..], skipComments), delim);
      }
    }
  }
}
