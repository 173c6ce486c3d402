/** The group-by column list, -g or after a mode name (parse_mode_column in src/op-parser.c). */
module GroupColumns {
  import opened Text
  import opened Numerals
  import opened OpScanner
  import opened OpParser
  import opened OpPrinter

  const INT_MAX: nat := 0x7FFF_FFFF

  newtype int32 = x: int | -0x8000_0000 <= x <= 0x7FFF_FFFF

  /** The conversion of a scanned value to int. */
  function ToInt(v: nat): (i: int)
    ensures -0x8000_0000 <= i <= INT_MAX
  {
    (v + 0x8000_0000) % 0x1_0000_0000 - 0x8000_0000
  }

  /** What reading group columns comes to: the columns and where the next token is looked for, a
      fatal error, or undefined behaviour, as the int counter of a range overflows. */
  datatype Groups = Read(cols: seq<FieldRef>, next: nat) | Refused | Overflow
  {
    function Outcome(): Outcome {
      match this case Read(_, _) => Done case Refused => Fatal case Overflow => Undefined
    }
  }

  datatype Outcome = Done | Fatal | Undefined

  /** The columns from a to b; none if b is smaller. */
  function ColumnRange(a: nat, b: int): (cs: seq<FieldRef>)
    ensures |cs| == if a <= b then b - a + 1 else 0
    ensures forall i :: 0 <= i < |cs| ==> cs[i] == Number(a + i)
    decreases b - a + 1
  {
    if a <= b then ColumnRange(a, b - 1) + [Number(b)] else []
  }

  /** The loop of parse_mode_column over the range a-b, whose text ends at e. */
  function RangeFrom(a: nat, b: nat, e: nat): Groups {
    var from, to := ToInt(a), ToInt(b);
    if from < 0 || b < from then Refused else if to == INT_MAX then Overflow else Read(ColumnRange(from, to), e)
  }

  /** parse_mode_column: the columns one list item adds, from its first token l on. A number is
      added only after the next token was peeked, which overwrites it if that is a number too. */
  function GroupsFrom(s: string, l: Lexeme): (r: Groups)
    requires Within(s, l)
    ensures r.Read? ==> l.Lexeme? && l.next <= r.next <= |s|
  {
    if l.Invalid? then Refused
    else if l.tok.Identifier? then Read([Named(l.text)], l.next)
    else if l.tok.Integer? && l.value > 0 then
      var m := Scanned(s, l.next, false);
      if m.Invalid? then Refused
      else if m.tok.Dash? then
        var t := Scanned(s, m.next, false);
        if t.Lexeme? && t.tok.Integer? then RangeFrom(l.value, t.value, t.next) else Refused
      else Read([Number(if m.tok.HasValue() then m.value else l.value)], l.next)
    else Refused
  }

  /** parse_mode_column_list: items separated by commas, and no range or pair after them. */
  function MoreGroups(s: string, gs: seq<FieldRef>, p: nat): (r: Groups)
    requires p <= |s|
    ensures r.Read? ==> p <= r.next <= |s|
    decreases |s| - p
  {
    var l := Scanned(s, p, false);
    if l.Invalid? || l.tok.Dash? || l.tok.Colons? then Refused
    else if !l.tok.Comma? then Read(gs, p)
    else
      var r := GroupsFrom(s, Scanned(s, l.next, false));
      if r.Read? then MoreGroups(s, gs + r.cols, r.next) else r
  }

  function GroupListFrom(s: string, l: Lexeme): Groups
    requires Within(s, l)
  {
    var r := GroupsFrom(s, l);
    if r.Read? then MoreGroups(s, r.cols, r.next) else r
  }

  /** What -g makes of its argument. */
  function GroupsOf(s: string): Groups {
    GroupListFrom(s, Scanned(s, 0, false))
  }

  /** A column number that is not the start of a range means itself exactly if no other number
      follows it. */
  lemma NumberMeansItself(s: string, l: Lexeme)
    requires Within(s, l) && l.Lexeme? && l.tok.Integer? && l.value > 0
    requires var m := Scanned(s, l.next, false); m.Lexeme? && !m.tok.Dash?
    ensures var r := GroupsFrom(s, l);
      r.Read? && (r.cols == [Number(l.value)]
        <==> var m := Scanned(s, l.next, false); !m.tok.HasValue() || m.value == l.value)
  {
    hide Scanned;
  }

  lemma OverwriteStep(s: string, l: Lexeme, p: nat, m: nat, q: nat)
    requires l.Lexeme? && l.tok.Integer? && l.value > 0 && l.next == p <= |s|
    requires var t := Scanned(s, p, false); t.Lexeme? && t.tok.Integer? && t.value == m && t.next == q
    ensures Within(s, l) && GroupListFrom(s, l) == Read([Number(m)], p)
  {
    hide Scanned;
  }

  lemma NumberStart(m: nat)
    ensures Decimal(m) != "" && !IsSpace(Decimal(m)[0])
  {
    assert Digit.Has(Decimal(m)[0]);
    hide Decimal;
  }

  /** -g "n m" groups by column m, whatever n is, and leaves m unread: it is as meant only if n is m. */
  lemma OverwrittenColumn(n: nat, m: nat)
    requires 0 < n <= LONG_MAX && m <= LONG_MAX
    ensures var s := Decimal(n) + (" " + Decimal(m));
      && GroupsOf(s) == Read([Number(m)], |Decimal(n)|)
      && (GroupsOf(s).cols == [Number(n)] <==> n == m)
  {
    hide *;
    var (x, y) := (Decimal(n), Decimal(m));
    var (s, p) := (x + (" " + y), |x|);
    AtWhole(s);
    AtConcat(s, 0, x, " " + y);
    AtConcat(s, p, " ", y);
    AtChar(s, p, " ", 0);
    NumberStart(m);
    AtChar(s, p + 1, y, 0);
    AtEnd(s, p + 1);
    CharEnds(s, p);
    EndToken(s);
    StopsEnds(s, |s|);
    NumberToken(s, 0, n, false);
    BlankToken(s, p);
    NumberToken(s, p + 1, m, false);
    OverwriteStep(s, Scanned(s, 0, false), p, m, |s|);
    ListOf(s);
    assert [Number(m)] == [Number(n)] <==> m == n;
  }

  lemma ListOf(s: string)
    ensures Within(s, Scanned(s, 0, false)) && GroupsOf(s) == GroupListFrom(s, Scanned(s, 0, false))
  {
    hide Scanned, GroupListFrom;
  }

  // --- The parser --------------------------------------------------------------------------

  /** dm->grps and the scanner. */
  class GroupParser {
    const scanner: Scanner
    var grps: seq<FieldRef>

    ghost predicate Valid()
      reads this, scanner
    {
      scanner.Valid() && !scanner.keepWhitespace
    }

    ghost predicate At(p: nat)
      reads this, scanner
    {
      Valid() && p <= |scanner.input| && scanner.at == p && scanner.Next() == Scanned(scanner.input, p, false)
    }

    constructor (input: string)
      ensures fresh(scanner) && scanner.input == input && At(0) && grps == []
    {
      scanner := new Scanner(input);
      grps := [];
    }

    method ParseModeColumn() returns (o: Outcome)
      requires Valid()
      modifies scanner, this`grps
      ensures var r := GroupsFrom(scanner.input, old(scanner.Next()));
        && o == r.Outcome()
        && (o.Done? ==> grps == old(grps) + r.cols && At(r.next))
    {
      hide Scanned;
      var tok := scanner.GetToken();
      if tok == Some(Identifier) {
        grps := grps + [Named(scanner.identifier)];
        return Done;
      }
      if tok != Some(Integer) || scanner.valInt == 0 {
        return Fatal;
      }
      var first := scanner.valInt;
      var beginRange: int32 := ToInt(first) as int32;
      tok := scanner.PeekToken();
      if tok.None? {
        return Fatal;
      }
      if tok != Some(Dash) {
        grps := grps + [Number(scanner.valInt)];
        return Done;
      }
      tok := scanner.GetToken();
      tok := scanner.GetToken();
      if tok != Some(Integer) || beginRange < 0 || scanner.valInt < beginRange as nat {
        return Fatal;
      }
      var ok := AddRange(beginRange, ToInt(scanner.valInt) as int32);
      o := if ok then Done else Undefined;
    }

    /** The range loop; it ends in an overflow if the range does not end before INT_MAX. */
    method AddRange(beginRange: int32, endRange: int32) returns (ok: bool)
      requires 0 <= beginRange
      modifies this`grps
      ensures ok == (endRange as int != INT_MAX)
      ensures ok ==> grps == old(grps) + ColumnRange(beginRange as nat, endRange as int)
    {
      var i := beginRange;
      while i <= endRange
        invariant beginRange <= i && (i == beginRange || i - 1 <= endRange)
        invariant grps == old(grps) + ColumnRange(beginRange as nat, i as int - 1)
        decreases endRange as int - i as int
      {
        grps := grps + [Number(i as nat)];
        if i as int == INT_MAX {
          return false;
        }
        i := i + 1;
      }
      ok := true;
    }

    method ParseModeColumnList() returns (o: Outcome)
      requires Valid() && grps == []
      modifies scanner, this`grps
      ensures var r := GroupListFrom(scanner.input, old(scanner.Next()));
        && o == r.Outcome()
        && (o.Done? ==> grps == r.cols && At(r.next))
    {
      hide Scanned, GroupsFrom;
      ghost var input := scanner.input;
      ghost var c := GroupsFrom(input, scanner.Next());
      o := ParseModeColumn();
      if !o.Done? {
        return;
      }
      ghost var here := c.next;
      assert grps == c.cols;
      var tok := scanner.PeekToken();
      while tok == Some(Comma)
        invariant here <= |input| && MoreGroups(input, grps, here) == GroupListFrom(input, old(scanner.Next()))
        invariant tok == TokOf(Scanned(input, here, false))
        invariant tok.Some? ==> At(here)
        decreases |input| - here
      {
        tok := scanner.GetToken();
        c := GroupsFrom(input, scanner.Next());
        o := ParseModeColumn();
        if !o.Done? {
          return;
        }
        here := c.next;
        tok := scanner.PeekToken();
      }
      o := if tok.Some? && tok != Some(Dash) && tok != Some(Colons) then Done else Fatal;
    }
  }

  // --- Lists written with commas -----------------------------------------------------------

  function ShowGroups(gs: seq<FieldRef>): string {
    if gs == [] then "" else "," + (ShowRef(gs[0]) + ShowGroups(gs[1..]))
  }

  lemma GroupRead(s: string, p: nat, g: FieldRef)
    requires GoodRef(g) && Text.At(s, p, ShowRef(g)) && Stops(s, p + |ShowRef(g)|)
    requires !Scanned(s, p + |ShowRef(g)|, false).tok.HasValue()
    ensures GroupsFrom(s, Scanned(s, p, false)) == Read([g], p + |ShowRef(g)|)
  {
    hide *;
    var e := p + |ShowRef(g)|;
    StopsEnds(s, e);
    ScannedWithin(s, p, ShowRef(g));
    RefToken(s, p, g, false);
    GroupStep(s, Scanned(s, p, false), g, e);
  }

  lemma GroupStep(s: string, l: Lexeme, g: FieldRef, e: nat)
    requires Within(s, l) && e <= |s| && SimpleFrom(l) == Some((g, e))
    requires Stops(s, e) && !Scanned(s, e, false).tok.HasValue()
    ensures GroupsFrom(s, l) == Read([g], e)
  {
    hide Scanned, Ends;
  }

  /** A list of columns written with commas, up to the end of the text, is read as written. */
  lemma {:induction false} GroupsRead(s: string, done: seq<FieldRef>, gs: seq<FieldRef>, p: nat)
    requires forall g :: g in gs ==> GoodRef(g)
    requires Text.At(s, p, ShowGroups(gs)) && p + |ShowGroups(gs)| == |s|
    ensures MoreGroups(s, done, p) == Read(done + gs, |s|)
    ensures Stops(s, p) && !Scanned(s, p, false).tok.HasValue()
    decreases |gs|
  {
    hide Scanned, Text.At, Ends, GroupsFrom, Stops, ShowRef, GoodRef;
    if gs == [] {
      EndToken(s);
      assert done + gs == done;
    } else {
      var (g, rest) := (gs[0], ShowGroups(gs[1..]));
      var q := p + 1 + |ShowRef(g)|;
      PunctuationAt(s, p, ',', ShowRef(g) + rest);
      AtConcat(s, p + 1, ShowRef(g), rest);
      GroupsRead(s, done + [g], gs[1..], q);
      GroupRead(s, p + 1, g);
      CommaStops(s, p);
      assert (done + [g]) + gs[1..] == done + gs;
    }
  }

  lemma EndToken(s: string)
    ensures Stops(s, |s|) && Scanned(s, |s|, false) == Lexeme(End, "", 0, |s|)
  {
  }

  lemma CommaStops(s: string, p: nat)
    requires p < |s| && Ends(s, p) && Scanned(s, p, false) == Lexeme(Comma, ",", 0, p + 1)
    ensures Stops(s, p)
  {
    hide Scanned;
  }

  /** -g g1,g2,... groups by exactly those columns. */
  lemma GroupListRead(g: FieldRef, gs: seq<FieldRef>)
    requires GoodRef(g) && forall h :: h in gs ==> GoodRef(h)
    ensures var s := ShowRef(g) + ShowGroups(gs);
      GroupsOf(s) == Read([g] + gs, |s|)
  {
    hide Scanned, GroupsFrom, ShowRef, ShowGroups, MoreGroups, GoodRef, Stops;
    var s := ShowRef(g) + ShowGroups(gs);
    assert s[0..|s|] == s;
    AtConcat(s, 0, ShowRef(g), ShowGroups(gs));
    GroupsRead(s, [g], gs, |ShowRef(g)|);
    GroupRead(s, 0, g);
  }

  // --- Ranges ------------------------------------------------------------------------------

  lemma GroupRangeStep(s: string, l: Lexeme, p: nat, a: nat, b: nat, e: nat)
    requires 0 < a && e <= |s| && p < |s|
    requires l.Lexeme? && l.tok.Integer? && l.value == a && l.next == p
    requires Scanned(s, p, false) == Lexeme(Dash, "-", 0, p + 1)
    requires var t := Scanned(s, p + 1, false); t.Lexeme? && t.tok.Integer? && t.value == b && t.next == e
    ensures GroupsFrom(s, l) == RangeFrom(a, b, e)
  {
    hide Scanned, RangeFrom;
  }

  lemma RangeRead(s: string, p: nat, a: nat, b: nat)
    requires 0 < a <= LONG_MAX && b <= LONG_MAX
    requires Text.At(s, p, Decimal(a) + ("-" + Decimal(b))) && Ends(s, p + |Decimal(a) + ("-" + Decimal(b))|)
    ensures GroupsFrom(s, Scanned(s, p, false)) == RangeFrom(a, b, p + |Decimal(a) + ("-" + Decimal(b))|)
  {
    hide *;
    var (x, y) := (Decimal(a), Decimal(b));
    ScannedWithin(s, p, x + ("-" + y));
    AtConcat(s, p, x, "-" + y);
    PunctuationAt(s, p + |x|, '-', y);
    NumberToken(s, p, a, false);
    NumberToken(s, p + |x| + 1, b, false);
    GroupRangeStep(s, Scanned(s, p, false), p + |x|, a, b, p + |x| + 1 + |y|);
  }

  /** -g a-b, for any two numbers the scanner reads. */
  lemma RangeListRead(a: nat, b: nat)
    requires 0 < a <= LONG_MAX && b <= LONG_MAX
    ensures var s := Decimal(a) + ("-" + Decimal(b)); GroupsOf(s) == RangeFrom(a, b, |s|)
  {
    hide *;
    var s := Decimal(a) + ("-" + Decimal(b));
    AtWhole(s);
    EndToken(s);
    StopsEnds(s, |s|);
    RangeRead(s, 0, a, b);
    ListEnds(s, a, b);
  }

  lemma ListEnds(s: string, a: nat, b: nat)
    requires GroupsFrom(s, Scanned(s, 0, false)) == RangeFrom(a, b, |s|)
    requires Scanned(s, |s|, false) == Lexeme(End, "", 0, |s|)
    ensures GroupsOf(s) == RangeFrom(a, b, |s|)
  {
    hide Scanned, GroupsFrom, ToInt, ColumnRange;
  }

  /** A range adds exactly its columns if and only if it ends before INT_MAX: there the counter
      overflows, and a longer range is cut down by the conversion to int. A range whose end is below
      its start is refused exactly if the start is negative or still above the end as an int. */
  lemma GroupRangeRead(a: nat, b: nat)
    requires 0 < a <= LONG_MAX && b <= LONG_MAX
    ensures var s := Decimal(a) + ("-" + Decimal(b));
      && (a <= b ==> (GroupsOf(s) == Read(ColumnRange(a, b), |s|) <==> b < INT_MAX))
      && (a > b ==> (GroupsOf(s) == Refused <==> ToInt(a) < 0 || ToInt(a) > b))
  {
    hide GroupsOf, Decimal;
    RangeListRead(a, b);
    assert ToInt(b) <= b && (ToInt(b) == b <==> b <= INT_MAX);
    assert ToInt(a) == a <==> a <= INT_MAX;
    if a <= b && ToInt(a) >= 0 && ToInt(b) != INT_MAX {
      hide ToInt;
      var (want, have) := (ColumnRange(a, b), ColumnRange(ToInt(a), ToInt(b)));
      assert |want| == b - a + 1 && want[0] == Number(a);
    }
  }

  /** A column that is overwritten, a range that overflows, one that starts too late, and one that
      ends too late. */
  lemma GroupExamples()
    ensures GroupsOf("1 2") == Read([Number(2)], 1)
    ensures GroupsOf("2147483647-2147483647") == Overflow
    ensures GroupsOf("4294967297-5") == Read([Number(1), Number(2), Number(3), Number(4), Number(5)], 12)
    ensures GroupsOf("1-2147483648") == Read([], 12)
  {
    hide *;
    LongMax();
    ExampleNumbers();
    OverwrittenColumn(1, 2);
    assert "1" + (" " + "2") == "1 2";
    RangeListRead(2147483647, 2147483647);
    assert "2147483647" + ("-" + "2147483647") == "2147483647-2147483647";
    RangeListRead(4294967297, 5);
    assert "4294967297" + ("-" + "5") == "4294967297-5";
    RangeListRead(1, 2147483648);
    assert "1" + ("-" + "2147483648") == "1-2147483648";
    ExampleRanges();
  }

  lemma LongMax()
    ensures LONG_MAX == 0x7FFF_FFFF_FFFF_FFFF
  {
  }

  lemma ExampleNumbers()
    ensures Decimal(1) == "1" && Decimal(2) == "2" && Decimal(5) == "5" && Decimal(2147483647) == "2147483647"
    ensures Decimal(2147483648) == "2147483648" && Decimal(4294967297) == "4294967297"
  {
    hide *;
    OneDigit(1);
    OneDigit(2);
    OneDigit(4);
    OneDigit(5);
    FourDigits(2, 1, 4, 7, 4);
    FourDigits(21474, 8, 3, 6, 4);
    DecimalMore(214748364, 7);
    DecimalMore(214748364, 8);
    FourDigits(4, 2, 9, 4, 9);
    FourDigits(42949, 6, 7, 2, 9);
    DecimalMore(429496729, 7);
    DigitChars();
  }

  lemma ExampleRanges()
    ensures RangeFrom(2147483647, 2147483647, 21) == Overflow
    ensures RangeFrom(4294967297, 5, 12) == Read([Number(1), Number(2), Number(3), Number(4), Number(5)], 12)
    ensures RangeFrom(1, 2147483648, 12) == Read([], 12)
  {
    assert ColumnRange(1, 5) == [Number(1), Number(2), Number(3), Number(4), Number(5)];
  }
}
