/** The syntax of sort keys, F[.C][OPTS][,F[.C][OPTS]], and the key each specification denotes. */
module KeySyntax {
  import opened Text
  import opened Numerals
  import opened KeyCompare
  import opened KeySpec

  /** One end of a key: F, .C and OPTS. */
  datatype Position = Position(field: nat, offset: Option<nat>, flags: string)
  {
    predicate Good() { forall i :: 0 <= i < |flags| ==> IsFlag(flags[i]) }

    function Show(): string { Decimal(field) + (If(offset.Some?, "." + Decimal(Offset())) + flags) }

    /** The offset, zero if none is given. */
    function Offset(): nat { if offset.Some? then offset.value else 0 }
  }

  /** The text of a key with the given ends. */
  function ShowEnds(start: Position, end: Option<Position>): string {
    start.Show() + match end case None => "" case Some(e) => "," + e.Show()
  }

  /** Numbers that do not fit count as the largest that does. */
  function Capped(n: nat): nat { MinOf(n, SIZE_MAX) }

  /** The options set by the flags when opts are set already: a set d keeps i out. */
  function WithFlags(opts: set<char>, flags: string): set<char> {
    set c | c in LETTERS && (c in flags || c in opts) && (c == 'i' ==> 'd' !in flags && 'd' !in opts)
  }

  /** The key the ends denote. Fields and start offsets are counted from 1; an end offset says how
      many characters of the end field belong to the key, and 0 stands for the whole field. */
  function Meant(start: Position, end: Option<Position>): SortKey
    requires start.field > 0 && start.offset != Some(0) && (end.Some? ==> end.value.field > 0)
  {
    var (sword, schar) := (Capped(start.field) - 1, MaxOf(Capped(start.Offset()) - 1, 0));
    var (b, opts) := ('b' in start.flags, WithFlags({}, start.flags));
    match end
    case None => SortKey(Key(sword, schar, SIZE_MAX, 0, b, false), opts)
    case Some(e) =>
      SortKey(Key(sword, schar, Capped(e.field) - 1, Capped(e.Offset()), b, 'b' in e.flags), WithFlags(opts, e.flags))
  }

  // --- Flags -------------------------------------------------------------------------------

  /** The b flag, if it is among the flags. */
  function WithB(pos: Key, flags: string, blanks: BlankType): Key {
    if 'b' in flags then WithBlanks(pos, blanks) else pos
  }

  lemma FirstFlag(f: string, key: SortKey, blanks: BlankType)
    requires f != "" && IsFlag(f[0]) && GoodOpts(key.opts)
    ensures var k := WithFlag(key, f[0], blanks);
      && GoodOpts(k.opts) && WithFlags(k.opts, f[1..]) == WithFlags(key.opts, f)
      && WithB(k.pos, f[1..], blanks) == WithB(key.pos, f, blanks)
  {
    assert f == [f[0]] + f[1..];
  }

  lemma NoFlags(key: SortKey, blanks: BlankType)
    requires GoodOpts(key.opts)
    ensures WithFlags(key.opts, "") == key.opts && WithB(key.pos, "", blanks) == key.pos
  {
  }

  /** set_ordering reads all the flags, whatever their order. */
  lemma {:induction false} FlagsMean(s: string, p: nat, f: string, rest: string, key: SortKey, blanks: BlankType)
    requires At(s, p, f + rest) && p + |f + rest| == |s|
    requires (forall i :: 0 <= i < |f| ==> IsFlag(f[i])) && (rest == "" || rest[0] == ',') && GoodOpts(key.opts)
    ensures OrderingAt(s, p, key, blanks)
         == (SortKey(WithB(key.pos, f, blanks), WithFlags(key.opts, f)), |s| - |rest|)
    decreases |f|
  {
    hide *;
    AtEnd(s, p);
    if f == "" {
      assert f + rest == rest;
      NoFlags(key, blanks);
      FlagsEnd(s, p, rest, key, blanks);
    } else {
      assert f + rest == [f[0]] + (f[1..] + rest);
      AtConcat(s, p, [f[0]], f[1..] + rest);
      AtChar(s, p, [f[0]], 0);
      FirstFlag(f, key, blanks);
      OrderingStep(s, p, key, blanks);
      FlagsMean(s, p + 1, f[1..], rest, WithFlag(key, f[0], blanks), blanks);
    }
  }

  lemma FlagsEnd(s: string, p: nat, rest: string, key: SortKey, blanks: BlankType)
    requires At(s, p, rest) && p + |rest| == |s| && (rest == "" || rest[0] == ',')
    ensures OrderingAt(s, p, key, blanks) == (key, p)
  {
    CommaIsNoFlag();
    if rest != "" {
      AtChar(s, p, rest, 0);
    }
  }

  lemma CommaIsNoFlag()
    ensures !IsFlag(',')
  {
  }

  // --- Positions ---------------------------------------------------------------------------

  lemma FlagsEndNumber(f: string, rest: string)
    requires (forall i :: 0 <= i < |f| ==> IsFlag(f[i])) && (rest == "" || rest[0] == ',')
    ensures NoNumber(f + rest)
  {
    if f != "" {
      assert IsFlag(f[0]) && (f + rest)[0] == f[0];
    }
  }

  /** The numbers of a position, and the flags after them. */
  lemma PositionRead(s: string, p: nat, pos: Position, rest: string)
    requires pos.Good() && (rest == "" || rest[0] == ',')
    requires At(s, p, pos.Show() + rest) && p + |pos.Show() + rest| == |s|
    ensures var (q, r) := (p + |Decimal(pos.field)|, |s| - |pos.flags + rest|);
      && q <= |s| && CountAt(s, p) == Some((Capped(pos.field), q))
      && (q < |s| && s[q] == '.' <==> pos.offset.Some?)
      && (if pos.offset.Some? then CountAt(s, q + 1) == Some((Capped(pos.Offset()), r)) else q == r)
      && 0 <= r <= |s| && At(s, r, pos.flags + rest)
  {
    hide IsFlag, At, CountAt, Decimal, If, NoNumber;
    FlagsEndNumber(pos.flags, rest);
    NoNumberMeans(pos.flags + rest);
    var (n, t) := (Decimal(pos.field), If(pos.offset.Some?, "." + Decimal(pos.Offset())));
    assert n + (t + pos.flags) + rest == n + (t + (pos.flags + rest));
    DottedRead(s, p, pos.field, pos.offset.Some?, pos.Offset(), pos.flags + rest);
  }

  lemma GoodFlags(pos: Position)
    requires pos.Good()
    ensures forall i :: 0 <= i < |pos.flags| ==> IsFlag(pos.flags[i])
  {
  }

  lemma NoOpts()
    ensures GoodOpts({})
  {
  }

  /** What is read before the comma. */
  lemma StartMeans(s: string, start: Position, rest: string)
    requires start.Good() && (rest == "" || rest[0] == ',') && s == start.Show() + rest
    ensures StartAt(s, 0) ==
      if start.field == 0 || start.offset == Some(0) then None else
      var k := WithStart(Capped(start.field) - 1, MaxOf(Capped(start.Offset()) - 1, 0)).pos;
      Some((SortKey(WithB(k, start.flags, Start), WithFlags({}, start.flags)), |s| - |rest|))
  {
    hide IsFlag, At, CountAt, GoodOpts, WithFlags, WithB, OrderingAt, Position.Good, Position.Show;
    AtWhole(s);
    PositionRead(s, 0, start, rest);
    GoodFlags(start);
    NoOpts();
    if start.field > 0 && start.offset != Some(0) {
      var key := WithStart(Capped(start.field) - 1, MaxOf(Capped(start.Offset()) - 1, 0));
      FlagsMean(s, |s| - |start.flags + rest|, start.flags, rest, key, Start);
    }
  }

  /** What is read after it. */
  lemma EndMeans(s: string, p: nat, end: Position, key: SortKey)
    requires end.Good() && At(s, p, end.Show()) && p + |end.Show()| == |s| && key.pos.echar == 0 && GoodOpts(key.opts)
    ensures EndAt(s, p, key) ==
      if end.field == 0 then None else
      var k := WithEnd(key, Capped(end.field) - 1, Capped(end.Offset()));
      Some((SortKey(WithB(k.pos, end.flags, End), WithFlags(key.opts, end.flags)), |s|))
  {
    hide IsFlag, At, CountAt, GoodOpts, WithFlags, WithB, OrderingAt, Position.Good, Position.Show;
    assert end.Show() + "" == end.Show() && end.flags + "" == end.flags;
    PositionRead(s, p, end, "");
    GoodFlags(end);
    if end.field > 0 {
      var k := WithEnd(key, Capped(end.field) - 1, Capped(end.Offset()));
      FlagsMean(s, |s| - |end.flags|, end.flags, "", k, End);
    }
  }

  // --- Keys --------------------------------------------------------------------------------

  /** The key the ends make, piece by piece. */
  lemma MeantParts(start: Position, end: Option<Position>)
    requires start.field > 0 && start.offset != Some(0) && (end.Some? ==> end.value.field > 0)
    ensures var k := WithStart(Capped(start.field) - 1, MaxOf(Capped(start.Offset()) - 1, 0)).pos;
      var key := SortKey(WithB(k, start.flags, Start), WithFlags({}, start.flags));
      && key.pos.echar == 0 && GoodOpts(key.opts)
      && (end.None? ==> Finished(WithEnd(key, SIZE_MAX, 0)) == Meant(start, end))
      && (end.Some? ==>
            var e := end.value;
            var whole := WithEnd(key, Capped(e.field) - 1, Capped(e.Offset()));
            Finished(SortKey(WithB(whole.pos, e.flags, End), WithFlags(key.opts, e.flags))) == Meant(start, end))
  {
  }

  /** parse_sort_key_arg reads every specification, with any options in any order, as the key it
      denotes, and refuses it exactly if a field or the start offset is zero. */
  lemma SpecificationRead(start: Position, end: Option<Position>)
    requires start.Good() && (end.Some? ==> end.value.Good())
    ensures var s := ShowEnds(start, end);
      KeyAt(s) ==
        if start.field == 0 || start.offset == Some(0) || (end.Some? && end.value.field == 0) then None
        else Some((Meant(start, end), |s|))
  {
    hide *;
    var s := ShowEnds(start, end);
    EndsText(start, end);
    match end {
      case None =>
        StartMeans(s, start, "");
        if start.field > 0 && start.offset != Some(0) {
          MeantParts(start, end);
          var key := StartAt(s, 0).value.0;
          KeyStep(s, key, |s|);
        } else {
          NoStart(s);
        }
      case Some(e) =>
        StartMeans(s, start, "," + e.Show());
        if start.field > 0 && start.offset != Some(0) {
          var (key, p) := StartAt(s, 0).value;
          CommaThen(s, start.Show(), e.Show());
          FirstParts(start);
          EndMeans(s, p + 1, e, key);
          KeyStep(s, key, p);
          if e.field > 0 {
            MeantParts(start, end);
          } else {
            NoEnd(s, key, p);
          }
        } else {
          NoStart(s);
        }
    }
  }

  lemma EndsText(start: Position, end: Option<Position>)
    ensures var s := ShowEnds(start, end);
      && (end.None? ==> s == start.Show() + "")
      && (end.Some? ==> s == start.Show() + ("," + end.value.Show()))
  {
    hide Position.Show;
  }

  lemma FirstParts(start: Position)
    requires start.field > 0 && start.offset != Some(0)
    ensures var k := WithStart(Capped(start.field) - 1, MaxOf(Capped(start.Offset()) - 1, 0)).pos;
      var key := SortKey(WithB(k, start.flags, Start), WithFlags({}, start.flags));
      key.pos.echar == 0 && GoodOpts(key.opts)
  {
  }

  lemma CommaThen(s: string, a: string, b: string)
    requires s == a + ("," + b)
    ensures |a| < |s| && |s| - |"," + b| == |a| && s[|a|] == ',' && At(s, |a| + 1, b) && |a| + 1 + |b| == |s|
  {
    assert s[|a| + 1..] == b;
  }

  lemma NoStart(s: string)
    requires StartAt(s, 0) == None
    ensures KeyAt(s) == None
  {
    hide StartAt;
  }

  lemma NoEnd(s: string, key: SortKey, p: nat)
    requires p < |s| && s[p] == ',' && StartAt(s, 0) == Some((key, p)) && EndAt(s, p + 1, key) == None
    ensures KeyAt(s) == None
  {
    hide StartAt, EndAt;
  }
}
