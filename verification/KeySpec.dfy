/** Sort key specifications: parsing -k arguments (src/decorate.c, parse_sort_key_arg; src/key-compare.c,
    parse_field_count and set_ordering) and printing them again for sort (debug_keyfield). */
module KeySpec {
  import opened Text
  import opened Numerals
  import opened KeyCompare
  import KeyShift

  /** The ordering flags other than b, in the order debug_keyfield prints them. */
  const LETTERS: string := "dfghiMnRrV"

  /** struct keyfield without the conversion: the positions and b flags, and the letters of the
      other flags that are set. The flags d and i share the field `ignore`. */
  datatype SortKey = SortKey(pos: Key, opts: set<char>)
  {
    /** The keys parse_sort_key_arg can produce. */
    predicate Valid() {
      && pos.sword < SIZE_MAX && pos.schar < SIZE_MAX && pos.echar <= SIZE_MAX
      && (pos.eword < SIZE_MAX || (pos.eword == SIZE_MAX && pos.echar == 0 && !pos.skipeblanks))
      && GoodOpts(opts)
    }
  }

  predicate GoodOpts(opts: set<char>) {
    (forall c :: c in opts ==> c in LETTERS) && !('d' in opts && 'i' in opts)
  }

  /** key_init. */
  const INITIAL: SortKey := SortKey(Key(0, 0, SIZE_MAX, 0, false, false), {})

  datatype BlankType = Start | End

  // --- Parsing -----------------------------------------------------------------------------

  /** parse_field_count: xstrtoumax accepts blanks and a plus sign in front; a number that is too
      large counts as SIZE_MAX. */
  function CountAt(s: string, pos: nat): (r: Option<(nat, nat)>)
    requires pos <= |s|
    ensures r.Some? ==> r.value.0 <= SIZE_MAX && pos < r.value.1 <= |s|
  {
    var b := Scan(s, pos, Space);
    var p := if b < |s| && s[b] == '+' then b + 1 else b;
    var e := Scan(s, p, Digit);
    if e == p then None else Some((MinOf(DigitsValue(s[p..e]), SIZE_MAX), e))
  }

  predicate IsFlag(c: char) { c == 'b' || c in LETTERS }

  /** One flag; i does not override d. */
  function WithFlag(key: SortKey, c: char, blanks: BlankType): SortKey {
    if c == 'b' then SortKey(WithBlanks(key.pos, blanks), key.opts)
    else SortKey(key.pos, WithOpt(key.opts, c))
  }

  function WithBlanks(pos: Key, blanks: BlankType): Key {
    if blanks.Start? then pos.(skipsblanks := true) else pos.(skipeblanks := true)
  }

  function WithOpt(opts: set<char>, c: char): set<char> {
    if c == 'd' then opts - {'i'} + {'d'} else if c == 'i' && 'd' in opts then opts else opts + {c}
  }

  /** set_ordering. */
  function OrderingAt(s: string, pos: nat, key: SortKey, blanks: BlankType): (r: (SortKey, nat))
    requires pos <= |s|
    ensures pos <= r.1 <= |s|
    decreases |s| - pos
  {
    if pos == |s| || !IsFlag(s[pos]) then (key, pos) else OrderingAt(s, pos + 1, WithFlag(key, s[pos], blanks), blanks)
  }

  /** A key that starts with the line gets the start word SIZE_MAX until the end of the parse. */
  function WithStart(sword: nat, schar: nat): SortKey {
    INITIAL.(pos := INITIAL.pos.(sword := if sword == 0 && schar == 0 then SIZE_MAX else sword, schar := schar))
  }

  function Finished(key: SortKey): SortKey {
    if key.pos.sword == SIZE_MAX then key.(pos := key.pos.(sword := 0)) else key
  }

  /** The part of parse_sort_key_arg before the comma; None is a fatal error. */
  function StartAt(s: string, pos: nat): (r: Option<(SortKey, nat)>)
    requires pos <= |s|
    ensures r.Some? ==> r.value.1 <= |s|
  {
    match CountAt(s, pos)
    case None => None
    case Some((sword, p)) =>
      if sword == 0 then None
      else if p < |s| && s[p] == '.' then
        match CountAt(s, p + 1)
        case None => None
        case Some((schar, q)) =>
          if schar == 0 then None else Some(OrderingAt(s, q, WithStart(sword - 1, schar - 1), Start))
      else Some(OrderingAt(s, p, WithStart(sword - 1, 0), Start))
  }

  function WithEnd(key: SortKey, eword: nat, echar: nat): SortKey {
    key.(pos := key.pos.(eword := eword, echar := echar))
  }

  /** The part after the comma. */
  function EndAt(s: string, pos: nat, key: SortKey): (r: Option<(SortKey, nat)>)
    requires pos <= |s|
    ensures r.Some? ==> r.value.1 <= |s|
  {
    match CountAt(s, pos)
    case None => None
    case Some((eword, p)) =>
      if eword == 0 then None
      else if p < |s| && s[p] == '.' then
        match CountAt(s, p + 1)
        case None => None
        case Some((echar, q)) => Some(OrderingAt(s, q, WithEnd(key, eword - 1, echar), End))
      else Some(OrderingAt(s, p, WithEnd(key, eword - 1, key.pos.echar), End))
  }

  /** parse_sort_key_arg: the key, and where its text ends. */
  function KeyAt(s: string): (r: Option<(SortKey, nat)>)
    ensures r.Some? ==> r.value.1 <= |s|
  {
    match StartAt(s, 0)
    case None => None
    case Some((key, p)) =>
      if p < |s| && s[p] == ',' then
        match EndAt(s, p + 1, key)
        case None => None
        case Some((whole, q)) => Some((Finished(whole), q))
      else Some((Finished(WithEnd(key, SIZE_MAX, 0)), p))
  }

  // --- The loops ---------------------------------------------------------------------------

  method ParseFieldCount(s: string, pos: nat) returns (r: Option<(nat, nat)>)
    requires pos <= |s|
    ensures r == CountAt(s, pos)
  {
    hide Scan, DigitsValue;
    var p := ScanTo(s, pos, |s|, Space);
    assert s[..|s|] == s;
    if p < |s| && s[p] == '+' {
      p := p + 1;
    }
    var e := ScanTo(s, p, |s|, Digit);
    r := if e == p then None else Some((MinOf(DigitsValue(s[p..e]), SIZE_MAX), e));
  }

  method SetOrdering(s: string, pos: nat, key: SortKey, blanks: BlankType) returns (changed: SortKey, end: nat)
    requires pos <= |s|
    ensures (changed, end) == OrderingAt(s, pos, key, blanks)
  {
    hide WithFlag;
    changed, end := key, pos;
    while end < |s| && IsFlag(s[end])
      invariant pos <= end <= |s| && OrderingAt(s, end, changed, blanks) == OrderingAt(s, pos, key, blanks)
    {
      changed := WithFlag(changed, s[end], blanks);
      end := end + 1;
    }
  }

  /** parse_sort_key_arg. */
  method ParseSortKeyArg(s: string) returns (r: Option<(SortKey, nat)>)
    ensures r == KeyAt(s)
  {
    hide CountAt, OrderingAt;
    var start := ParseStart(s);
    if start.None? {
      return None;
    }
    var (key, p) := start.value;
    if p == |s| || s[p] != ',' {
      key := key.(pos := key.pos.(eword := SIZE_MAX, echar := 0));
    } else {
      var end := ParseEnd(s, p + 1, key);
      if end.None? {
        return None;
      }
      key, p := end.value.0, end.value.1;
    }
    if key.pos.sword == SIZE_MAX {
      key := key.(pos := key.pos.(sword := 0));
    }
    r := Some((key, p));
  }

  /** POS1. */
  method ParseStart(s: string) returns (r: Option<(SortKey, nat)>)
    ensures r == StartAt(s, 0)
  {
    hide CountAt, OrderingAt;
    var key := INITIAL;
    var c := ParseFieldCount(s, 0);
    if c.None? || c.value.0 == 0 {
      return None;
    }
    key := key.(pos := key.pos.(sword := c.value.0 - 1));
    var p := c.value.1;
    if p < |s| && s[p] == '.' {
      c := ParseFieldCount(s, p + 1);
      if c.None? || c.value.0 == 0 {
        return None;
      }
      key := key.(pos := key.pos.(schar := c.value.0 - 1));
      p := c.value.1;
    }
    if !(key.pos.sword != 0 || key.pos.schar != 0) {
      key := key.(pos := key.pos.(sword := SIZE_MAX));
    }
    key, p := SetOrdering(s, p, key, Start);
    r := Some((key, p));
  }

  /** POS2. */
  method ParseEnd(s: string, pos: nat, start: SortKey) returns (r: Option<(SortKey, nat)>)
    requires pos <= |s|
    ensures r == EndAt(s, pos, start)
  {
    hide CountAt, OrderingAt;
    var key := start;
    var c := ParseFieldCount(s, pos);
    if c.None? || c.value.0 == 0 {
      return None;
    }
    key := key.(pos := key.pos.(eword := c.value.0 - 1));
    var p := c.value.1;
    if p < |s| && s[p] == '.' {
      c := ParseFieldCount(s, p + 1);
      if c.None? {
        return None;
      }
      key := key.(pos := key.pos.(echar := c.value.0));
      p := c.value.1;
    }
    key, p := SetOrdering(s, p, key, End);
    r := Some((key, p));
  }

  // --- The keys that can be given ----------------------------------------------------------

  /** The flags do not touch the positions; those before the comma leave the end alone. */
  predicate SamePositions(a: Key, b: Key, blanks: BlankType) {
    a.sword == b.sword && a.schar == b.schar && a.eword == b.eword && a.echar == b.echar
    && (blanks.Start? ==> a.skipeblanks == b.skipeblanks)
  }

  lemma FlagKeeps(key: SortKey, c: char, blanks: BlankType)
    requires IsFlag(c)
    ensures SamePositions(WithFlag(key, c, blanks).pos, key.pos, blanks)
    ensures GoodOpts(key.opts) ==> GoodOpts(WithFlag(key, c, blanks).opts)
  {
  }

  lemma {:induction false} OrderingKeeps(s: string, pos: nat, key: SortKey, blanks: BlankType)
    requires pos <= |s|
    ensures SamePositions(OrderingAt(s, pos, key, blanks).0.pos, key.pos, blanks)
    ensures GoodOpts(key.opts) ==> GoodOpts(OrderingAt(s, pos, key, blanks).0.opts)
    decreases |s| - pos
  {
    hide WithFlag, IsFlag, GoodOpts;
    if pos < |s| && IsFlag(s[pos]) {
      FlagKeeps(key, s[pos], blanks);
      OrderingKeeps(s, pos + 1, WithFlag(key, s[pos], blanks), blanks);
    }
  }

  lemma StartValid(s: string)
    ensures var r := StartAt(s, 0); r.Some? ==> GoodOpts(r.value.0.opts)
    ensures var r := StartAt(s, 0); r.Some? ==>
      var k := r.value.0.pos;
      (k.sword < SIZE_MAX || (k.sword == SIZE_MAX && k.schar == 0)) && k.schar < SIZE_MAX
      && k.eword == SIZE_MAX && k.echar == 0 && !k.skipeblanks
  {
    hide CountAt, OrderingAt;
    var c := CountAt(s, 0);
    if c.Some? && c.value.0 > 0 {
      var p := c.value.1;
      OrderingKeeps(s, p, WithStart(c.value.0 - 1, 0), Start);
      if p < |s| && s[p] == '.' {
        var d := CountAt(s, p + 1);
        if d.Some? && d.value.0 > 0 {
          OrderingKeeps(s, d.value.1, WithStart(c.value.0 - 1, d.value.0 - 1), Start);
        }
      }
    }
  }

  lemma EndValid(s: string, pos: nat, key: SortKey)
    requires pos <= |s| && key.pos.echar == 0
    ensures var r := EndAt(s, pos, key); r.Some? && GoodOpts(key.opts) ==> GoodOpts(r.value.0.opts)
    ensures var r := EndAt(s, pos, key); r.Some? ==>
      var k := r.value.0.pos;
      k.sword == key.pos.sword && k.schar == key.pos.schar && k.eword < SIZE_MAX && k.echar <= SIZE_MAX
  {
    hide CountAt, OrderingAt;
    var c := CountAt(s, pos);
    if c.Some? && c.value.0 > 0 {
      var p := c.value.1;
      OrderingKeeps(s, p, WithEnd(key, c.value.0 - 1, 0), End);
      if p < |s| && s[p] == '.' {
        var d := CountAt(s, p + 1);
        if d.Some? {
          OrderingKeeps(s, d.value.1, WithEnd(key, c.value.0 - 1, d.value.0), End);
        }
      }
    }
  }

  /** Every parsed key is valid. */
  lemma ParsedIsValid(s: string)
    ensures KeyAt(s).Some? ==> KeyAt(s).value.0.Valid()
  {
    hide StartAt, EndAt;
    StartValid(s);
    var r := StartAt(s, 0);
    if r.Some? && r.value.1 < |s| {
      EndValid(s, r.value.1 + 1, r.value.0);
    }
  }

  // --- Printing ----------------------------------------------------------------------------

  function If(present: bool, text: string): string {
    if present then text else ""
  }

  /** The letters that are in opts. */
  function Flags(letters: string, opts: set<char>): string {
    if letters == "" then "" else If(letters[0] in opts, [letters[0]]) + Flags(letters[1..], opts)
  }

  /** What debug_keyfield prints after "-k". */
  function Show(key: SortKey): string {
    Decimal(key.pos.sword + 1)
    + (If(key.pos.schar != 0, "." + Decimal(key.pos.schar + 1))
    + (If(key.pos.skipsblanks, "b") + ShowTail(key)))
  }

  function ShowTail(key: SortKey): string {
    If(key.pos.eword != SIZE_MAX, "," + Decimal(key.pos.eword + 1))
    + (If(key.pos.eword != SIZE_MAX && key.pos.echar != 0, "." + Decimal(key.pos.echar))
    + (If(key.pos.skipeblanks, "b") + Flags(LETTERS, key.opts)))
  }

  /** debug_keyfield, of a key without conversion. */
  method DebugKeyField(key: SortKey) returns (buf: string)
    ensures buf == "-k" + Show(key)
  {
    var head := PrintStart(key.pos);
    var tail := PrintEnd(key.pos);
    var flags := PrintFlags(key.opts);
    buf := "-k" + head + tail + flags;
    hide *;
    ShowJoined(key);
  }

  /** The parts of the output, joined as they are printed. */
  function ShowStart(pos: Key): string {
    Decimal(pos.sword + 1) + If(pos.schar != 0, "." + Decimal(pos.schar + 1)) + If(pos.skipsblanks, "b")
  }

  function ShowEnd(pos: Key): string {
    If(pos.eword != SIZE_MAX, "," + Decimal(pos.eword + 1))
    + If(pos.eword != SIZE_MAX && pos.echar != 0, "." + Decimal(pos.echar)) + If(pos.skipeblanks, "b")
  }

  lemma ShowJoined(key: SortKey)
    ensures "-k" + ShowStart(key.pos) + ShowEnd(key.pos) + Flags(LETTERS, key.opts) == "-k" + Show(key)
  {
    hide Decimal, Flags, If;
    var pos := key.pos;
    JoinParts("-k", Decimal(pos.sword + 1), If(pos.schar != 0, "." + Decimal(pos.schar + 1)), If(pos.skipsblanks, "b"),
              If(pos.eword != SIZE_MAX, "," + Decimal(pos.eword + 1)),
              If(pos.eword != SIZE_MAX && pos.echar != 0, "." + Decimal(pos.echar)), If(pos.skipeblanks, "b"),
              Flags(LETTERS, key.opts));
  }

  lemma JoinParts(z: string, a: string, b: string, c: string, d: string, e: string, f: string, g: string)
    ensures z + (a + b + c) + (d + e + f) + g == z + (a + (b + (c + (d + (e + (f + g))))))
  {
    Associate("", d, e, f, g);
    JoinFront(z, a, b, c, d + e + f, g);
  }

  lemma JoinFront(z: string, a: string, b: string, c: string, d: string, g: string)
    ensures z + (a + b + c) + d + g == z + (a + (b + (c + (d + g))))
  {
  }

  method PrintStart(pos: Key) returns (buf: string)
    ensures buf == ShowStart(pos)
  {
    hide Decimal;
    buf := Decimal(pos.sword + 1);
    if pos.schar != 0 {
      buf := buf + ("." + Decimal(pos.schar + 1));
    }
    if pos.skipsblanks {
      buf := buf + "b";
    }
  }

  method PrintEnd(pos: Key) returns (buf: string)
    ensures buf == ShowEnd(pos)
  {
    hide Decimal;
    buf := "";
    if pos.eword != SIZE_MAX {
      buf := buf + ("," + Decimal(pos.eword + 1));
      if pos.echar != 0 {
        buf := buf + ("." + Decimal(pos.echar));
      }
    }
    if pos.skipeblanks {
      buf := buf + "b";
    }
  }

  lemma Associate(a: string, b: string, c: string, d: string, e: string)
    ensures (((a + b) + c) + d) + e == a + (b + (c + (d + e)))
  {
  }

  method PrintFlags(opts: set<char>) returns (p: string)
    ensures p == Flags(LETTERS, opts)
  {
    p := "";
    var i := 0;
    assert LETTERS[0..] == LETTERS;
    while i < |LETTERS|
      invariant 0 <= i <= |LETTERS| && p + Flags(LETTERS[i..], opts) == Flags(LETTERS, opts)
    {
      FlagsStep(i, opts, p);
      if LETTERS[i] in opts {
        p := p + [LETTERS[i]];
      }
      i := i + 1;
    }
    assert p + "" == p;
  }

  lemma FlagsStep(i: nat, opts: set<char>, p: string)
    requires i < |LETTERS|
    ensures p + Flags(LETTERS[i..], opts) == (if LETTERS[i] in opts then p + [LETTERS[i]] else p) + Flags(LETTERS[i + 1..], opts)
  {
    var t := LETTERS[i..];
    assert t[1..] == LETTERS[i + 1..];
  }

  // --- Reading what was printed ------------------------------------------------------------

  lemma ScanAt(s: string, p: nat, t: string, cls: CharClass)
    requires At(s, p, t) && AllIn(t, cls)
    requires var e := p + |t|; e == |s| || (e < |s| && !cls.Has(s[e]))
    ensures Scan(s, p, cls) == p + |t|
  {
    forall k | p <= k < p + |t| ensures cls.Has(s[k]) {
      AtChar(s, p, t, k - p);
    }
    ScanUnique(s, p, cls, p + |t|);
  }

  /** A number, after any blanks and a plus sign, counts as its value, or SIZE_MAX if it is larger. */
  lemma CountMeans(s: string, p: nat, blanks: string, sign: string, n: nat)
    requires AllIn(blanks, Space) && (sign == "" || sign == "+")
    requires At(s, p, blanks + (sign + Decimal(n)))
    requires var e := p + |blanks + (sign + Decimal(n))|; e == |s| || (e < |s| && !IsDigit(s[e]))
    ensures CountAt(s, p) == Some((MinOf(n, SIZE_MAX), p + |blanks + (sign + Decimal(n))|))
  {
    hide *;
    var t := Decimal(n);
    var (b, d) := (p + |blanks|, p + |blanks| + |sign|);
    AtConcat(s, p, blanks, sign + t);
    AtConcat(s, b, sign, t);
    AtEnd(s, p);
    NotDigit(s, d, t);
    AtChar(s, d, t, 0);
    if sign != "" {
      AtChar(s, b, sign, 0);
    }
    ScanAt(s, p, blanks, Space);
    ScanAt(s, d, t, Digit);
    DecimalValue(n);
    TextAt(s, d, t);
    CountStep(s, p, b, d, d + |t|, n);
  }

  /** A number starts with a digit, and only digits are in the class. */
  lemma NotDigit(s: string, d: nat, t: string)
    requires t != "" && AllIn(t, Digit)
    ensures IsDigit(t[0]) && !Space.Has(t[0]) && t[0] != '+' && !Space.Has('+')
    ensures forall x: char :: Digit.Has(x) <==> IsDigit(x)
  {
    assert Digit.Has(t[0]);
  }

  lemma TextAt(s: string, d: nat, t: string)
    requires At(s, d, t)
    ensures d + |t| <= |s| && s[d..d + |t|] == t
  {
  }

  lemma CountStep(s: string, p: nat, b: nat, d: nat, e: nat, n: nat)
    requires p <= b <= d < e <= |s| && Scan(s, p, Space) == b && Scan(s, d, Digit) == e
    requires d == if b < |s| && s[b] == '+' then b + 1 else b
    requires AllIn(s[d..e], Digit) && DigitsValue(s[d..e]) == n
    ensures CountAt(s, p) == Some((MinOf(n, SIZE_MAX), e))
  {
    hide Scan, DigitsValue;
  }

  lemma CountRead(s: string, p: nat, n: nat)
    requires At(s, p, Decimal(n))
    requires var e := p + |Decimal(n)|; e == |s| || (e < |s| && !IsDigit(s[e]))
    ensures CountAt(s, p) == Some((MinOf(n, SIZE_MAX), p + |Decimal(n)|))
  {
    hide *;
    assert "" + ("" + Decimal(n)) == Decimal(n);
    NothingIn(Space);
    CountMeans(s, p, "", "", n);
  }

  lemma NothingIn(cls: CharClass)
    ensures AllIn("", cls)
  {
  }

  lemma SmallCount(n: nat)
    ensures n <= SIZE_MAX ==> MinOf(n, SIZE_MAX) == n
  {
  }

  /** A number and what may follow it: a second number after a dot. */
  lemma DottedRead(s: string, p: nat, n: nat, present: bool, m: nat, rest: string)
    requires At(s, p, Decimal(n) + (If(present, "." + Decimal(m)) + rest))
    requires p + |Decimal(n) + (If(present, "." + Decimal(m)) + rest)| == |s|
    requires rest == "" || (!IsDigit(rest[0]) && rest[0] != '.')
    ensures var q := p + |Decimal(n)|;
      && q <= |s| && CountAt(s, p) == Some((MinOf(n, SIZE_MAX), q))
      && (q < |s| && s[q] == '.' <==> present)
      && (present ==> CountAt(s, q + 1) == Some((MinOf(m, SIZE_MAX), |s| - |rest|)))
      && (!present ==> q == |s| - |rest|)
      && At(s, |s| - |rest|, rest)
  {
    var t := If(present, "." + Decimal(m));
    var q := p + |Decimal(n)|;
    hide Decimal, At, CountAt;
    AtConcat(s, p, Decimal(n), t + rest);
    AtConcat(s, q, t, rest);
    if present {
      AtConcat(s, q, ".", Decimal(m));
      AtChar(s, q, ".", 0);
    }
    if rest != "" {
      AtChar(s, |s| - |rest|, rest, 0);
    }
    CountRead(s, p, n);
    if present {
      CountRead(s, q + 1, m);
    }
  }

  function Blanked(key: SortKey, present: bool, blanks: BlankType): SortKey {
    if present then SortKey(WithBlanks(key.pos, blanks), key.opts) else key
  }

  lemma BlankFlagRead(s: string, p: nat, present: bool, rest: string, key: SortKey, blanks: BlankType)
    requires At(s, p, If(present, "b") + rest) && p + |If(present, "b") + rest| == |s|
    ensures At(s, |s| - |rest|, rest)
    ensures OrderingAt(s, p, key, blanks) == OrderingAt(s, |s| - |rest|, Blanked(key, present, blanks), blanks)
  {
    hide At, WithBlanks;
    AtConcat(s, p, If(present, "b"), rest);
    if present {
      AtChar(s, p, "b", 0);
    }
  }

  function InBoth(letters: string, opts: set<char>): set<char> {
    set c | c in letters && c in opts
  }

  lemma {:induction false} FlagsRead(s: string, p: nat, i: nat, opts: set<char>, key: SortKey, blanks: BlankType)
    requires i <= |LETTERS| && At(s, p, Flags(LETTERS[i..], opts)) && p + |Flags(LETTERS[i..], opts)| == |s|
    requires key.opts == InBoth(LETTERS[..i], opts) && !('d' in opts && 'i' in opts)
    ensures OrderingAt(s, p, key, blanks) == (SortKey(key.pos, InBoth(LETTERS, opts)), |s|)
    decreases |LETTERS| - i
  {
    hide *;
    FlagsUnfold(i, opts);
    if i == |LETTERS| {
      AtEnd(s, p);
      OrderingEnds(s, key, blanks);
      assert LETTERS[..i] == LETTERS;
    } else {
      var (c, rest) := (LETTERS[i], Flags(LETTERS[i + 1..], opts));
      NextOpt(i, opts);
      IfText(c in opts, [c], rest);
      if c in opts {
        AtConcat(s, p, [c], rest);
        AtChar(s, p, [c], 0);
        AtEnd(s, p + 1);
        FlagAdds(key, c, i, opts, blanks);
        OrderingStep(s, p, key, blanks);
        FlagsRead(s, p + 1, i + 1, opts, WithFlag(key, c, blanks), blanks);
      } else {
        FlagsRead(s, p, i + 1, opts, key, blanks);
      }
    }
  }

  lemma IfText(present: bool, text: string, rest: string)
    ensures If(present, text) + rest == if present then text + rest else rest
  {
  }

  lemma OrderingEnds(s: string, key: SortKey, blanks: BlankType)
    ensures OrderingAt(s, |s|, key, blanks) == (key, |s|)
  {
  }

  lemma OrderingStep(s: string, p: nat, key: SortKey, blanks: BlankType)
    requires p < |s| && IsFlag(s[p])
    ensures OrderingAt(s, p, key, blanks) == OrderingAt(s, p + 1, WithFlag(key, s[p], blanks), blanks)
  {
    hide WithFlag, IsFlag;
  }

  lemma FlagsUnfold(i: nat, opts: set<char>)
    requires i <= |LETTERS|
    ensures i == |LETTERS| ==> Flags(LETTERS[i..], opts) == ""
    ensures i < |LETTERS| ==>
      Flags(LETTERS[i..], opts) == If(LETTERS[i] in opts, [LETTERS[i]]) + Flags(LETTERS[i + 1..], opts)
  {
    if i < |LETTERS| {
      assert LETTERS[i..][1..] == LETTERS[i + 1..];
    }
  }

  lemma NextOpt(i: nat, opts: set<char>)
    requires i < |LETTERS|
    ensures InBoth(LETTERS[..i + 1], opts)
         == InBoth(LETTERS[..i], opts) + if LETTERS[i] in opts then {LETTERS[i]} else {}
  {
    assert LETTERS[..i + 1] == LETTERS[..i] + [LETTERS[i]];
  }

  lemma FlagAdds(key: SortKey, c: char, i: nat, opts: set<char>, blanks: BlankType)
    requires i < |LETTERS| && c == LETTERS[i] && c in opts && !('d' in opts && 'i' in opts)
    requires key.opts == InBoth(LETTERS[..i], opts)
    ensures IsFlag(c) && WithFlag(key, c, blanks) == SortKey(key.pos, key.opts + {c})
  {
    assert c != 'b';
    assert 'i' in key.opts ==> 'i' in opts;
  }

  lemma AllOpts(opts: set<char>)
    requires GoodOpts(opts)
    ensures InBoth(LETTERS, opts) == opts && InBoth(LETTERS[..0], {}) == {} && InBoth(LETTERS[..0], opts) == {}
    ensures LETTERS[0..] == LETTERS
  {
  }

  /** The first character of the flags. */
  lemma {:induction false} FlagsStart(letters: string, opts: set<char>)
    requires forall c :: c in letters ==> c in LETTERS
    ensures var f := Flags(letters, opts); f == "" || f[0] in LETTERS
  {
    if letters != "" {
      FlagsStart(letters[1..], opts);
    }
  }

  /** What follows a number in the output is read as no part of it. */
  predicate NoNumber(t: string) {
    t == "" || (!IsDigit(t[0]) && t[0] != '.')
  }

  lemma FlagsAreNoNumber(present: bool, opts: set<char>)
    ensures NoNumber(If(present, "b") + Flags(LETTERS, opts))
  {
    FlagsStart(LETTERS, opts);
    hide Flags;
  }

  /** What is printed after the comma. */
  function ShowPos2(key: SortKey): string {
    Decimal(key.pos.eword + 1)
    + (If(key.pos.echar != 0, "." + Decimal(key.pos.echar)) + (If(key.pos.skipeblanks, "b") + Flags(LETTERS, key.opts)))
  }

  lemma TailIsNoNumber(key: SortKey)
    ensures NoNumber(If(key.pos.skipsblanks, "b") + ShowTail(key))
    ensures !key.pos.Bounded() && key.pos.echar == 0 && !key.pos.skipeblanks ==> ShowTail(key) == Flags(LETTERS, key.opts)
    ensures key.pos.Bounded() ==> ShowTail(key) == "," + ShowPos2(key)
  {
    FlagsAreNoNumber(key.pos.skipeblanks, key.opts);
    hide Flags, Decimal;
    var rest := If(key.pos.skipeblanks, "b") + Flags(LETTERS, key.opts);
    if key.pos.Bounded() {
      var (a, b) := (Decimal(key.pos.eword + 1), If(key.pos.echar != 0, "." + Decimal(key.pos.echar)));
      assert ("," + a) + (b + rest) == "," + (a + (b + rest));
    }
  }

  lemma StartStep(s: string, sword: nat, schar: nat, q: nat, p: nat)
    requires q <= |s| && p <= |s| && CountAt(s, 0) == Some((sword + 1, q))
    requires q < |s| && s[q] == '.' <==> schar != 0
    requires if schar != 0 then CountAt(s, q + 1) == Some((schar + 1, p)) else q == p
    ensures StartAt(s, 0) == Some(OrderingAt(s, p, WithStart(sword, schar), Start))
  {
    hide CountAt, OrderingAt, WithStart;
  }

  lemma EndStep(s: string, pos: nat, key: SortKey, eword: nat, echar: nat, q: nat, p: nat)
    requires pos <= |s| && q <= |s| && p <= |s| && CountAt(s, pos) == Some((eword + 1, q)) && key.pos.echar == 0
    requires q < |s| && s[q] == '.' <==> echar != 0
    requires if echar != 0 then CountAt(s, q + 1) == Some((echar, p)) else q == p
    ensures EndAt(s, pos, key) == Some(OrderingAt(s, p, WithEnd(key, eword, echar), End))
  {
    hide CountAt, OrderingAt;
  }

  lemma ValidParts(key: SortKey)
    requires key.Valid()
    ensures key.pos.sword + 1 <= SIZE_MAX && key.pos.schar + 1 <= SIZE_MAX && key.pos.echar <= SIZE_MAX && GoodOpts(key.opts)
    ensures key.pos.Bounded() ==> key.pos.eword + 1 <= SIZE_MAX
    ensures !key.pos.Bounded() ==> key.pos.eword == SIZE_MAX && key.pos.echar == 0 && !key.pos.skipeblanks
    ensures !('d' in key.opts && 'i' in key.opts)
  {
  }

  lemma NoNumberMeans(t: string)
    requires NoNumber(t)
    ensures t == "" || (!IsDigit(t[0]) && t[0] != '.')
  {
  }

  lemma ShowParts(key: SortKey)
    ensures Show(key) == Decimal(key.pos.sword + 1)
      + (If(key.pos.schar != 0, "." + Decimal(key.pos.schar + 1)) + (If(key.pos.skipsblanks, "b") + ShowTail(key)))
  {
  }

  /** POS1 is read up to its ordering flags. */
  lemma StartRead(s: string, key: SortKey)
    requires s == Show(key) && key.Valid()
    ensures var p := |s| - |ShowTail(key)|;
      && p >= 0 && At(s, p, ShowTail(key))
      && StartAt(s, 0) == Some(OrderingAt(s, p,
           Blanked(WithStart(key.pos.sword, key.pos.schar), key.pos.skipsblanks, Start), Start))
  {
    hide *;
    var (sword, schar) := (key.pos.sword, key.pos.schar);
    var rest := If(key.pos.skipsblanks, "b") + ShowTail(key);
    ValidParts(key);
    ShowParts(key);
    TailIsNoNumber(key);
    NoNumberMeans(rest);
    AtWhole(s);
    SmallCount(sword + 1);
    SmallCount(schar + 1);
    DottedRead(s, 0, sword + 1, schar != 0, schar + 1, rest);
    StartStep(s, sword, schar, |Decimal(sword + 1)|, |s| - |rest|);
    BlankFlagRead(s, |s| - |rest|, key.pos.skipsblanks, ShowTail(key), WithStart(sword, schar), Start);
  }

  /** POS2 and the flags after it are read to the end. */
  lemma EndRead(s: string, p: nat, key: SortKey, start: SortKey)
    requires key.Valid() && key.pos.Bounded() && start.opts == {} && start.pos.echar == 0
    requires At(s, p, ShowTail(key)) && p + |ShowTail(key)| == |s|
    ensures p < |s| && s[p] == ',' && EndAt(s, p + 1, start) == Some((SortKey(
        Blanked(WithEnd(start, key.pos.eword, key.pos.echar), key.pos.skipeblanks, End).pos, key.opts), |s|))
  {
    hide *;
    var (eword, echar) := (key.pos.eword, key.pos.echar);
    var flags := Flags(LETTERS, key.opts);
    var rest := If(key.pos.skipeblanks, "b") + flags;
    var t := ShowPos2(key);
    ValidParts(key);
    TailIsNoNumber(key);
    FlagsAreNoNumber(key.pos.skipeblanks, key.opts);
    NoNumberMeans(rest);
    AtConcat(s, p, ",", t);
    AtEnd(s, p);
    AtChar(s, p, ",", 0);
    Pos2Parts(key);
    SmallCount(eword + 1);
    SmallCount(echar);
    DottedRead(s, p + 1, eword + 1, echar != 0, echar, rest);
    EndStep(s, p + 1, start, eword, echar, p + 1 + |Decimal(eword + 1)|, |s| - |rest|);
    var k := WithEnd(start, eword, echar);
    BlankFlagRead(s, |s| - |rest|, key.pos.skipeblanks, flags, k, End);
    KeepsOpts(start, eword, echar, key.pos.skipeblanks);
    AllOpts(key.opts);
    FlagsRead(s, |s| - |flags|, 0, key.opts, Blanked(k, key.pos.skipeblanks, End), End);
  }

  lemma Pos2Parts(key: SortKey)
    ensures ShowPos2(key) == Decimal(key.pos.eword + 1) + (If(key.pos.echar != 0, "." + Decimal(key.pos.echar))
      + (If(key.pos.skipeblanks, "b") + Flags(LETTERS, key.opts)))
  {
  }

  lemma KeepsOpts(start: SortKey, eword: nat, echar: nat, present: bool)
    ensures Blanked(WithEnd(start, eword, echar), present, End).opts == start.opts
  {
  }

  /** The key that is left when all parts are read. */
  lemma PartsMakeKey(key: SortKey)
    requires key.Valid()
    ensures var start := Blanked(WithStart(key.pos.sword, key.pos.schar), key.pos.skipsblanks, Start);
      && start.opts == {} && start.pos.echar == 0
      && (key.pos.Bounded() ==> Finished(SortKey(Blanked(WithEnd(start, key.pos.eword, key.pos.echar),
                                                         key.pos.skipeblanks, End).pos, key.opts)) == key)
      && (!key.pos.Bounded() ==> Finished(WithEnd(SortKey(start.pos, key.opts), SIZE_MAX, 0)) == key)
  {
    hide GoodOpts;
  }

  /** Parsing what debug_keyfield prints after -k gives back the key: sort reads the keys that
      decorate was given, or has rewritten. */
  lemma RoundTrip(key: SortKey)
    requires key.Valid()
    ensures KeyAt(Show(key)) == Some((key, |Show(key)|))
  {
    hide *;
    var s := Show(key);
    var p := |s| - |ShowTail(key)|;
    var start := Blanked(WithStart(key.pos.sword, key.pos.schar), key.pos.skipsblanks, Start);
    StartRead(s, key);
    PartsMakeKey(key);
    AtEnd(s, p);
    if key.pos.Bounded() {
      EndRead(s, p, key, start);
      CommaEndsFlags(s, p, start);
      KeyStep(s, start, p);
    } else {
      ValidParts(key);
      TailIsNoNumber(key);
      AllOpts(key.opts);
      FlagsRead(s, p, 0, key.opts, start, Start);
      KeyStep(s, SortKey(start.pos, key.opts), |s|);
    }
  }

  lemma CommaEndsFlags(s: string, p: nat, key: SortKey)
    requires p < |s| && s[p] == ','
    ensures OrderingAt(s, p, key, Start) == (key, p)
  {
  }

  lemma KeyStep(s: string, key: SortKey, p: nat)
    requires p <= |s| && StartAt(s, 0) == Some((key, p))
    ensures p == |s| ==> KeyAt(s) == Some((Finished(WithEnd(key, SIZE_MAX, 0)), p))
    ensures p < |s| && s[p] == ',' && EndAt(s, p + 1, key).Some? ==>
      var r := EndAt(s, p + 1, key).value; KeyAt(s) == Some((Finished(r.0), r.1))
  {
    hide StartAt, EndAt, WithEnd, Finished;
  }

  /** The keys decorate hands to sort, rewritten for decorated lines, are read as they are meant. */
  lemma RewrittenKeyRead(key: SortKey, cnt: nat, idx: nat)
    requires key.Valid() && KeyShift.Fits(key.pos, cnt) && key.pos.sword + cnt < SIZE_MAX && idx < SIZE_MAX
    ensures var k := SortKey(KeyShift.ShiftedKey(key.pos, cnt), key.opts); KeyAt(Show(k)) == Some((k, |Show(k)|))
    ensures var k := SortKey(KeyShift.MovedKey(key.pos, idx), key.opts); KeyAt(Show(k)) == Some((k, |Show(k)|))
  {
    hide GoodOpts, KeyAt, Show;
    RoundTrip(SortKey(KeyShift.ShiftedKey(key.pos, cnt), key.opts));
    RoundTrip(SortKey(KeyShift.MovedKey(key.pos, idx), key.opts));
  }
}
