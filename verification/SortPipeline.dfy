/** When decorate converts the text a key names, and what sort then compares. */
module SortPipeline {
  import opened Text
  import opened KeyCompare
  import opened KeyShift
  import opened Decorate
  import opened Undecorate
  import TextLines

  // --- A line that has lost its last bytes -------------------------------------------------

  lemma ScanCut(s: string, m: nat, pos: nat, cls: CharClass)
    requires pos <= m <= |s|
    ensures Scan(s[..m], pos, cls) == MinOf(Scan(s, pos, cls), m)
  {
    ScanUnique(s[..m], pos, cls, MinOf(Scan(s, pos, cls), m));
  }

  lemma PastTabCut(s: string, m: nat, pos: nat, over: bool, t: char)
    requires pos <= m <= |s|
    ensures PastTab(s[..m], pos, over, t) == MinOf(PastTab(s, pos, over, t), m)
    ensures pos < m && over ==> PastTab(s[..m], pos, over, t) > pos
  {
    ScanCut(s, m, pos, Except(t));
  }

  lemma {:induction false} SkipTabCut(s: string, m: nat, pos: nat, n: nat, t: char)
    requires pos <= m <= |s|
    ensures SkipTab(s[..m], pos, n, t) == MinOf(SkipTab(s, pos, n, t), m)
    decreases n
  {
    hide PastTab;
    if pos < m && n > 0 {
      var q := PastTab(s, pos, true, t);
      PastTabCut(s, m, pos, true, t);
      if q <= m {
        SkipTabCut(s, m, q, n - 1, t);
      }
    }
  }

  lemma {:induction false} EndTabCut(s: string, m: nat, pos: nat, n: nat, into: bool, t: char)
    requires pos <= m <= |s|
    ensures EndTab(s[..m], pos, n, into, t) == MinOf(EndTab(s, pos, n, into, t), m)
    decreases n
  {
    hide PastTab;
    if pos < m && n > 0 {
      var q := PastTab(s, pos, n > 1 || into, t);
      PastTabCut(s, m, pos, n > 1 || into, t);
      if q <= m {
        EndTabCut(s, m, q, n - 1, into, t);
      }
    }
  }

  lemma PastWordCut(s: string, m: nat, pos: nat)
    requires pos <= m <= |s|
    ensures PastWord(s[..m], pos) == MinOf(PastWord(s, pos), m)
  {
    ScanCut(s, m, pos, FieldSep);
    var b := Scan(s, pos, FieldSep);
    if b <= m {
      ScanCut(s, m, b, NonFieldSep);
    }
    hide Scan;
  }

  lemma {:induction false} SkipBlankCut(s: string, m: nat, pos: nat, n: nat)
    requires pos <= m <= |s|
    ensures SkipBlank(s[..m], pos, n) == MinOf(SkipBlank(s, pos, n), m)
    decreases n
  {
    if pos < m && n > 0 {
      PastWordCut(s, m, pos);
      hide PastWord;
      var q := PastWord(s, pos);
      if q <= m {
        SkipBlankCut(s, m, q, n - 1);
      }
    }
  }

  /** A scan over blanks from a position that may already lie past the cut. */
  lemma AfterBlanksCut(s: string, m: nat, pos: nat, skip: bool)
    requires pos <= |s| && m <= |s|
    ensures AfterBlanks(s[..m], MinOf(pos, m), skip) == MinOf(AfterBlanks(s, pos, skip), m)
  {
    if pos <= m {
      ScanCut(s, m, pos, FieldSep);
    }
  }

  lemma BegCut(s: string, m: nat, key: Key, tab: Option<char>)
    requires m <= |s|
    ensures Beg(s[..m], key, tab) == MinOf(Beg(s, key, tab), m)
  {
    hide SkipTab, SkipBlank, AfterBlanks;
    match tab
    case Some(t) =>
      SkipTabCut(s, m, 0, key.sword, t);
      AfterBlanksCut(s, m, SkipTab(s, 0, key.sword, t), key.skipsblanks);
    case None =>
      SkipBlankCut(s, m, 0, key.sword);
      AfterBlanksCut(s, m, SkipBlank(s, 0, key.sword), key.skipsblanks);
  }

  lemma LimCut(s: string, m: nat, key: Key, tab: Option<char>)
    requires m <= |s|
    ensures Lim(s[..m], key, tab) == MinOf(Lim(s, key, tab), m)
  {
    hide EndTab, SkipBlank, AfterBlanks, EndWords;
    var n := EndWords(key);
    match tab
    case Some(t) =>
      EndTabCut(s, m, 0, n, key.echar != 0, t);
      AfterBlanksCut(s, m, EndTab(s, 0, n, key.echar != 0, t), key.skipeblanks);
    case None =>
      SkipBlankCut(s, m, 0, n);
      AfterBlanksCut(s, m, SkipBlank(s, 0, n), key.skipeblanks);
  }

  // --- Which text is converted -------------------------------------------------------------

  /** The line is chomped exactly if the first key has no end or selects nothing. */
  lemma ChompsWhen(c: string, key: Key, tab: Option<char>)
    requires key.Valid()
    ensures Chomps(c, key, tab) <==> !key.Bounded() || KeyText(c, key, tab) == ""
  {
    hide Beg, SkipBlank, EndTab;
    if !key.Bounded() {
      NoEnd(c, key, tab);
    } else {
      hide Lim;
    }
  }

  lemma NoEnd(c: string, key: Key, tab: Option<char>)
    requires key.Valid() && !key.Bounded()
    ensures Lim(c, key, tab) == 0
  {
  }

  /** The first conversion gets the text of its key, unless that text is empty and the key starts
      inside the line: then it gets the rest of the line. */
  lemma FirstArgument(c: string, keys: seq<KeySpec>, tab: Option<char>)
    requires keys != [] && keys[0].key.Valid()
    ensures var (key, text) := (keys[0].key, KeyText(c, keys[0].key, tab));
      Selected(c, keys, 0, tab) == text <==> !key.Bounded() || text != "" || Beg(c, key, tab) == |c|
  {
    ChompsWhen(c, keys[0].key, tab);
    hide Beg, Lim;
  }

  /** A later conversion gets the text of its key, except that after a chomp the last character of
      the line is missing from it. */
  lemma LaterArgument(c: string, keys: seq<KeySpec>, j: nat, tab: Option<char>)
    requires 0 < j < |keys| && c != ""
    ensures var (key, text) := (keys[j].key, KeyText(c, keys[j].key, tab));
      Selected(c, keys, j, tab) == text
      <==> !Chomps(c, keys[0].key, tab) || text == "" || (key.Bounded() && Lim(c, key, tab) < |c|)
  {
    var key := keys[j].key;
    hide Beg, Lim;
    BegCut(c, |c| - 1, key, tab);
    LimCut(c, |c| - 1, key, tab);
    var b := Beg(c, key, tab);
    LastCharacter(c, b, if key.Bounded() then MaxOf(b, Lim(c, key, tab)) else |c|);
  }

  lemma LastCharacter(c: string, b: nat, e: nat)
    requires b <= e <= |c| && c != ""
    ensures var (m, s) := (|c| - 1, c[..|c| - 1]);
      s[MinOf(b, m)..MinOf(e, m)] == c[b..e] <==> b == e || e < |c|
  {
    var m := |c| - 1;
    assert |c[..m][MinOf(b, m)..MinOf(e, m)]| == MinOf(e, m) - MinOf(b, m);
  }

  /** When the text converted for key i is the text its key names: the first key must not select
      nothing inside the line, and for a later key the line must not have been chomped into it. */
  predicate ArgumentRight(c: string, keys: seq<KeySpec>, i: nat, tab: Option<char>)
    requires i < |keys|
  {
    var (key, text) := (keys[i].key, KeyText(c, keys[i].key, tab));
    if i == 0 then !key.Bounded() || text != "" || Beg(c, key, tab) == |c|
    else !Chomps(c, keys[0].key, tab) || text == "" || (key.Bounded() && Lim(c, key, tab) < |c|)
  }

  lemma ArgumentIsText(c: string, keys: seq<KeySpec>, i: nat, tab: Option<char>)
    requires i < |keys| && keys[0].key.Valid() && c != ""
    ensures Selected(c, keys, i, tab) == KeyText(c, keys[i].key, tab) <==> ArgumentRight(c, keys, i, tab)
  {
    hide Selected, KeyText, Beg, Lim, Chomps, Key.Valid;
    if i == 0 {
      FirstArgument(c, keys, tab);
    } else {
      LaterArgument(c, keys, i, tab);
    }
  }

  /** An example: with -k1:strlen -k2,2:roman the second conversion of "a III" is given "II". */
  lemma ChompedExample(first: Conversion, second: Conversion)
    ensures var keys := [KeySpec(Key(0, 0, SIZE_MAX, 0, true, true), Some(first)),
                         KeySpec(Key(1, 0, 1, 0, true, true), Some(second))];
      Selected("a III", keys, 1, None) == "II" && KeyText("a III", keys[1].key, None) == "III"
  {
    var (c, s, key) := ("a III", "a II", Key(1, 0, 1, 0, true, true));
    ScanUnique(c, 0, FieldSep, 0);
    ScanUnique(c, 0, NonFieldSep, 1);
    ScanUnique(c, 1, FieldSep, 2);
    ScanUnique(c, 2, NonFieldSep, 5);
    assert SkipBlank(c, 0, 1) == 1 && SkipBlank(c, 0, 2) == 5;
    assert Beg(c, key, None) == 2 && Lim(c, key, None) == 5;
    BegCut(c, 4, key, None);
    LimCut(c, 4, key, None);
    assert c[..4] == s;
  }

  // --- What sort compares ------------------------------------------------------------------

  /** The meaning of key j for a line: the text the key names, converted if it has a conversion; a
      key with a conversion names its text without leading blanks. */
  function Meaning(c: string, specs: seq<KeySpec>, j: nat, tab: Option<char>): Option<string>
    requires j < |specs|
  {
    if specs[j].conv.None? then Some(KeyText(c, specs[j].key, tab))
    else specs[j].conv.value(Trunc(KeyText(c, specs[j].ForDecorating().key, tab)))
  }

  /** The field that -kN,N stands for, numbered from 0. */
  function FieldOf(c: string, n: nat, tab: Option<char>): string {
    match tab
    case Some(t) => DropBlanks(Field(TextLines.Pieces(c, 0, t), n))
    case None => Field(TextLines.Words(c, 0), n)
  }

  /** The meaning of -kN,N with a conversion is the conversion of field N. */
  lemma MeaningOfField(c: string, specs: seq<KeySpec>, j: nat, n: nat, tab: Option<char>)
    requires j < |specs| && specs[j].conv.Some? && specs[j].key == Key(n, 0, n, 0, false, false)
    requires n < SIZE_MAX && '\n' !in c
    ensures Meaning(c, specs, j, tab) == specs[j].conv.value(Trunc(FieldOf(c, n, tab)))
  {
    hide KeyText, Field, DropBlanks, Trunc;
    if tab.Some? {
      KeyIsTrimmedField(c, n, tab.value);
    } else {
      KeyIsWord(c, n, true);
    }
  }

  /** Key j keeps its meaning when it is rewritten. A converted key must carry its decorated field;
      without -t, any other key must not count characters from the start of the line. */
  predicate Rewritable(specs: seq<KeySpec>, j: nat, tab: Option<char>)
    requires j < |specs|
  {
    var key := specs[j].key;
    && specs[j].Valid()
    && (if specs[j].conv.Some? then key.Bounded() && key.echar == 0 && key.schar <= Lead(Conversions(specs[..j]), tab)
        else Fits(key, Conversions(specs)) && (tab.None? ==> EndKept(key) && (StartKept(key) || key.schar == 0)))
  }

  ghost predicate AllRewritable(specs: seq<KeySpec>, tab: Option<char>) {
    0 < Conversions(specs) < SIZE_MAX && forall j :: 0 <= j < |specs| ==> Rewritable(specs, j, tab)
  }

  predicate StartKept(key: Key) { key.sword > 0 || key.skipsblanks }

  predicate EndKept(key: Key) { key.Bounded() ==> key.eword > 0 || key.echar == 0 || key.skipeblanks }

  /** The blank a key gains on decorated lines: it depends on the keys alone. */
  function Mark(specs: seq<KeySpec>, j: nat, tab: Option<char>): string
    requires j < |specs|
  {
    if tab.Some? then ""
    else if specs[j].conv.Some? then (if specs[j].key.schar < Lead(Conversions(specs[..j]), tab) then " " else "")
    else if StartKept(specs[j].key) then "" else " "
  }

  lemma {:induction false} ConvertedAt(c: string, keys: seq<KeySpec>, n: nat, tab: Option<char>, i: nat)
    requires i < n <= |keys| && forall k :: k in keys ==> k.conv.Some?
    requires Converted(c, keys, n, tab).Some?
    ensures keys[i].conv.value(Trunc(Selected(c, keys, i, tab))) == Some(Converted(c, keys, n, tab).value[i])
  {
    hide Selected, Trunc;
    if i < n - 1 {
      ConvertedAt(c, keys, n - 1, tab, i);
    }
  }

  lemma {:induction false} DecorateKeysValid(specs: seq<KeySpec>)
    requires forall j :: 0 <= j < |specs| ==> specs[j].key.Valid()
    ensures forall k :: k in DecorateKeys(specs) ==> k.key.Valid()
  {
    if specs != [] {
      DecorateKeysValid(specs[..|specs| - 1]);
      ValidForDecorating(specs[|specs| - 1]);
      hide Key.Valid;
    }
  }

  lemma ValidForDecorating(spec: KeySpec)
    ensures spec.ForDecorating().key.Valid() == spec.key.Valid()
  {
  }

  lemma RewritableValid(specs: seq<KeySpec>, tab: Option<char>)
    requires AllRewritable(specs, tab)
    ensures forall j :: 0 <= j < |specs| ==> specs[j].key.Valid()
  {
    forall j | 0 <= j < |specs| ensures specs[j].key.Valid() {
      assert Rewritable(specs, j, tab);
    }
  }

  lemma PlainKeyMeans(cs: seq<string>, c: string, specs: seq<KeySpec>, j: nat, tab: Option<char>)
    requires j < |specs| && Conversions(specs) == |cs|
    requires cs != [] && Clean(cs, tab) && specs[j].conv.None? && Rewritable(specs, j, tab)
    ensures KeyText(Decorated(cs, c, tab), ShiftedKey(specs[j].key, |cs|), tab)
         == Mark(specs, j, tab) + KeyText(c, specs[j].key, tab)
  {
    hide Clean, KeyText, Decorated, ShiftedKey, Fits, Lead, Conversions;
    var key := specs[j].key;
    if tab.Some? {
      ShiftedKeyWithTab(cs, c, key, tab.value);
    } else if StartKept(key) {
      ShiftedKeyWithBlanks(cs, c, key);
    } else {
      WholeKeyGainsABlank(cs, c, key);
    }
  }

  lemma MovedKeyMeans(cs: seq<string>, c: string, specs: seq<KeySpec>, j: nat, tab: Option<char>)
    requires j < |specs| && Conversions(specs[..j]) < |cs| < SIZE_MAX && Clean(cs, tab)
    requires specs[j].conv.Some? && Rewritable(specs, j, tab)
    ensures var i := Conversions(specs[..j]);
      KeyText(Decorated(cs, c, tab), MovedKey(specs[j].key, i), tab) == Mark(specs, j, tab) + cs[i]
  {
    hide Clean, KeyText, Decorated, MovedKey, Conversions;
    MovedKeyCarries(cs, c, specs[j].key, Conversions(specs[..j]), tab);
  }

  /** Lines that can be decorated and undecorated again, and whose conversions are given the texts
      their keys name. */
  ghost predicate Usable(c: string, specs: seq<KeySpec>, tab: Option<char>) {
    var (keys, n) := (DecorateKeys(specs), Conversions(specs));
    var cs := Converted(c, keys, n, tab);
    && cs.Some? && Clean(cs.value, tab)
    && (|c| == 1 || (c != "" && !IsFieldSep(c[0])))
    && forall i :: 0 <= i < n ==> ArgumentRight(c, keys, i, tab)
  }

  /** What sort compares in decorated line d is the meaning of key j for the line c itself. */
  ghost predicate ComparesMeaning(c: string, d: string, specs: seq<KeySpec>, j: nat, tab: Option<char>)
    requires j < |specs|
  {
    var m := Meaning(c, specs, j, tab);
    m.Some? && KeyText(d, SortKey(specs, j), tab) == Mark(specs, j, tab) + m.value
  }

  /** The conversion in decorated field i is that of the text key j names. */
  lemma DecoratedField(specs: seq<KeySpec>, c: string, j: nat, tab: Option<char>)
    requires j < |specs| && specs[j].conv.Some? && AllRewritable(specs, tab) && Usable(c, specs, tab)
    ensures var (i, n) := (Conversions(specs[..j]), Conversions(specs));
      i < n && Meaning(c, specs, j, tab) == Some(Converted(c, DecorateKeys(specs), n, tab).value[i])
  {
    hide Clean, KeyText, Converted, Selected, Trunc, Conversions, DecorateKeys, ArgumentRight, Key.Valid;
    var keys := DecorateKeys(specs);
    DecorateKeyAt(specs, j);
    RewritableValid(specs, tab);
    DecorateKeysValid(specs);
    var i := Conversions(specs[..j]);
    assert keys[0] in keys;
    hide AllRewritable;
    ArgumentIsText(c, keys, i, tab);
    ConvertedAt(c, keys, |keys|, tab, i);
  }

  /** On the decorated line every key of sort finds the meaning of the key the user gave, after a
      mark that is the same for all lines. */
  lemma SortKeyMeans(specs: seq<KeySpec>, c: string, j: nat, tab: Option<char>)
    requires j < |specs| && AllRewritable(specs, tab) && Usable(c, specs, tab)
    ensures var cs := Converted(c, DecorateKeys(specs), Conversions(specs), tab);
      cs.Some? && ComparesMeaning(c, Decorated(cs.value, c, tab), specs, j, tab)
  {
    hide Clean, KeyText, Decorated, ShiftedKey, MovedKey, Converted, Conversions, DecorateKeys, Mark, Rewritable,
      ArgumentRight;
    var cs := Converted(c, DecorateKeys(specs), Conversions(specs), tab).value;
    assert Rewritable(specs, j, tab);
    if specs[j].conv.Some? {
      DecoratedField(specs, c, j, tab);
      MovedKeyMeans(cs, c, specs, j, tab);
    } else {
      PlainKeyMeans(cs, c, specs, j, tab);
    }
  }

  // --- One line through the pipeline -------------------------------------------------------

  /** The decorated form of a line that can be decorated. */
  function Decoration(c: string, specs: seq<KeySpec>, tab: Option<char>): string {
    match DecoratedLine(c, DecorateKeys(specs), tab) case Some(d) => d case None => ""
  }

  lemma DecorationIs(specs: seq<KeySpec>, c: string, tab: Option<char>)
    requires Converted(c, DecorateKeys(specs), Conversions(specs), tab).Some?
    ensures Decoration(c, specs, tab)
         == Decorated(Converted(c, DecorateKeys(specs), Conversions(specs), tab).value, c, tab)
  {
    hide Converted, Decorated;
  }

  lemma LineRestored(specs: seq<KeySpec>, c: string, tab: Option<char>)
    requires 0 < Conversions(specs) && Usable(c, specs, tab)
    ensures Undecorated(Decoration(c, specs, tab), Conversions(specs), tab) == c
  {
    hide Conversions, DecorateKeys, Converted, Decorated, Undecorated, Clean, Decoration, ArgumentRight;
    DecorationIs(specs, c, tab);
    UndecorateInverts(Converted(c, DecorateKeys(specs), Conversions(specs), tab).value, c, tab);
  }

  lemma LineCompared(specs: seq<KeySpec>, c: string, j: nat, tab: Option<char>)
    requires j < |specs| && AllRewritable(specs, tab) && Usable(c, specs, tab)
    ensures ComparesMeaning(c, Decoration(c, specs, tab), specs, j, tab)
  {
    hide *;
    SortKeyMeans(specs, c, j, tab);
    DecorationIs(specs, c, tab);
  }
}
