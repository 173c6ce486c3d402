/** What happens to sort keys when decorated fields are put in front of a line
    (src/decorate.c, adjust_key_fields, with begfield and limfield of src/key-compare.c). */
module KeyShift {
  import opened Text
  import opened KeyCompare

  /** The separator printed after a converted field. */
  function SepOf(tab: Option<char>): char {
    if tab.Some? then tab.value else ' '
  }

  /** The converted fields as they are printed, each with its separator. */
  function Prefix(cs: seq<string>, sep: char): string {
    if cs == [] then "" else cs[0] + [sep] + Prefix(cs[1..], sep)
  }

  /** The decorated line. */
  function Decorated(cs: seq<string>, s: string, tab: Option<char>): string {
    Prefix(cs, SepOf(tab)) + s
  }

  /** Converted fields that the field scans of sort cannot misread. */
  ghost predicate Clean(cs: seq<string>, tab: Option<char>) {
    forall i :: 0 <= i < |cs| ==> CleanField(cs[i], tab)
  }

  ghost predicate CleanField(c: string, tab: Option<char>) {
    match tab
    case Some(t) => AllIn(c, Except(t))
    case None => c != "" && AllIn(c, NonFieldSep)
  }

  /** The rewritten form of a key that is not converted; size_t arithmetic wraps around. */
  function ShiftedKey(key: Key, cnt: nat): Key {
    key.(sword := (key.sword + cnt) % (SIZE_MAX + 1),
         eword := if key.Bounded() then (key.eword + cnt) % (SIZE_MAX + 1) else key.eword)
  }

  /** The rewritten form of the key converted into decorated field idx. */
  function MovedKey(key: Key, idx: nat): Key {
    key.(sword := idx, eword := if key.Bounded() then idx else key.eword)
  }

  /** The rewriting does not overflow. */
  predicate Fits(key: Key, cnt: nat) {
    key.Valid() && key.sword + cnt <= SIZE_MAX && (key.Bounded() ==> key.eword + cnt < SIZE_MAX)
  }

  // --- Scans do not see what lies before them ----------------------------------------------

  lemma PastTabShift(a: string, s: string, pos: nat, over: bool, t: char)
    requires pos <= |s|
    ensures PastTab(a + s, |a| + pos, over, t) == |a| + PastTab(s, pos, over, t)
  {
    ScanShift(a, s, pos, Except(t));
  }

  lemma PastWordShift(a: string, s: string, pos: nat)
    requires pos <= |s|
    ensures PastWord(a + s, |a| + pos) == |a| + PastWord(s, pos)
  {
    ScanShift(a, s, pos, FieldSep);
    ScanShift(a, s, Scan(s, pos, FieldSep), NonFieldSep);
    hide Scan;
  }

  lemma {:induction false} SkipTabShift(a: string, s: string, pos: nat, n: nat, t: char)
    requires pos <= |s|
    ensures SkipTab(a + s, |a| + pos, n, t) == |a| + SkipTab(s, pos, n, t)
    decreases n
  {
    hide PastTab;
    if pos < |s| && n > 0 {
      PastTabShift(a, s, pos, true, t);
      SkipTabShift(a, s, PastTab(s, pos, true, t), n - 1, t);
    }
  }

  lemma {:induction false} EndTabShift(a: string, s: string, pos: nat, n: nat, into: bool, t: char)
    requires pos <= |s|
    ensures EndTab(a + s, |a| + pos, n, into, t) == |a| + EndTab(s, pos, n, into, t)
    decreases n
  {
    hide PastTab;
    if pos < |s| && n > 0 {
      var over := n > 1 || into;
      PastTabShift(a, s, pos, over, t);
      EndTabShift(a, s, PastTab(s, pos, over, t), n - 1, into, t);
    }
  }

  lemma {:induction false} SkipBlankShift(a: string, s: string, pos: nat, n: nat)
    requires pos <= |s|
    ensures SkipBlank(a + s, |a| + pos, n) == |a| + SkipBlank(s, pos, n)
    decreases n
  {
    hide PastWord;
    if pos < |s| && n > 0 {
      PastWordShift(a, s, pos);
      SkipBlankShift(a, s, PastWord(s, pos), n - 1);
    }
  }

  lemma AfterBlanksShift(a: string, s: string, pos: nat, skip: bool)
    requires pos <= |s|
    ensures AfterBlanks(a + s, |a| + pos, skip) == |a| + AfterBlanks(s, pos, skip)
  {
    ScanShift(a, s, pos, FieldSep);
  }

  // --- Scans over the decorated fields -----------------------------------------------------

  lemma PrefixCons(cs: seq<string>, sep: char, s: string)
    requires cs != []
    ensures Prefix(cs, sep) + s == (cs[0] + [sep]) + (Prefix(cs[1..], sep) + s)
    ensures |Prefix(cs, sep)| == |cs[0]| + 1 + |Prefix(cs[1..], sep)|
  {
  }

  lemma PrefixNil(sep: char, s: string)
    ensures Prefix([], sep) + s == s && Prefix([], sep) == ""
  {
  }

  lemma CleanCons(cs: seq<string>, tab: Option<char>)
    requires cs != [] && Clean(cs, tab)
    ensures CleanField(cs[0], tab) && Clean(cs[1..], tab)
  {
  }

  /** One field, one tab. */
  lemma PastField(c: string, s: string, t: char)
    requires CleanField(c, Some(t))
    ensures PastTab((c + [t]) + s, 0, true, t) == |c + [t]|
  {
    assert (c + [t]) + s == "" + c + ([t] + s);
    ScanOver("", c, [t] + s, Except(t));
  }

  lemma SkipTabField(c: string, s: string, n: nat, t: char)
    requires CleanField(c, Some(t))
    ensures SkipTab((c + [t]) + s, 0, n + 1, t) == |c| + 1 + SkipTab(s, 0, n, t)
  {
    PastField(c, s, t);
    hide PastTab;
    SkipTabShift(c + [t], s, 0, n, t);
  }

  lemma EndTabField(c: string, s: string, n: nat, into: bool, t: char)
    requires CleanField(c, Some(t)) && (n > 0 || into)
    ensures EndTab((c + [t]) + s, 0, n + 1, into, t) == |c| + 1 + EndTab(s, 0, n, into, t)
  {
    PastField(c, s, t);
    hide PastTab;
    EndTabShift(c + [t], s, 0, n, into, t);
  }

  lemma {:induction false} SkipTabPrefix(cs: seq<string>, s: string, n: nat, t: char)
    requires Clean(cs, Some(t))
    ensures SkipTab(Prefix(cs, t) + s, 0, |cs| + n, t) == |Prefix(cs, t)| + SkipTab(s, 0, n, t)
  {
    hide *;
    if cs == [] {
      PrefixNil(t, s);
    } else {
      PrefixCons(cs, t, s);
      CleanCons(cs, Some(t));
      SkipTabPrefix(cs[1..], s, n, t);
      SkipTabField(cs[0], Prefix(cs[1..], t) + s, |cs| - 1 + n, t);
    }
  }

  lemma {:induction false} EndTabPrefix(cs: seq<string>, s: string, n: nat, into: bool, t: char)
    requires Clean(cs, Some(t)) && (n > 0 || into)
    ensures EndTab(Prefix(cs, t) + s, 0, |cs| + n, into, t) == |Prefix(cs, t)| + EndTab(s, 0, n, into, t)
  {
    hide *;
    if cs == [] {
      PrefixNil(t, s);
    } else {
      PrefixCons(cs, t, s);
      CleanCons(cs, Some(t));
      EndTabPrefix(cs[1..], s, n, into, t);
      EndTabField(cs[0], Prefix(cs[1..], t) + s, |cs| - 1 + n, into, t);
    }
  }

  /** One word; the blanks that follow it belong to the next field. */
  lemma PastLeadingWord(c: string, s: string)
    requires CleanField(c, None)
    ensures PastWord(c + ([' '] + s), 0) == |c|
  {
    var d := c + ([' '] + s);
    assert d[0] == c[0];
    assert d == "" + c + ([' '] + s);
    ScanUnique(d, 0, FieldSep, 0);
    ScanOver("", c, [' '] + s, NonFieldSep);
  }

  lemma SkipBlankField(c: string, s: string, n: nat)
    requires CleanField(c, None)
    ensures SkipBlank(c + ([' '] + s), 0, n + 1) == |c| + SkipBlank([' '] + s, 0, n)
  {
    PastLeadingWord(c, s);
    hide PastWord;
    SkipBlankShift(c, [' '] + s, 0, n);
  }

  /** The blank after a decorated field is skipped along with the word after it. */
  lemma PastLead(s: string)
    ensures PastWord([' '] + s, 0) == 1 + PastWord(s, 0)
  {
    var d := [' '] + s;
    assert Scan(d, 0, FieldSep) == Scan(d, 1, FieldSep);
    PastWordShift([' '], s, 0);
  }

  lemma SkipBlankMore(s: string, n: nat)
    requires n > 0
    ensures SkipBlank(s, 0, n) == SkipBlank(s, PastWord(s, 0), n - 1)
  {
    hide PastWord;
  }

  lemma SkipBlankLead(s: string, n: nat)
    requires n > 0
    ensures SkipBlank([' '] + s, 0, n) == 1 + SkipBlank(s, 0, n)
  {
    PastLead(s);
    hide PastWord;
    SkipBlankShift([' '], s, PastWord(s, 0), n - 1);
    SkipBlankMore(s, n);
  }

  lemma BlankJoin(c: string, s: string)
    ensures (c + [' ']) + s == c + ([' '] + s)
  {
  }

  lemma {:induction false} SkipBlankPrefix(cs: seq<string>, s: string, n: nat)
    requires cs != [] && Clean(cs, None)
    ensures SkipBlank(Prefix(cs, ' ') + s, 0, |cs| + n) == |Prefix(cs, ' ')| - 1 + SkipBlank([' '] + s, 0, n)
  {
    hide *;
    var rest := Prefix(cs[1..], ' ') + s;
    PrefixCons(cs, ' ', s);
    CleanCons(cs, None);
    BlankJoin(cs[0], rest);
    SkipBlankField(cs[0], rest, |cs| - 1 + n);
    if |cs| > 1 {
      SkipBlankLead(rest, |cs| - 1 + n);
      SkipBlankPrefix(cs[1..], s, n);
    } else {
      assert cs[1..] == [];
      PrefixNil(' ', s);
    }
  }

  // --- Keys that are not converted ---------------------------------------------------------

  lemma ShiftedStart(cs: seq<string>, s: string, key: Key, t: char)
    requires Clean(cs, Some(t)) && Fits(key, |cs|)
    ensures Beg(Decorated(cs, s, Some(t)), ShiftedKey(key, |cs|), Some(t)) == |Prefix(cs, t)| + Beg(s, key, Some(t))
  {
    hide SkipTab, Prefix, Clean, AfterBlanks;
    SkipTabPrefix(cs, s, key.sword, t);
    OffsetAfter(Prefix(cs, t), s, SkipTab(s, 0, key.sword, t), key.skipsblanks, key.schar);
  }

  lemma EndWordsShifted(key: Key, cnt: nat)
    requires Fits(key, cnt) && key.Bounded()
    ensures EndWords(ShiftedKey(key, cnt)) == cnt + EndWords(key)
    ensures EndWords(key) == if key.echar == 0 then key.eword + 1 else key.eword
  {
    EndWordsPlain(key);
  }

  lemma ShiftedEnd(cs: seq<string>, s: string, key: Key, t: char)
    requires Clean(cs, Some(t)) && Fits(key, |cs|) && key.Bounded()
    ensures Lim(Decorated(cs, s, Some(t)), ShiftedKey(key, |cs|), Some(t)) == |Prefix(cs, t)| + Lim(s, key, Some(t))
  {
    hide EndTab, Prefix, Clean, AfterBlanks, EndWords, Fits;
    EndWordsShifted(key, |cs|);
    var e := EndTab(s, 0, EndWords(key), key.echar != 0, t);
    EndTabPrefix(cs, s, EndWords(key), key.echar != 0, t);
    OffsetAfter(Prefix(cs, t), s, e, key.skipeblanks, key.echar);
  }

  lemma OffsetAfter(a: string, s: string, pos: nat, skip: bool, off: nat)
    requires pos <= |s|
    ensures MinOf(|a + s|, AfterBlanks(a + s, |a| + pos, skip) + off) == |a| + MinOf(|s|, AfterBlanks(s, pos, skip) + off)
  {
    hide AfterBlanks;
    AfterBlanksShift(a, s, pos, skip);
  }

  /** With -t, a rewritten key starts and ends at the same places of the decorated line as the
      key the user gave does in the line itself, and so compares the same text. */
  lemma ShiftedKeyWithTab(cs: seq<string>, s: string, key: Key, t: char)
    requires Clean(cs, Some(t)) && Fits(key, |cs|)
    ensures var (d, k, p) := (Decorated(cs, s, Some(t)), ShiftedKey(key, |cs|), |Prefix(cs, t)|);
      && Beg(d, k, Some(t)) == p + Beg(s, key, Some(t))
      && (key.Bounded() ==> Lim(d, k, Some(t)) == p + Lim(s, key, Some(t)))
      && KeyText(d, k, Some(t)) == KeyText(s, key, Some(t))
  {
    hide *;
    ShiftedStart(cs, s, key, t);
    ShiftedBounded(key, |cs|);
    if key.Bounded() {
      ShiftedEnd(cs, s, key, t);
    }
    DecoratedWithTab(cs, s, t);
    TextShift(Prefix(cs, t), s, ShiftedKey(key, |cs|), key, Some(t));
  }

  lemma DecoratedWithTab(cs: seq<string>, s: string, t: char)
    ensures Decorated(cs, s, Some(t)) == Prefix(cs, t) + s
  {
  }

  lemma ShiftedBounded(key: Key, cnt: nat)
    requires Fits(key, cnt)
    ensures ShiftedKey(key, cnt).Bounded() == key.Bounded()
  {
  }

  lemma TextShift(a: string, s: string, k: Key, key: Key, tab: Option<char>)
    requires k.Bounded() == key.Bounded()
    requires Beg(a + s, k, tab) == |a| + Beg(s, key, tab)
    requires key.Bounded() ==> Lim(a + s, k, tab) == |a| + Lim(s, key, tab)
    ensures KeyText(a + s, k, tab) == KeyText(s, key, tab)
  {
    hide Beg, Lim;
    var b := Beg(s, key, tab);
    SliceShift(a, s, b, if key.Bounded() then MaxOf(b, Lim(s, key, tab)) else |s|);
  }

  lemma SliceShift(a: string, s: string, i: nat, j: nat)
    requires i <= j <= |s|
    ensures (a + s)[|a| + i..|a| + j] == s[i..j]
  {
  }

  /** Without -t, n further words after the decorated fields end where they end in the line
      itself; no further word ends one character early, before the last separator. */
  lemma WordsAfterPrefix(cs: seq<string>, s: string, n: nat)
    requires cs != [] && Clean(cs, None)
    ensures SkipBlank(Prefix(cs, ' ') + s, 0, |cs| + n)
         == |Prefix(cs, ' ')| + SkipBlank(s, 0, n) - (if n == 0 then 1 else 0)
  {
    hide *;
    SkipBlankPrefix(cs, s, n);
    if n > 0 {
      SkipBlankLead(s, n);
    } else {
      SkipBlankNone(s);
    }
  }

  lemma SkipBlankNone(s: string)
    ensures SkipBlank(s, 0, 0) == 0 && SkipBlank([' '] + s, 0, 0) == 0
  {
  }

  /** The last separator is skipped with the blanks that follow it. */
  lemma PrefixEnds(cs: seq<string>, s: string)
    requires cs != []
    ensures |Prefix(cs, ' ')| > 0
    ensures var a := Prefix(cs, ' '); Scan(a + s, |a| - 1, FieldSep) == Scan(a + s, |a|, FieldSep)
  {
    if |cs| == 1 {
      var a := Prefix(cs, ' ');
      assert a[|a| - 1] == ' ';
      assert (a + s)[|a| - 1] == ' ';
    } else {
      var b, c := Prefix(cs[1..], ' '), cs[0] + [' '];
      PrefixEnds(cs[1..], s);
      ScanShift(c, b + s, |b| - 1, FieldSep);
      ScanShift(c, b + s, |b|, FieldSep);
      PrefixCons(cs, ' ', s);
      assert |Prefix(cs, ' ')| == |c| + |b|;
    }
  }

  /** Offsets counted from a position that may lie one character early. */
  lemma OffsetShift(cs: seq<string>, s: string, pos: nat, early: bool, skip: bool, off: nat)
    requires cs != [] && pos <= |s| && (early ==> pos == 0)
    ensures var a := Prefix(cs, ' ');
      |a| > 0
      && var p := |a| + pos - (if early then 1 else 0);
      && var here, want := MinOf(|a + s|, AfterBlanks(a + s, p, skip) + off),
                           |a| + MinOf(|s|, AfterBlanks(s, pos, skip) + off);
      && (here == want <==> !early || skip || off > |s|)
      && (here != want ==> here == want - 1)
  {
    PrefixEnds(cs, s);
    var a := Prefix(cs, ' ');
    hide Prefix;
    ScanShift(a, s, pos, FieldSep);
  }

  /** Without -t the start of a rewritten key is the old one, unless the key starts in the first
      field without b and inside the line: then it starts one character early. */
  lemma ShiftedStartWithBlanks(cs: seq<string>, s: string, key: Key)
    requires cs != [] && Clean(cs, None) && Fits(key, |cs|)
    ensures var b, want := Beg(Decorated(cs, s, None), ShiftedKey(key, |cs|), None),
                |Prefix(cs, ' ')| + Beg(s, key, None);
      && (b == want <==> key.sword > 0 || key.skipsblanks || key.schar > |s|)
      && (b != want ==> b == want - 1)
  {
    hide SkipBlank, Clean, Prefix, AfterBlanks;
    WordsAfterPrefix(cs, s, key.sword);
    SkipBlankNone(s);
    OffsetShift(cs, s, SkipBlank(s, 0, key.sword), key.sword == 0, key.skipsblanks, key.schar);
  }

  /** The same for the end of the key. */
  lemma ShiftedEndWithBlanks(cs: seq<string>, s: string, key: Key)
    requires cs != [] && Clean(cs, None) && Fits(key, |cs|) && key.Bounded()
    ensures var e, want := Lim(Decorated(cs, s, None), ShiftedKey(key, |cs|), None),
                |Prefix(cs, ' ')| + Lim(s, key, None);
      && (e == want <==> key.eword > 0 || key.echar == 0 || key.skipeblanks || key.echar > |s|)
      && (e != want ==> e == want - 1)
  {
    hide SkipBlank, Clean, Prefix, AfterBlanks, EndWords, Fits;
    var n := EndWords(key);
    EndWordsShifted(key, |cs|);
    WordsAfterPrefix(cs, s, n);
    SkipBlankNone(s);
    OffsetShift(cs, s, SkipBlank(s, 0, n), n == 0, key.skipeblanks, key.echar);
  }

  /** Without -t, a key that starts with the line gains the last separator: one blank, the same in
      every line. */
  lemma WholeKeyGainsABlank(cs: seq<string>, s: string, key: Key)
    requires cs != [] && Clean(cs, None) && Fits(key, |cs|)
    requires key.sword == 0 && key.schar == 0 && !key.skipsblanks
    requires key.Bounded() ==> key.eword > 0 || key.echar == 0 || key.skipeblanks || key.echar > |s|
    ensures KeyText(Decorated(cs, s, None), ShiftedKey(key, |cs|), None) == " " + KeyText(s, key, None)
  {
    hide SkipBlank, Clean, Lim, Fits;
    ShiftedStartWithBlanks(cs, s, key);
    ShiftedBounded(key, |cs|);
    if key.Bounded() {
      ShiftedEndWithBlanks(cs, s, key);
    }
    PrefixLast(cs);
    SkipBlankNone(s);
    hide Prefix;
    LeadSlice(Prefix(cs, ' '), s, if key.Bounded() then Lim(s, key, None) else |s|);
  }

  lemma LeadSlice(a: string, s: string, j: nat)
    requires |a| > 0 && a[|a| - 1] == ' ' && j <= |s|
    ensures (a + s)[|a| - 1..|a| + j] == " " + s[0..j]
  {
  }

  lemma PrefixLast(cs: seq<string>)
    requires cs != []
    ensures var a := Prefix(cs, ' '); |a| > 0 && a[|a| - 1] == ' '
  {
    if |cs| > 1 {
      PrefixLast(cs[1..]);
    }
  }

  /** Every other key without character offsets keeps its text exactly. */
  lemma ShiftedKeyWithBlanks(cs: seq<string>, s: string, key: Key)
    requires cs != [] && Clean(cs, None) && Fits(key, |cs|)
    requires key.sword > 0 || key.skipsblanks || key.schar > |s|
    requires key.Bounded() ==> key.eword > 0 || key.echar == 0 || key.skipeblanks || key.echar > |s|
    ensures KeyText(Decorated(cs, s, None), ShiftedKey(key, |cs|), None) == KeyText(s, key, None)
  {
    hide SkipBlank, Clean, Beg, Lim, Fits, Prefix;
    ShiftedStartWithBlanks(cs, s, key);
    ShiftedBounded(key, |cs|);
    if key.Bounded() {
      ShiftedEndWithBlanks(cs, s, key);
    }
    TextShift(Prefix(cs, ' '), s, ShiftedKey(key, |cs|), key, None);
  }

  // --- Keys that are converted -------------------------------------------------------------

  /** The decorated line from decorated field i on. */
  function From(cs: seq<string>, s: string, i: nat, sep: char): string
    requires i < |cs|
  {
    (cs[i] + [sep]) + (Prefix(cs[i + 1..], sep) + s)
  }

  lemma {:induction false} SplitAt(cs: seq<string>, s: string, i: nat, sep: char)
    requires i < |cs|
    ensures Prefix(cs, sep) + s == Prefix(cs[..i], sep) + From(cs, s, i, sep)
  {
    PrefixCons(cs, sep, s);
    if i == 0 {
      assert cs[..0] == [];
      PrefixNil(sep, From(cs, s, 0, sep));
    } else {
      assert cs[..i][1..] == cs[1..][..i - 1] && cs[1..][i..] == cs[i + 1..];
      SplitAt(cs[1..], s, i - 1, sep);
      assert From(cs[1..], s, i - 1, sep) == From(cs, s, i, sep);
      hide From, Prefix;
      PrefixCons(cs[..i], sep, From(cs, s, i, sep));
    }
  }

  lemma CleanTake(cs: seq<string>, i: nat, tab: Option<char>)
    requires i < |cs| && Clean(cs, tab)
    ensures Clean(cs[..i], tab) && CleanField(cs[i], tab) && |cs[..i]| == i
  {
    hide CleanField;
  }

  /** With -t, the first field of what follows. */
  lemma FirstTabField(c: string, rest: string, t: char)
    requires CleanField(c, Some(t))
    ensures SkipTab((c + [t]) + rest, 0, 0, t) == 0 && EndTab((c + [t]) + rest, 0, 0, true, t) == 0
    ensures EndTab((c + [t]) + rest, 0, 1, false, t) == |c|
  {
    var d := (c + [t]) + rest;
    assert d == "" + c + ([t] + rest);
    ScanOver("", c, [t] + rest, Except(t));
    hide Scan;
  }

  /** With -t, the scans that the keys of decorated field i make. */
  lemma MovedScans(cs: seq<string>, s: string, i: nat, t: char)
    requires Clean(cs, Some(t)) && i < |cs|
    ensures var (d, p) := (Prefix(cs, t) + s, Prefix(cs[..i], t));
      && d == p + From(cs, s, i, t)
      && SkipTab(d, 0, i, t) == EndTab(d, 0, i, true, t) == |p|
      && EndTab(d, 0, i + 1, false, t) == |p| + |cs[i]|
  {
    hide *;
    var f := From(cs, s, i, t);
    SplitAt(cs, s, i, t);
    CleanTake(cs, i, Some(t));
    FromTab(cs, s, i, t);
    FirstTabField(cs[i], Prefix(cs[i + 1..], t) + s, t);
    SkipTabPrefix(cs[..i], f, 0, t);
    EndTabPrefix(cs[..i], f, 0, true, t);
    EndTabPrefix(cs[..i], f, 1, false, t);
  }

  lemma FromTab(cs: seq<string>, s: string, i: nat, t: char)
    requires i < |cs|
    ensures From(cs, s, i, t) == (cs[i] + [t]) + (Prefix(cs[i + 1..], t) + s)
  {
  }

  /** Where the key of decorated field i starts and ends in the decorated line. */
  lemma MovedPositionsWithTab(cs: seq<string>, s: string, key: Key, i: nat, t: char)
    requires Clean(cs, Some(t)) && i < |cs| < SIZE_MAX && !key.skipsblanks && !key.skipeblanks
    ensures var (d, k, p, f) := (Decorated(cs, s, Some(t)), MovedKey(key, i), |Prefix(cs[..i], t)|, From(cs, s, i, t));
      && d == Prefix(cs[..i], t) + f
      && Beg(d, k, Some(t)) == p + MinOf(|f|, key.schar)
      && (key.Bounded() ==> Lim(d, k, Some(t)) == p + if key.echar == 0 then |cs[i]| else MinOf(|f|, key.echar))
  {
    hide SkipTab, EndTab, Clean, Prefix, From;
    MovedScans(cs, s, i, t);
  }

  /** What a key selects that counts its offsets from the start of g, where the field w stands. */
  function KeySlice(g: string, w: string, key: Key): string
    requires |w| < |g|
  {
    var b := MinOf(|g|, key.schar);
    var e := if !key.Bounded() then |g| else if key.echar == 0 then |w| else MinOf(|g|, key.echar);
    g[b..MaxOf(b, e)]
  }

  lemma SliceEnds(g: string, w: string, key: Key)
    requires |w| < |g| && g[..|w|] == w && (key.schar == 0 || key.schar < |w|)
    ensures KeySlice(g, w, key) == w[key.schar..] <==> key.Bounded() && (key.echar == 0 || key.echar == |w|)
  {
    var b := key.schar;
    assert w[b..] == g[b..|w|];
    assert KeySlice(g, w, key) == w[b..] ==> |KeySlice(g, w, key)| == |w| - b;
  }

  /** A text as long as c that starts inside w takes in the character after w. */
  lemma SliceTakes(g: string, w: string, key: Key, c: string)
    requires |w| < |g| && g[..|w|] == w && key.schar <= |w|
    requires key.schar + |c| > |w| && g[|w|] !in c
    ensures KeySlice(g, w, key) != c
  {
    var text := KeySlice(g, w, key);
    if |text| == |c| {
      assert text[|w| - key.schar] == g[|w|];
    }
  }

  /** With -t, the key of decorated field i: without a start offset it is that field exactly if it
      has an end, and one that does not cut it; with a start offset inside the field it never is. */
  lemma MovedKeyWithTab(cs: seq<string>, s: string, key: Key, i: nat, t: char)
    requires Clean(cs, Some(t)) && i < |cs| < SIZE_MAX && !key.skipsblanks && !key.skipeblanks
    ensures var text := KeyText(Decorated(cs, s, Some(t)), MovedKey(key, i), Some(t));
      && (key.schar == 0 ==> (text == cs[i] <==> key.Bounded() && (key.echar == 0 || key.echar == |cs[i]|)))
      && (0 < key.schar <= |cs[i]| ==> text != cs[i])
  {
    hide *;
    var f := From(cs, s, i, t);
    FieldStart(cs, s, i, t);
    MovedSliceWithTab(cs, s, key, i, t);
    CleanTake(cs, i, Some(t));
    TabOutside(cs[i], t);
    if key.schar == 0 {
      SliceEnds(f, cs[i], key);
      assert cs[i][0..] == cs[i];
    } else if key.schar <= |cs[i]| {
      SliceTakes(f, cs[i], key, cs[i]);
    }
  }

  lemma FieldStart(cs: seq<string>, s: string, i: nat, t: char)
    requires i < |cs|
    ensures var f := From(cs, s, i, t); |cs[i]| < |f| && f[..|cs[i]|] == cs[i] && f[|cs[i]|] == t
  {
  }

  lemma TabOutside(c: string, t: char)
    requires CleanField(c, Some(t))
    ensures t !in c
  {
  }

  /** A key that starts and ends in d = a + g as KeySlice does in g. */
  lemma SliceOf(a: string, g: string, w: string, k: Key, key: Key, tab: Option<char>)
    requires |w| < |g| && k.Bounded() == key.Bounded()
    requires Beg(a + g, k, tab) == |a| + MinOf(|g|, key.schar)
    requires key.Bounded() ==> Lim(a + g, k, tab) == |a| + if key.echar == 0 then |w| else MinOf(|g|, key.echar)
    ensures KeyText(a + g, k, tab) == KeySlice(g, w, key)
  {
    hide Beg, Lim;
    var b := MinOf(|g|, key.schar);
    if key.Bounded() {
      SliceShift(a, g, b, MaxOf(b, if key.echar == 0 then |w| else MinOf(|g|, key.echar)));
    } else {
      SliceShift(a, g, b, |g|);
      assert (a + g)[|a| + b..] == (a + g)[|a| + b..|a| + |g|];
    }
  }

  lemma MovedSliceWithTab(cs: seq<string>, s: string, key: Key, i: nat, t: char)
    requires Clean(cs, Some(t)) && i < |cs| < SIZE_MAX && !key.skipsblanks && !key.skipeblanks
    requires |cs[i]| < |From(cs, s, i, t)|
    ensures KeyText(Decorated(cs, s, Some(t)), MovedKey(key, i), Some(t)) == KeySlice(From(cs, s, i, t), cs[i], key)
  {
    hide *;
    MovedPositionsWithTab(cs, s, key, i, t);
    MovedKeepsEnd(key, i);
    SliceOf(Prefix(cs[..i], t), From(cs, s, i, t), cs[i], MovedKey(key, i), key, Some(t));
  }

  lemma MovedKeepsEnd(key: Key, i: nat)
    requires i < SIZE_MAX
    ensures MovedKey(key, i).Bounded() == key.Bounded()
  {
  }

  /** Without -t, the words of the decorated line: a field begins with the blank before it. */
  lemma MovedWords(cs: seq<string>, s: string, i: nat)
    requires Clean(cs, None) && i < |cs|
    ensures var (d, p, f) := (Prefix(cs, ' ') + s, Prefix(cs[..i], ' '), From(cs, s, i, ' '));
      && d == p + f && |f| > |cs[i]| && f[..|cs[i]|] == cs[i]
      && (i > 0 ==> |p| > 0 && p[|p| - 1] == ' ')
      && (i == 0 ==> p == "")
      && SkipBlank(d, 0, i) == |p| - (if i == 0 then 0 else 1)
      && SkipBlank(d, 0, i + 1) == |p| + |cs[i]|
  {
    hide *;
    var rest := Prefix(cs[i + 1..], ' ') + s;
    var f := From(cs, s, i, ' ');
    SplitAt(cs, s, i, ' ');
    CleanTake(cs, i, None);
    FromBlank(cs, s, i);
    FirstWord(cs[i], rest);
    if i == 0 {
      SkipBlankNone(f);
      assert cs[..0] == [];
      PrefixNil(' ', f);
    } else {
      PrefixLast(cs[..i]);
      WordsAfterPrefix(cs[..i], f, 0);
      WordsAfterPrefix(cs[..i], f, 1);
      SkipBlankNone(f);
    }
  }

  lemma FromBlank(cs: seq<string>, s: string, i: nat)
    requires i < |cs|
    ensures From(cs, s, i, ' ') == cs[i] + ([' '] + (Prefix(cs[i + 1..], ' ') + s))
  {
  }

  lemma FirstWord(c: string, rest: string)
    requires CleanField(c, None)
    ensures SkipBlank(c + ([' '] + rest), 0, 1) == |c|
    ensures |c + ([' '] + rest)| > |c| && (c + ([' '] + rest))[..|c|] == c
  {
    hide *;
    SkipBlankField(c, rest, 0);
    SkipBlankNone(rest);
  }

  /** Without -t the key of a field after the first starts with the blank before it. */
  function Lead(i: nat, tab: Option<char>): nat {
    if tab.None? && i > 0 then 1 else 0
  }

  /** The decorated line from the blank before field i on, and that field with the blank. */
  lemma FieldWithLead(cs: seq<string>, s: string, i: nat) returns (a: string, g: string, w: string)
    requires Clean(cs, None) && i < |cs|
    ensures var d := Prefix(cs, ' ') + s;
      && d == a + g && w == (if i == 0 then "" else " ") + cs[i] && w[Lead(i, None)..] == cs[i]
      && |w| < |g| && g[..|w|] == w && g[|w|] == ' '
      && SkipBlank(d, 0, i) == |a| && SkipBlank(d, 0, i + 1) == |a| + |w|
  {
    hide *;
    MovedWords(cs, s, i);
    FieldStart(cs, s, i, ' ');
    a, g, w := LeadSplit(Prefix(cs[..i], ' '), From(cs, s, i, ' '), cs[i], i);
  }

  lemma LeadSplit(p: string, f: string, c: string, i: nat) returns (a: string, g: string, w: string)
    requires |c| < |f| && f[..|c|] == c && f[|c|] == ' '
    requires if i == 0 then p == "" else p != "" && p[|p| - 1] == ' '
    ensures a + g == p + f && |a| == |p| - (if i == 0 then 0 else 1) && |a| + |w| == |p| + |c|
    ensures w == (if i == 0 then "" else " ") + c && w[Lead(i, None)..] == c
    ensures |w| < |g| && g[..|w|] == w && g[|w|] == ' '
  {
    w := (if i == 0 then "" else " ") + c;
    if i == 0 {
      a, g := "", f;
    } else {
      a, g := p[..|p| - 1], " " + f;
      assert p == a + " ";
    }
  }

  lemma MovedBounds(a: string, g: string, w: string, key: Key, i: nat)
    requires i < SIZE_MAX && !key.skipsblanks && !key.skipeblanks && |w| < |g|
    requires SkipBlank(a + g, 0, i) == |a| && SkipBlank(a + g, 0, i + 1) == |a| + |w|
    ensures Beg(a + g, MovedKey(key, i), None) == |a| + MinOf(|g|, key.schar)
    ensures key.Bounded() ==>
      Lim(a + g, MovedKey(key, i), None) == |a| + if key.echar == 0 then |w| else MinOf(|g|, key.echar)
  {
    hide SkipBlank;
  }

  /** Without -t, the key of decorated field i: it is the field, with the blank before it or, if the
      key skips that one character, without it, exactly if the key has an end that does not cut the
      field; with an offset further inside the field it never is. */
  lemma MovedKeyWithBlanks(cs: seq<string>, s: string, key: Key, i: nat)
    requires Clean(cs, None) && i < |cs| < SIZE_MAX && !key.skipsblanks && !key.skipeblanks
    ensures var (text, lead) := (KeyText(Decorated(cs, s, None), MovedKey(key, i), None), Lead(i, None));
      && (key.schar <= lead ==>
          (text == (if key.schar < lead then " " else "") + cs[i]
           <==> key.Bounded() && (key.echar == 0 || key.echar == |cs[i]| + lead)))
      && (key.schar != lead && key.schar < |cs[i]| + lead ==> text != cs[i])
      && (lead <= key.schar < |cs[i]| + lead ==> text != " " + cs[i])
  {
    hide *;
    DecoratedWithBlanks(cs, s);
    var a, g, w := FieldWithLead(cs, s, i);
    MovedBounds(a, g, w, key, i);
    MovedKeepsEnd(key, i);
    SliceOf(a, g, w, MovedKey(key, i), key, None);
    CleanTake(cs, i, None);
    NoBlankInside(cs[i]);
    LeadIs(i);
    if key.schar <= Lead(i, None) {
      SliceEnds(g, w, key);
      assert w[key.schar..] == (if key.schar < Lead(i, None) then " " else "") + cs[i];
    } else if key.schar < |w| {
      SliceTakes(g, w, key, cs[i]);
    }
    if key.schar < |w| {
      SliceStarts(g, w, key, cs[i], Lead(i, None));
    }
  }

  lemma DecoratedWithBlanks(cs: seq<string>, s: string)
    ensures Decorated(cs, s, None) == Prefix(cs, ' ') + s
  {
  }

  lemma LeadIs(i: nat)
    ensures Lead(i, None) == if i == 0 then 0 else 1
  {
  }

  lemma NoBlankInside(c: string)
    requires CleanField(c, None)
    ensures ' ' !in c && c != ""
  {
  }

  /** A text from inside the field c does not start with a blank; one from before it does. */
  lemma SliceStarts(g: string, w: string, key: Key, c: string, lead: nat)
    requires |w| < |g| && g[..|w|] == w && |w| == lead + |c| && w[lead..] == c && ' ' !in c && c != ""
    requires key.schar < |w| && lead <= 1 && (lead == 1 ==> w[0] == ' ')
    ensures lead <= key.schar ==> KeySlice(g, w, key) != " " + c
    ensures key.schar < lead ==> KeySlice(g, w, key) != c
  {
    var text := KeySlice(g, w, key);
    assert key.schar >= lead ==> w[key.schar] == w[lead..][key.schar - lead];
    if text != "" {
      assert text[0] == g[key.schar] == w[key.schar];
    }
  }

  // --- Which keys of converted fields can be relied on -------------------------------------

  /** The text is the field, or without -t the field after a blank. */
  predicate Carries(text: string, c: string, tab: Option<char>) {
    text == c || (tab.None? && text == " " + c)
  }

  /** On every line, whatever the conversions made of it, the key of decorated field i of n is
      that field. */
  ghost predicate AlwaysCarries(key: Key, i: nat, n: nat, tab: Option<char>)
    requires i < n
  {
    forall cs: seq<string>, s: string :: |cs| == n && Clean(cs, tab) ==>
      Carries(KeyText(Decorated(cs, s, tab), MovedKey(key, i), tab), cs[i], tab)
  }

  /** n fields of k characters. */
  lemma LongFields(n: nat, k: nat, tab: Option<char>) returns (cs: seq<string>)
    requires k > 0
    ensures |cs| == n && Clean(cs, tab) && forall j :: 0 <= j < n ==> |cs[j]| == k
  {
    var x := if tab == Some('x') then 'y' else 'x';
    var c := seq(k, _ => x);
    cs := seq(n, _ => c);
    assert CleanField(c, tab);
  }

  lemma MovedKeyCarries(cs: seq<string>, s: string, key: Key, i: nat, tab: Option<char>)
    requires Clean(cs, tab) && i < |cs| < SIZE_MAX && !key.skipsblanks && !key.skipeblanks
    ensures var text := KeyText(Decorated(cs, s, tab), MovedKey(key, i), tab);
      && (key.Bounded() && key.echar == 0 && key.schar <= Lead(i, tab) ==>
          text == (if key.schar < Lead(i, tab) then " " else "") + cs[i] && Carries(text, cs[i], tab))
      && (!(key.Bounded() && key.echar == 0 && key.schar <= Lead(i, tab)) && key.schar + key.echar + 1 < |cs[i]| ==>
          !Carries(text, cs[i], tab))
  {
    hide Clean, KeyText, Decorated, MovedKey;
    assert "" + cs[i] == cs[i];
    if tab.Some? {
      MovedKeyWithTab(cs, s, key, i, tab.value);
    } else {
      MovedKeyWithBlanks(cs, s, key, i);
      assert |" " + cs[i]| == 1 + |cs[i]|;
    }
  }

  /** The key of a decorated field is that field on every line exactly if it has an end and no
      character offsets; only one character, the blank before the field, may be skipped. */
  lemma MovedKeyRight(key: Key, i: nat, n: nat, tab: Option<char>)
    requires i < n < SIZE_MAX && !key.skipsblanks && !key.skipeblanks
    ensures AlwaysCarries(key, i, n, tab) <==> key.Bounded() && key.echar == 0 && key.schar <= Lead(i, tab)
  {
    hide Clean, KeyText, Decorated, MovedKey, Carries;
    if key.Bounded() && key.echar == 0 && key.schar <= Lead(i, tab) {
      forall cs: seq<string>, s: string | |cs| == n && Clean(cs, tab)
        ensures Carries(KeyText(Decorated(cs, s, tab), MovedKey(key, i), tab), cs[i], tab)
      {
        MovedKeyCarries(cs, s, key, i, tab);
      }
    } else {
      var cs := LongFields(n, key.schar + key.echar + 2, tab);
      MovedKeyCarries(cs, "", key, i, tab);
      assert Decorated(cs, "", tab) == Decorated(cs, "", tab);
    }
  }
}
