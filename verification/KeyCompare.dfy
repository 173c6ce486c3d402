/** Sort keys: which part of a line a key designates (src/key-compare.c, begfield and limfield). */
module KeyCompare {
  import opened Text
  import TextLines

  /** The positions of struct keyfield: word and character offsets, and the b flags. An end word of
      SIZE_MAX means that the key runs to the end of the line. */
  datatype Key = Key(sword: nat, schar: nat, eword: nat, echar: nat, skipsblanks: bool, skipeblanks: bool)
  {
    predicate Valid() {
      sword <= SIZE_MAX && schar <= SIZE_MAX && eword <= SIZE_MAX && echar <= SIZE_MAX
      && (eword == SIZE_MAX ==> echar == 0)
    }

    predicate Bounded() { eword != SIZE_MAX }
  }

  // --- What begfield and limfield compute --------------------------------------------------

  /** Past one field and, if wanted, the tab that ends it. */
  function PastTab(s: string, pos: nat, over: bool, tab: char): (p: nat)
    requires pos <= |s|
    ensures pos <= p <= |s|
  {
    var e := Scan(s, pos, Except(tab));
    if e < |s| && over then e + 1 else e
  }

  /** Past the blanks at pos and the word after them. */
  function PastWord(s: string, pos: nat): (p: nat)
    requires pos <= |s|
    ensures pos <= p <= |s|
  {
    Scan(s, Scan(s, pos, FieldSep), NonFieldSep)
  }

  /** Past n fields ended by tab, each with its tab. */
  function SkipTab(s: string, pos: nat, n: nat, tab: char): (p: nat)
    requires pos <= |s|
    ensures pos <= p <= |s|
    decreases n
  {
    if pos == |s| || n == 0 then pos else SkipTab(s, PastTab(s, pos, true, tab), n - 1, tab)
  }

  /** The same, but the last tab is passed only if characters of the next field are wanted. */
  function EndTab(s: string, pos: nat, n: nat, into: bool, tab: char): (p: nat)
    requires pos <= |s|
    ensures pos <= p <= |s|
    decreases n
  {
    if pos == |s| || n == 0 then pos else EndTab(s, PastTab(s, pos, n > 1 || into, tab), n - 1, into, tab)
  }

  /** Past n words, each with the blanks before it. */
  function SkipBlank(s: string, pos: nat, n: nat): (p: nat)
    requires pos <= |s|
    ensures pos <= p <= |s|
    decreases n
  {
    if pos == |s| || n == 0 then pos else SkipBlank(s, PastWord(s, pos), n - 1)
  }

  function AfterBlanks(s: string, pos: nat, skip: bool): (p: nat)
    requires pos <= |s|
    ensures pos <= p <= |s|
  {
    if skip then Scan(s, pos, FieldSep) else pos
  }

  /** Where the key starts in a line with content s; no tab means fields separated by blanks. */
  function Beg(s: string, key: Key, tab: Option<char>): (p: nat)
    ensures p <= |s|
  {
    var p := match tab case Some(t) => SkipTab(s, 0, key.sword, t) case None => SkipBlank(s, 0, key.sword);
    MinOf(|s|, AfterBlanks(s, p, key.skipsblanks) + key.schar)
  }

  /** The number of fields limfield skips: size_t arithmetic wraps around. */
  function EndWords(key: Key): nat {
    if key.echar == 0 then (key.eword + 1) % (SIZE_MAX + 1) else key.eword
  }

  /** Where the key ends. */
  function Lim(s: string, key: Key, tab: Option<char>): (p: nat)
    ensures p <= |s|
  {
    var n := EndWords(key);
    var p := match tab case Some(t) => EndTab(s, 0, n, key.echar != 0, t) case None => SkipBlank(s, 0, n);
    if key.echar == 0 then p else MinOf(|s|, AfterBlanks(s, p, key.skipeblanks) + key.echar)
  }

  /** The text sort compares: a key that ends before it starts is empty. */
  function KeyText(s: string, key: Key, tab: Option<char>): string {
    var b := Beg(s, key, tab);
    if key.Bounded() then s[b..MaxOf(b, Lim(s, key, tab))] else s[b..]
  }

  // --- The loops ---------------------------------------------------------------------------

  /** begfield, over a line of `length` bytes whose last one ends the line. */
  method BegField(text: string, length: nat, key: Key, tab: Option<char>) returns (ptr: nat)
    requires length <= |text|
    ensures ptr == Beg(text[..MaxOf(length - 1, 0)], key, tab)
  {
    hide SkipTab, SkipBlank, Scan;
    var lim := MaxOf(length - 1, 0);
    if tab.Some? {
      ptr := SkipTabs(text, lim, key.sword, tab.value);
    } else {
      ptr := SkipWords(text, lim, key.sword);
    }
    if key.skipsblanks {
      ptr := ScanTo(text, ptr, lim, FieldSep);
    }
    ptr := MinOf(lim, ptr + key.schar);
  }

  method SkipTabs(text: string, lim: nat, n: nat, tab: char) returns (ptr: nat)
    requires lim <= |text|
    ensures ptr == SkipTab(text[..lim], 0, n, tab)
  {
    hide Scan;
    ptr := 0;
    var sword: nat := n;
    while ptr < lim && sword > 0
      invariant ptr <= lim && SkipTab(text[..lim], 0, n, tab) == SkipTab(text[..lim], ptr, sword, tab)
      decreases sword
    {
      sword := sword - 1;
      ptr := ScanTo(text, ptr, lim, Except(tab));
      if ptr < lim {
        ptr := ptr + 1;
      }
    }
  }

  method SkipWords(text: string, lim: nat, n: nat) returns (ptr: nat)
    requires lim <= |text|
    ensures ptr == SkipBlank(text[..lim], 0, n)
  {
    hide Scan;
    ptr := 0;
    var words: nat := n;
    while ptr < lim && words > 0
      invariant ptr <= lim && SkipBlank(text[..lim], 0, n) == SkipBlank(text[..lim], ptr, words)
      decreases words
    {
      words := words - 1;
      ptr := ScanTo(text, ptr, lim, FieldSep);
      ptr := ScanTo(text, ptr, lim, NonFieldSep);
    }
  }

  method EndTabs(text: string, lim: nat, n: nat, echar: nat, tab: char) returns (ptr: nat)
    requires lim <= |text|
    ensures ptr == EndTab(text[..lim], 0, n, echar != 0, tab)
  {
    hide Scan;
    ptr := 0;
    var eword: nat := n;
    while ptr < lim && eword > 0
      invariant ptr <= lim
      invariant EndTab(text[..lim], 0, n, echar != 0, tab) == EndTab(text[..lim], ptr, eword, echar != 0, tab)
      decreases eword
    {
      eword := eword - 1;
      ptr := ScanTo(text, ptr, lim, Except(tab));
      if ptr < lim && (eword > 0 || echar > 0) {
        ptr := ptr + 1;
      }
    }
  }

  /** The inner loops: advance below lim while the character is in the class. */
  method ScanTo(text: string, from: nat, lim: nat, cls: CharClass) returns (ptr: nat)
    requires from <= lim <= |text|
    ensures ptr == Scan(text[..lim], from, cls)
  {
    ptr := from;
    while ptr < lim && cls.Has(text[ptr])
      invariant from <= ptr <= lim
      invariant forall k :: from <= k < ptr ==> cls.Has(text[..lim][k])
    {
      ptr := ptr + 1;
    }
    ScanUnique(text[..lim], from, cls, ptr);
  }

  /** limfield. For a line of no bytes its limit lies before the text, and character offsets are
      cut off there. */
  method LimField(text: string, length: nat, key: Key, tab: Option<char>) returns (ptr: int)
    requires length <= |text|
    ensures ptr == if length == 0 then (if key.echar != 0 then -1 else 0) else Lim(text[..length - 1], key, tab)
  {
    hide SkipBlank, EndTab, Scan;
    var lim := length - 1;
    var eword, echar := key.eword, key.echar;
    if echar == 0 {
      eword := (eword + 1) % (SIZE_MAX + 1);
    }
    var p := 0;
    if lim >= 0 {
      if tab.Some? {
        p := EndTabs(text, lim, eword, echar, tab.value);
      } else {
        p := SkipWords(text, lim, eword);
      }
    }
    if echar != 0 {
      if key.skipeblanks && lim >= 0 {
        p := ScanTo(text, p, lim, FieldSep);
      }
      p := MinOf(lim, p + echar);
    }
    ptr := p;
  }

  // --- Keys and fields ---------------------------------------------------------------------

  /** -kN,N with -t selects exactly field N of the line. */
  lemma {:induction false} FieldPositions(s: string, pos: nat, n: nat, t: char)
    requires pos <= |s|
    ensures var (b, e) := (SkipTab(s, pos, n, t), EndTab(s, pos, n + 1, false, t));
      b <= e && s[b..e] == Field(TextLines.Pieces(s, pos, t), n)
    decreases n
  {
    if n == 0 {
      FirstField(s, pos, t);
    } else {
      FieldAfter(s, pos, n, t);
      hide *;
      var p := PastTab(s, pos, true, t);
      FieldPositions(s, p, n - 1, t);
    }
  }

  function Field(ps: seq<string>, n: nat): string {
    if n < |ps| then ps[n] else ""
  }

  lemma FirstField(s: string, pos: nat, t: char)
    requires pos <= |s|
    ensures SkipTab(s, pos, 0, t) == pos <= EndTab(s, pos, 1, false, t)
    ensures s[pos..EndTab(s, pos, 1, false, t)] == Field(TextLines.Pieces(s, pos, t), 0)
  {
    hide Scan;
  }

  lemma FieldAfter(s: string, pos: nat, n: nat, t: char)
    requires pos <= |s| && n > 0
    ensures var p := PastTab(s, pos, true, t);
      && SkipTab(s, pos, n, t) == SkipTab(s, p, n - 1, t)
      && EndTab(s, pos, n + 1, false, t) == EndTab(s, p, n, false, t)
      && Field(TextLines.Pieces(s, pos, t), n) == Field(TextLines.Pieces(s, p, t), n - 1)
  {
    hide Scan;
    if Scan(s, pos, Except(t)) == |s| {
      EndsAt(s, n, t);
    }
  }

  lemma EndsAt(s: string, n: nat, t: char)
    ensures SkipTab(s, |s|, n, t) == EndTab(s, |s|, n, false, t) == |s|
    ensures Field(TextLines.Pieces(s, |s|, t), n) == ""
  {
  }

  /** limfield skips one field more when no characters of the end field are wanted. */
  lemma EndWordsPlain(key: Key)
    requires key.Valid() && key.Bounded()
    ensures EndWords(key) == if key.echar == 0 then key.eword + 1 else key.eword
  {
  }

  lemma {:induction false} KeyIsField(s: string, n: nat, t: char)
    requires n < SIZE_MAX
    ensures KeyText(s, Key(n, 0, n, 0, false, false), Some(t)) == Field(TextLines.Pieces(s, 0, t), n)
  {
    FieldPositions(s, 0, n, t);
    var key := Key(n, 0, n, 0, false, false);
    EndWordsPlain(key);
    hide TextLines.Pieces, SkipTab, EndTab, Field, EndWords;
  }

  /** A field without the blanks it starts with. */
  function DropBlanks(f: string): string {
    f[Scan(f, 0, FieldSep)..]
  }

  lemma SliceScan(s: string, b: nat, e: nat, cls: CharClass)
    requires b <= e <= |s|
    ensures Scan(s[b..e], 0, cls) == MinOf(Scan(s, b, cls), e) - b
  {
    var (f, q) := (s[b..e], MinOf(Scan(s, b, cls), e));
    assert forall k :: 0 <= k < |f| ==> f[k] == s[b + k];
    ScanUnique(f, 0, cls, q - b);
  }

  /** With b at both ends it is the field without its leading blanks, also where the fields are
      separated by blanks and the scan for the start may run past an empty field. */
  lemma KeyIsTrimmedField(s: string, n: nat, t: char)
    requires n < SIZE_MAX
    ensures KeyText(s, Key(n, 0, n, 0, true, true), Some(t)) == DropBlanks(Field(TextLines.Pieces(s, 0, t), n))
  {
    FieldPositions(s, 0, n, t);
    TrimmedKey(s, n, t);
    hide TextLines.Pieces, SkipTab, EndTab, Field, KeyText, DropBlanks;
    DropBlanksOf(s, SkipTab(s, 0, n, t), EndTab(s, 0, n + 1, false, t));
  }

  lemma TrimmedKey(s: string, n: nat, t: char)
    requires n < SIZE_MAX
    ensures var q := Scan(s, SkipTab(s, 0, n, t), FieldSep);
      KeyText(s, Key(n, 0, n, 0, true, true), Some(t)) == s[q..MaxOf(q, EndTab(s, 0, n + 1, false, t))]
  {
    EndWordsPlain(Key(n, 0, n, 0, true, true));
    hide SkipTab, EndTab, EndWords, Scan;
  }

  lemma DropBlanksOf(s: string, b: nat, e: nat)
    requires b <= e <= |s|
    ensures var q := Scan(s, b, FieldSep); DropBlanks(s[b..e]) == s[q..MaxOf(q, e)]
  {
    SliceScan(s, b, e, FieldSep);
    hide Scan;
  }

  /** On a line without newlines the separators of keys are the blanks that separate fields. */
  lemma BlankScans(s: string, pos: nat)
    requires pos <= |s| && '\n' !in s
    ensures Scan(s, pos, FieldSep) == Scan(s, pos, Blank) && Scan(s, pos, NonFieldSep) == Scan(s, pos, NonBlank)
  {
    ScanUnique(s, pos, FieldSep, Scan(s, pos, Blank));
    ScanUnique(s, pos, NonFieldSep, Scan(s, pos, NonBlank));
  }

  lemma WordZero(s: string, pos: nat)
    requires pos <= |s| && '\n' !in s
    ensures var (b, e) := (Scan(s, pos, FieldSep), SkipBlank(s, pos, 1));
      b <= e && s[b..e] == Field(TextLines.Words(s, pos), 0)
  {
    BlankScans(s, pos);
    BlankScans(s, Scan(s, pos, Blank));
    hide Scan;
    assert pos < |s| ==> SkipBlank(s, pos, 1) == SkipBlank(s, PastWord(s, pos), 0) == PastWord(s, pos);
  }

  lemma WordsNext(s: string, pos: nat) returns (w: string)
    requires pos < |s| && '\n' !in s
    ensures TextLines.Words(s, pos) == [w] + TextLines.Words(s, PastWord(s, pos))
  {
    BlankScans(s, pos);
    BlankScans(s, Scan(s, pos, Blank));
    hide Scan;
    var b := Scan(s, pos, Blank);
    w := s[b..PastWord(s, pos)];
  }

  lemma FieldCons(w: string, ws: seq<string>, n: nat)
    requires n > 0
    ensures Field([w] + ws, n) == Field(ws, n - 1)
  {
  }

  lemma SkipBlankNext(s: string, pos: nat, n: nat)
    requires pos < |s| && n > 0
    ensures SkipBlank(s, pos, n) == SkipBlank(s, PastWord(s, pos), n - 1)
  {
    hide PastWord;
  }

  lemma WordsEnd(s: string, n: nat)
    ensures PastWord(s, |s|) == |s| && SkipBlank(s, |s|, n) == |s|
    ensures Field(TextLines.Words(s, |s|), n) == ""
  {
  }

  lemma WordAfter(s: string, pos: nat, n: nat)
    requires pos <= |s| && '\n' !in s && n > 0
    ensures var p := PastWord(s, pos);
      && SkipBlank(s, pos, n) == SkipBlank(s, p, n - 1) && SkipBlank(s, pos, n + 1) == SkipBlank(s, p, n)
      && Field(TextLines.Words(s, pos), n) == Field(TextLines.Words(s, p), n - 1)
  {
    hide *;
    if pos == |s| {
      WordsEnd(s, n);
      WordsEnd(s, n - 1);
      WordsEnd(s, n + 1);
    } else {
      var w := WordsNext(s, pos);
      FieldCons(w, TextLines.Words(s, PastWord(s, pos)), n);
      SkipBlankNext(s, pos, n);
      SkipBlankNext(s, pos, n + 1);
    }
  }

  /** Where word n starts, after its blanks, and ends. */
  lemma {:induction false} WordPositions(s: string, pos: nat, n: nat)
    requires pos <= |s| && '\n' !in s
    ensures var (b, e) := (Scan(s, SkipBlank(s, pos, n), FieldSep), SkipBlank(s, pos, n + 1));
      b <= e && s[b..e] == Field(TextLines.Words(s, pos), n)
    decreases n
  {
    hide *;
    if n == 0 {
      WordZero(s, pos);
      NoWords(s, pos);
    } else {
      WordAfter(s, pos, n);
      WordPositions(s, PastWord(s, pos), n - 1);
    }
  }

  lemma NoWords(s: string, pos: nat)
    requires pos <= |s|
    ensures SkipBlank(s, pos, 0) == pos
  {
  }

  /** Without -t, -kNb,N selects exactly word N of the line: the field datamash -W would see. */
  lemma {:induction false} KeyIsWord(s: string, n: nat, skipe: bool)
    requires n < SIZE_MAX && '\n' !in s
    ensures KeyText(s, Key(n, 0, n, 0, true, skipe), None) == Field(TextLines.Words(s, 0), n)
  {
    WordPositions(s, 0, n);
    EndWordsPlain(Key(n, 0, n, 0, true, skipe));
    hide TextLines.Words, SkipBlank, Field, EndWords, Scan;
  }

  // --- Character offsets -------------------------------------------------------------------

  /** Characters a to b, counted from 0 and without the last, as far as there are any. */
  function Part(s: string, a: nat, b: nat): (r: string)
    ensures a <= b <= |s| ==> r == s[a..b]
  {
    s[MinOf(a, |s|)..MaxOf(MinOf(a, |s|), MinOf(b, |s|))]
  }

  /** The text of the line from field n on. */
  function FromField(ps: seq<string>, n: nat, t: char): string {
    if n < |ps| then TextLines.Join(ps[n..], t) else ""
  }

  lemma FromLater(p: string, ps: seq<string>, n: nat, t: char)
    requires n > 0
    ensures FromField([p] + ps, n, t) == FromField(ps, n - 1, t)
  {
    hide TextLines.Join;
    assert n <= |ps| ==> ([p] + ps)[n..] == ps[n - 1..];
  }

  lemma RestLast(s: string, pos: nat, n: nat, t: char)
    requires pos <= |s| && n > 0 && Scan(s, pos, Except(t)) == |s|
    ensures SkipTab(s, pos, n, t) == |s| && FromField(TextLines.Pieces(s, pos, t), n, t) == ""
  {
    hide Scan, TextLines.Join;
    TextLines.PiecesLast(s, pos, t);
    EndsAt(s, n - 1, t);
    hide TextLines.Pieces;
    assert pos < |s| ==> SkipTab(s, pos, n, t) == SkipTab(s, PastTab(s, pos, true, t), n - 1, t);
  }

  lemma RestMore(s: string, pos: nat, n: nat, t: char) returns (p: nat)
    requires pos <= |s| && n > 0 && Scan(s, pos, Except(t)) < |s|
    ensures pos < p <= |s| && SkipTab(s, pos, n, t) == SkipTab(s, p, n - 1, t)
    ensures FromField(TextLines.Pieces(s, pos, t), n, t) == FromField(TextLines.Pieces(s, p, t), n - 1, t)
  {
    hide *;
    var end := TextLines.PiecesMore(s, pos, t);
    p := end + 1;
    NextTab(s, pos, end, n, t);
    FromLater(s[pos..end], TextLines.Pieces(s, p, t), n, t);
  }

  lemma NextTab(s: string, pos: nat, end: nat, n: nat, t: char)
    requires pos <= end < |s| && s[end] == t && t !in s[pos..end] && n > 0
    ensures SkipTab(s, pos, n, t) == SkipTab(s, end + 1, n - 1, t)
  {
    assert forall k :: pos <= k < end ==> s[k] == s[pos..end][k - pos];
    ScanUnique(s, pos, Except(t), end);
    hide Scan;
    assert PastTab(s, pos, true, t) == end + 1;
  }

  lemma RestWhole(s: string, pos: nat, t: char)
    requires pos <= |s|
    ensures s[SkipTab(s, pos, 0, t)..] == FromField(TextLines.Pieces(s, pos, t), 0, t)
  {
    TextLines.JoinPieces(s, pos, t);
    hide TextLines.Join;
    var ps := TextLines.Pieces(s, pos, t);
    hide TextLines.Pieces;
    assert ps[0..] == ps;
  }

  lemma {:induction false} SkipTabRest(s: string, pos: nat, n: nat, t: char)
    requires pos <= |s|
    ensures s[SkipTab(s, pos, n, t)..] == FromField(TextLines.Pieces(s, pos, t), n, t)
    decreases n
  {
    hide *;
    if n == 0 {
      RestWhole(s, pos, t);
    } else if Scan(s, pos, Except(t)) == |s| {
      RestLast(s, pos, n, t);
    } else {
      var p := RestMore(s, pos, n, t);
      SkipTabRest(s, p, n - 1, t);
    }
  }

  lemma {:induction false} EndTabInto(s: string, pos: nat, n: nat, t: char)
    requires pos <= |s|
    ensures EndTab(s, pos, n, true, t) == SkipTab(s, pos, n, t)
    decreases n
  {
    if pos < |s| && n > 0 {
      EndTabInto(s, PastTab(s, pos, true, t), n - 1, t);
    }
  }

  /** Where a key with offsets in one field lies, counted from the position its fields start at. */
  lemma OffsetKey(s: string, n: nat, a: nat, b: nat, t: char)
    requires n < SIZE_MAX && b > 0
    ensures KeyText(s, Key(n, a, n, b, false, false), Some(t)) == Part(s[SkipTab(s, 0, n, t)..], a, b)
  {
    EndTabInto(s, 0, n, t);
    hide SkipTab, EndTab, Part;
    SliceOf(s, SkipTab(s, 0, n, t), a, b);
  }

  lemma OffsetKeyWithBlanks(s: string, n: nat, a: nat, b: nat)
    requires n < SIZE_MAX && b > 0
    ensures KeyText(s, Key(n, a, n, b, true, true), None) == Part(s[Scan(s, SkipBlank(s, 0, n), FieldSep)..], a, b)
  {
    hide SkipBlank, Scan, Part;
    SliceOf(s, Scan(s, SkipBlank(s, 0, n), FieldSep), a, b);
  }

  lemma SliceOf(s: string, p: nat, a: nat, b: nat)
    requires p <= |s|
    ensures Part(s[p..], a, b) == s[MinOf(|s|, p + a)..MaxOf(MinOf(|s|, p + a), MinOf(|s|, p + b))]
  {
  }

  /** With -t, -kN.A,N.B selects characters A to B counted from the start of field N; only the end of
      the line stops the count. Inside the field they are characters of the field. */
  lemma KeyIsPart(s: string, n: nat, a: nat, b: nat, t: char)
    requires n < SIZE_MAX && b > 0
    ensures var (ps, text) := (TextLines.Pieces(s, 0, t), KeyText(s, Key(n, a, n, b, false, false), Some(t)));
      && text == Part(FromField(ps, n, t), a, b)
      && (n < |ps| && a <= b <= |ps[n]| ==> text == ps[n][a..b])
  {
    hide *;
    var ps := TextLines.Pieces(s, 0, t);
    SkipTabRest(s, 0, n, t);
    OffsetKey(s, n, a, b, t);
    FromItsField(ps, n, t);
    if n < |ps| && a <= b <= |ps[n]| {
      PartOfPrefix(FromField(ps, n, t), ps[n], a, b);
    }
  }

  lemma FromItsField(ps: seq<string>, n: nat, t: char)
    ensures n < |ps| ==> ps[n] <= FromField(ps, n, t)
  {
    if n < |ps| {
      assert ps[n..][0] == ps[n];
    }
  }

  lemma PartOfPrefix(s: string, f: string, a: nat, b: nat)
    requires f <= s && a <= b <= |f|
    ensures Part(s, a, b) == f[a..b]
  {
  }

  /** With b at both ends and no -t, -kN.A,N.B selects characters A to B of word N. */
  lemma KeyIsPartOfWord(s: string, n: nat, a: nat, b: nat)
    requires n < SIZE_MAX && b > 0 && '\n' !in s
    ensures var w := Field(TextLines.Words(s, 0), n);
      a <= b <= |w| ==> KeyText(s, Key(n, a, n, b, true, true), None) == w[a..b]
  {
    hide *;
    WordPositions(s, 0, n);
    OffsetKeyWithBlanks(s, n, a, b);
    var (p, w) := (Scan(s, SkipBlank(s, 0, n), FieldSep), Field(TextLines.Words(s, 0), n));
    if a <= b <= |w| {
      PartOfPrefix(s[p..], w, a, b);
    }
  }
}
