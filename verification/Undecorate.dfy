/** decorate --undecorate, and what the whole pipeline decorate | sort | undecorate keeps
    (src/decorate.c, undecorate_file and main). */
module Undecorate {
  import opened Text
  import opened KeyCompare
  import opened KeyShift
  import opened Decorate

  /** The key that spans the fields to remove: it starts n fields on, after any blanks. The line is
      handed to begfield without its terminator, so its last character is never passed. */
  function Undecorated(line: string, n: nat, tab: Option<char>): string {
    line[Beg(line[..MaxOf(|line| - 1, 0)], Key(n, 0, 0, 0, true, false), tab)..]
  }

  /** undecorate_file, over lines without their terminators. */
  method UndecorateFile(lines: seq<string>, numFields: nat, tab: Option<char>) returns (out: seq<string>)
    ensures |out| == |lines|
    ensures forall i :: 0 <= i < |lines| ==> out[i] == Undecorated(lines[i], numFields, tab)
  {
    hide Beg;
    out := [];
    var i := 0;
    while i < |lines|
      invariant 0 <= i == |out| <= |lines|
      invariant forall k :: 0 <= k < i ==> out[k] == Undecorated(lines[k], numFields, tab)
    {
      var key := Key(numFields, 0, 0, 0, true, false);
      var p := BegField(lines[i], |lines[i]|, key, tab);
      out := out + [lines[i][p..]];
      i := i + 1;
    }
  }

  // --- Undecorate inverts decorate ---------------------------------------------------------

  /** After the decorated fields, undecorate also drops the blanks the line begins with, except
      that it never drops the last character. */
  lemma SkipsPrefix(cs: seq<string>, s: string, tab: Option<char>)
    requires cs != [] && Clean(cs, tab)
    ensures Beg(Decorated(cs, s, tab), Key(|cs|, 0, 0, 0, true, false), tab)
         == |Prefix(cs, SepOf(tab))| + Scan(s, 0, FieldSep)
  {
    var a := Prefix(cs, SepOf(tab));
    ScanShift(a, s, 0, FieldSep);
    FieldsSkipped(cs, s, tab);
    hide Prefix, Clean, Scan, SepOf, SkipTab, SkipBlank;
  }

  /** The first blank after the decorated fields is the same from wherever they end. */
  lemma FieldsSkipped(cs: seq<string>, s: string, tab: Option<char>)
    requires cs != [] && Clean(cs, tab)
    ensures var (d, a) := (Decorated(cs, s, tab), Prefix(cs, SepOf(tab)));
      && (tab.Some? ==> SkipTab(d, 0, |cs|, tab.value) == |a|)
      && (tab.None? ==> Scan(d, SkipBlank(d, 0, |cs|), FieldSep) == Scan(d, |a|, FieldSep))
  {
    hide Prefix, Clean, Scan, SkipTab, SkipBlank;
    if tab.Some? {
      SkipTabPrefix(cs, s, 0, tab.value);
      SkipTabNone(s, tab.value);
    } else {
      WordsAfterPrefix(cs, s, 0);
      PrefixEnds(cs, s);
      SkipBlankNone(s);
    }
  }

  lemma SkipTabNone(s: string, t: char)
    ensures SkipTab(s, 0, 0, t) == 0
  {
  }

  lemma UndecoratedLine(cs: seq<string>, s: string, tab: Option<char>)
    requires cs != [] && Clean(cs, tab) && s != ""
    ensures Undecorated(Decorated(cs, s, tab), |cs|, tab) == s[Scan(s[..|s| - 1], 0, FieldSep)..]
  {
    hide Prefix, Clean, Scan, Beg, SepOf;
    var (a, c) := (Prefix(cs, SepOf(tab)), s[..|s| - 1]);
    assert (a + s)[..|a + s| - 1] == a + c;
    SkipsPrefix(cs, c, tab);
    hide *;
    DropPrefix(a, s, Scan(c, 0, FieldSep));
  }

  lemma DropPrefix(a: string, s: string, p: nat)
    requires p <= |s|
    ensures (a + s)[|a| + p..] == s[p..]
  {
  }

  lemma KeptWhole(s: string)
    requires s != ""
    ensures s[Scan(s[..|s| - 1], 0, FieldSep)..] == s <==> |s| == 1 || !IsFieldSep(s[0])
  {
    var p := Scan(s[..|s| - 1], 0, FieldSep);
    assert |s[p..]| == |s| - p;
  }

  /** An empty line keeps the last separator of its decoration. */
  lemma UndecoratedEmpty(cs: seq<string>, tab: Option<char>)
    requires cs != []
    ensures Undecorated(Decorated(cs, "", tab), |cs|, tab) != ""
  {
    hide Beg;
  }

  /** Undecorating gives the line back exactly if it has one character, or is not empty and does
      not begin with a blank. */
  lemma UndecorateInverts(cs: seq<string>, s: string, tab: Option<char>)
    requires cs != [] && Clean(cs, tab)
    ensures Undecorated(Decorated(cs, s, tab), |cs|, tab) == s
      <==> |s| == 1 || (s != "" && !IsFieldSep(s[0]))
  {
    hide Undecorated, Decorated, Clean;
    if s == "" {
      UndecoratedEmpty(cs, tab);
    } else {
      UndecoratedLine(cs, s, tab);
      KeptWhole(s);
      hide *;
    }
  }
}
