/** What the pipeline decorate | sort | undecorate delivers (src/decorate.c, main): the input lines,
    in the order of the meanings of the keys the user gave. */
module SortedOutput {
  import opened Text
  import opened Lists
  import opened Numerals
  import opened KeyCompare
  import opened KeyShift
  import opened Decorate
  import opened Undecorate
  import opened SortPipeline
  import Conv = Conversions

  // --- Orders ------------------------------------------------------------------------------

  /** The comparison of one key: may a line with the first text stand before one with the second? */
  type Order = (string, string) -> bool

  /** The keys are compared one after the other, until one of them tells the lines apart. */
  predicate Precedes(orders: seq<Order>, a: seq<string>, b: seq<string>, j: nat)
    requires j <= |orders| == |a| == |b|
    decreases |orders| - j
  {
    j == |orders| || (orders[j](a[j], b[j]) && (orders[j](b[j], a[j]) ==> Precedes(orders, a, b, j + 1)))
  }

  /** A blank in front of both texts does not change the comparison. */
  ghost predicate IgnoresMark(le: Order) {
    forall a: string, b: string :: le(" " + a, " " + b) == le(a, b)
  }

  /** The order of sort -r; the plain order is StrLe. */
  predicate StrGe(a: string, b: string) { StrLe(b, a) }

  lemma BytesIgnoreMark()
    ensures IgnoresMark(StrLe) && IgnoresMark(StrGe)
  {
    forall a: string, b: string ensures Before(" " + a, " " + b) == Before(a, b) {
      assert (" " + a)[1..] == a && (" " + b)[1..] == b;
    }
  }

  lemma {:induction false} MarkedPrecedes(orders: seq<Order>, a: seq<string>, b: seq<string>,
                                          x: seq<string>, y: seq<string>, marks: seq<string>, j: nat)
    requires j <= |orders| == |a| == |b| == |x| == |y| == |marks|
    requires forall k :: 0 <= k < |orders| ==> IgnoresMark(orders[k]) && (marks[k] == "" || marks[k] == " ")
    requires forall k :: 0 <= k < |orders| ==> x[k] == marks[k] + a[k] && y[k] == marks[k] + b[k]
    ensures Precedes(orders, x, y, j) == Precedes(orders, a, b, j)
    decreases |orders| - j
  {
    if j < |orders| {
      MarkedPrecedes(orders, a, b, x, y, marks, j + 1);
      MarkedLe(orders[j], a[j], b[j], marks[j]);
      MarkedLe(orders[j], b[j], a[j], marks[j]);
      hide IgnoresMark;
    }
  }

  lemma MarkedLe(le: Order, a: string, b: string, mark: string)
    requires IgnoresMark(le) && (mark == "" || mark == " ")
    ensures le(mark + a, mark + b) == le(a, b)
  {
    assert "" + a == a && "" + b == b;
  }

  // --- The pipeline ------------------------------------------------------------------------

  /** What sort compares of a line. */
  function SortTexts(d: string, specs: seq<KeySpec>, tab: Option<char>): (ts: seq<string>)
    ensures |ts| == |specs| && forall j :: 0 <= j < |specs| ==> ts[j] == KeyText(d, SortKey(specs, j), tab)
  {
    seq(|specs|, j requires 0 <= j < |specs| => KeyText(d, SortKey(specs, j), tab))
  }

  /** The meanings of the user's keys for a line. */
  function Meanings(c: string, specs: seq<KeySpec>, tab: Option<char>): (ts: seq<string>)
    ensures |ts| == |specs|
    ensures forall j :: 0 <= j < |specs| ==> Meaning(c, specs, j, tab).Some? ==> Meaning(c, specs, j, tab) == Some(ts[j])
  {
    seq(|specs|, j requires 0 <= j < |specs| => match Meaning(c, specs, j, tab) case Some(m) => m case None => "")
  }

  function Marks(specs: seq<KeySpec>, tab: Option<char>): (ms: seq<string>)
    ensures |ms| == |specs| && forall j :: 0 <= j < |specs| ==> ms[j] == Mark(specs, j, tab)
  {
    seq(|specs|, j requires 0 <= j < |specs| => Mark(specs, j, tab))
  }

  /** sort(1): the decorated lines, rearranged so that they are in the order of the sort keys. Equal
      lines may come in any order. */
  ghost predicate IsSorted(specs: seq<KeySpec>, orders: seq<Order>, lines: seq<string>, sorted: seq<string>,
                           tab: Option<char>)
    requires |orders| == |specs|
  {
    && multiset(sorted) == multiset(Map(c => Decoration(c, specs, tab), lines))
    && forall i, k :: 0 <= i < k < |sorted| ==>
         Precedes(orders, SortTexts(sorted[i], specs, tab), SortTexts(sorted[k], specs, tab), 0)
  }

  /** The output of the pipeline when sort delivers these lines. */
  function Output(specs: seq<KeySpec>, sorted: seq<string>, tab: Option<char>): (out: seq<string>)
    ensures |out| == |sorted|
    ensures forall i :: 0 <= i < |out| ==> out[i] == Undecorated(sorted[i], Conversions(specs), tab)
  {
    Map(d => Undecorated(d, Conversions(specs), tab), sorted)
  }

  ghost predicate Works(specs: seq<KeySpec>, orders: seq<Order>, lines: seq<string>, tab: Option<char>) {
    && |orders| == |specs| && (forall j :: 0 <= j < |orders| ==> IgnoresMark(orders[j]))
    && AllRewritable(specs, tab)
    && forall c :: c in lines ==> Usable(c, specs, tab)
  }

  lemma OutputPermutes(specs: seq<KeySpec>, lines: seq<string>, sorted: seq<string>, tab: Option<char>)
    requires 0 < Conversions(specs) && forall c :: c in lines ==> Usable(c, specs, tab)
    requires multiset(sorted) == multiset(Map(c => Decoration(c, specs, tab), lines))
    ensures multiset(Output(specs, sorted, tab)) == multiset(lines)
  {
    hide Usable, Decoration, Undecorated, Conversions;
    var decorate := c => Decoration(c, specs, tab);
    var undecorate := d => Undecorated(d, Conversions(specs), tab);
    MapContents(undecorate, sorted, Map(decorate, lines));
    forall i | 0 <= i < |lines| ensures Map(undecorate, Map(decorate, lines))[i] == lines[i] {
      LineRestored(specs, lines[i], tab);
    }
    assert Map(undecorate, Map(decorate, lines)) == lines;
    assert Output(specs, sorted, tab) == Map(undecorate, sorted);
  }

  /** Every line sort delivers is the decoration of the line undecorate makes of it. */
  lemma SortedLine(specs: seq<KeySpec>, lines: seq<string>, sorted: seq<string>, i: nat, tab: Option<char>)
    requires 0 < Conversions(specs) && i < |sorted| && forall c :: c in lines ==> Usable(c, specs, tab)
    requires multiset(sorted) == multiset(Map(c => Decoration(c, specs, tab), lines))
    ensures var c := Undecorated(sorted[i], Conversions(specs), tab);
      c in lines && Usable(c, specs, tab) && sorted[i] == Decoration(c, specs, tab)
  {
    hide Usable, Decoration, Undecorated, Conversions;
    assert sorted[i] in multiset(sorted);
    var k := Found(sorted[i], Map(c => Decoration(c, specs, tab), lines));
    LineRestored(specs, lines[k], tab);
  }

  lemma ComparedAlike(specs: seq<KeySpec>, orders: seq<Order>, c: string, d: string, tab: Option<char>)
    requires Works(specs, orders, [c, d], tab)
    ensures Precedes(orders, SortTexts(Decoration(c, specs, tab), specs, tab),
                     SortTexts(Decoration(d, specs, tab), specs, tab), 0)
         == Precedes(orders, Meanings(c, specs, tab), Meanings(d, specs, tab), 0)
  {
    hide Usable, Decoration, AllRewritable, Mark, Meaning, KeyText, SortKey, IgnoresMark, Precedes;
    assert c in [c, d] && d in [c, d];
    var (x, y) := (SortTexts(Decoration(c, specs, tab), specs, tab), SortTexts(Decoration(d, specs, tab), specs, tab));
    var (a, b, marks) := (Meanings(c, specs, tab), Meanings(d, specs, tab), Marks(specs, tab));
    forall j | 0 <= j < |specs| ensures x[j] == marks[j] + a[j] && y[j] == marks[j] + b[j] {
      LineCompared(specs, c, j, tab);
      LineCompared(specs, d, j, tab);
    }
    forall j | 0 <= j < |specs| ensures marks[j] == "" || marks[j] == " " {
      MarkShape(specs, j, tab);
    }
    MarkedPrecedes(orders, a, b, x, y, marks, 0);
  }

  lemma MarkShape(specs: seq<KeySpec>, j: nat, tab: Option<char>)
    requires j < |specs|
    ensures Mark(specs, j, tab) == "" || Mark(specs, j, tab) == " "
  {
  }

  /** decorate | sort | undecorate: whatever sort does with equal lines, the output is the input lines,
      none lost or changed, in the order of the meanings of the user's keys. */
  lemma PipelineSorts(specs: seq<KeySpec>, orders: seq<Order>, lines: seq<string>, sorted: seq<string>,
                      tab: Option<char>)
    requires Works(specs, orders, lines, tab) && IsSorted(specs, orders, lines, sorted, tab)
    ensures var out := Output(specs, sorted, tab);
      && multiset(out) == multiset(lines)
      && forall i, k :: 0 <= i < k < |out| ==>
           Precedes(orders, Meanings(out[i], specs, tab), Meanings(out[k], specs, tab), 0)
  {
    hide Usable, Decoration, Undecorated, Conversions, IgnoresMark, Precedes, Meaning, KeyText, SortKey, Rewritable;
    OutputPermutes(specs, lines, sorted, tab);
    var out := Output(specs, sorted, tab);
    forall i, k | 0 <= i < k < |out|
      ensures Precedes(orders, Meanings(out[i], specs, tab), Meanings(out[k], specs, tab), 0)
    {
      SortedLine(specs, lines, sorted, i, tab);
      SortedLine(specs, lines, sorted, k, tab);
      ComparedAlike(specs, orders, out[i], out[k], tab);
    }
  }

  // --- One converted key -------------------------------------------------------------------

  /** -kN,N:conversion, for field n counted from 0. */
  function OneKey(n: nat, conv: Conversion): (specs: seq<KeySpec>)
    ensures |specs| == 1
  {
    [KeySpec(Key(n, 0, n, 0, false, false), Some(conv))]
  }

  /** A line with a field n that the conversion reads. */
  ghost predicate Convertible(c: string, n: nat, conv: Conversion, tab: Option<char>) {
    var f := FieldOf(c, n, tab);
    && c != "" && !IsFieldSep(c[0]) && '\n' !in c
    && f != "" && NUL !in f && conv(f).Some? && CleanField(conv(f).value, tab)
  }

  function ConvertedField(c: string, n: nat, conv: Conversion, tab: Option<char>): string {
    match conv(FieldOf(c, n, tab)) case Some(x) => x case None => ""
  }

  lemma OneConversion(n: nat, conv: Conversion)
    ensures Conversions(OneKey(n, conv)) == 1 && Conversions(OneKey(n, conv)[..0]) == 0
    ensures DecorateKeys(OneKey(n, conv)) == [OneKey(n, conv)[0].ForDecorating()]
  {
    assert OneKey(n, conv)[..0] == [];
  }

  lemma TruncWhole(f: string)
    requires NUL !in f
    ensures Trunc(f) == f
  {
    ScanUnique(f, 0, Except(NUL), |f|);
  }

  lemma ForDecoratingText(c: string, n: nat, conv: Conversion, tab: Option<char>)
    requires n < SIZE_MAX && '\n' !in c
    ensures var spec := OneKey(n, conv)[0].ForDecorating();
      spec.conv == Some(conv) && spec.key.Valid() && spec.key.Bounded() && KeyText(c, spec.key, tab) == FieldOf(c, n, tab)
  {
    hide KeyText, Field, DropBlanks;
    if tab.Some? {
      KeyIsTrimmedField(c, n, tab.value);
    } else {
      KeyIsWord(c, n, true);
    }
  }

  lemma OneConverted(c: string, keys: seq<KeySpec>, conv: Conversion, f: string, tab: Option<char>)
    requires |keys| == 1 && keys[0].conv == Some(conv) && Selected(c, keys, 0, tab) == f && NUL !in f
    requires conv(f).Some?
    ensures Converted(c, keys, 1, tab) == Some([conv(f).value])
  {
    TruncWhole(f);
    hide Selected, Trunc;
    assert Converted(c, keys, 0, tab) == Some([]);
    assert [] + [conv(f).value] == [conv(f).value];
  }

  lemma OneKeyConverted(c: string, n: nat, conv: Conversion, tab: Option<char>)
    requires n < SIZE_MAX && c != "" && '\n' !in c
    requires var f := FieldOf(c, n, tab); f != "" && NUL !in f && conv(f).Some?
    ensures var (keys, f) := (DecorateKeys(OneKey(n, conv)), FieldOf(c, n, tab));
      && |keys| == 1 && ArgumentRight(c, keys, 0, tab)
      && Converted(c, keys, 1, tab) == Some([conv(f).value])
      && Meaning(c, OneKey(n, conv), 0, tab) == conv(f)
  {
    hide FieldOf, KeyText, Trunc, Selected, Conversions, DecorateKeys, Beg, Lim, Chomps, Converted;
    var (specs, f) := (OneKey(n, conv), FieldOf(c, n, tab));
    OneConversion(n, conv);
    TruncWhole(f);
    ForDecoratingText(c, n, conv, tab);
    ArgumentIsText(c, DecorateKeys(specs), 0, tab);
    OneConverted(c, DecorateKeys(specs), conv, f, tab);
  }

  lemma OneKeyUsable(c: string, n: nat, conv: Conversion, tab: Option<char>)
    requires n < SIZE_MAX && Convertible(c, n, conv, tab)
    ensures Usable(c, OneKey(n, conv), tab)
    ensures Meanings(c, OneKey(n, conv), tab) == [ConvertedField(c, n, conv, tab)]
  {
    hide FieldOf, Conversions, DecorateKeys, CleanField, Converted, ArgumentRight, Meaning, OneKey;
    OneConversion(n, conv);
    OneKeyConverted(c, n, conv, tab);
  }

  lemma OneKeyRewritable(n: nat, conv: Conversion, tab: Option<char>)
    requires n < SIZE_MAX
    ensures AllRewritable(OneKey(n, conv), tab)
  {
    OneConversion(n, conv);
    hide Conversions;
  }

  lemma OneKeyWorks(n: nat, conv: Conversion, lines: seq<string>, tab: Option<char>)
    requires n < SIZE_MAX && forall c :: c in lines ==> Convertible(c, n, conv, tab)
    ensures Works(OneKey(n, conv), [StrLe], lines, tab)
  {
    hide Usable, AllRewritable, StrLe, IgnoresMark, Convertible, OneKey;
    OneKeyRewritable(n, conv, tab);
    BytesIgnoreMark();
    forall c | c in lines ensures Usable(c, OneKey(n, conv), tab) {
      OneKeyUsable(c, n, conv, tab);
    }
  }

  lemma OneKeyPrecedes(a: string, b: string)
    ensures Precedes([StrLe], [a], [b], 0) ==> StrLe(a, b)
  {
  }

  /** -kN,N:conversion sorts the lines by the converted field. */
  lemma SortsByField(n: nat, conv: Conversion, lines: seq<string>, sorted: seq<string>, tab: Option<char>)
    requires n < SIZE_MAX && forall c :: c in lines ==> Convertible(c, n, conv, tab)
    requires IsSorted(OneKey(n, conv), [StrLe], lines, sorted, tab)
    ensures var out := Output(OneKey(n, conv), sorted, tab);
      && multiset(out) == multiset(lines) && (forall i :: 0 <= i < |out| ==> out[i] in lines)
      && forall i, k :: 0 <= i < k < |out| ==>
           StrLe(ConvertedField(out[i], n, conv, tab), ConvertedField(out[k], n, conv, tab))
  {
    hide *;
    var (specs, out) := (OneKey(n, conv), Output(OneKey(n, conv), sorted, tab));
    OneKeyWorks(n, conv, lines, tab);
    PipelineSorts(specs, [StrLe], lines, sorted, tab);
    OutputInLines(out, lines);
    forall i, k | 0 <= i < k < |out|
      ensures StrLe(ConvertedField(out[i], n, conv, tab), ConvertedField(out[k], n, conv, tab))
    {
      OneKeyUsable(out[i], n, conv, tab);
      OneKeyUsable(out[k], n, conv, tab);
      OneKeyPrecedes(ConvertedField(out[i], n, conv, tab), ConvertedField(out[k], n, conv, tab));
    }
  }

  lemma OutputInLines(out: seq<string>, lines: seq<string>)
    requires multiset(out) == multiset(lines)
    ensures forall i :: 0 <= i < |out| ==> out[i] in lines
  {
    forall i | 0 <= i < |out| ensures out[i] in lines {
      assert out[i] in multiset(out);
    }
  }

  // --- The built-in conversions ------------------------------------------------------------

  lemma {:induction false} ZerosDigits(k: nat)
    ensures AllIn(Zeros(k), Digit)
  {
    if k > 0 {
      ZerosDigits(k - 1);
    }
  }

  /** Padded numbers are clean fields, unless a digit is the separator. */
  lemma PaddedClean(v: nat, w: nat, tab: Option<char>)
    requires tab.Some? ==> !IsDigit(tab.value)
    ensures CleanField(ZeroPadded(v, w), tab)
  {
    ZerosDigits(if |Decimal(v)| < w then w - |Decimal(v)| else 0);
    hide Decimal, Zeros;
    var s := ZeroPadded(v, w);
    assert AllIn(s, Digit);
    assert forall i :: 0 <= i < |s| ==> Digit.Has(s[i]);
  }

  /** A line with a numeral in field n. */
  ghost predicate HasNumeral(c: string, n: nat, tab: Option<char>) {
    var f := FieldOf(c, n, tab);
    && c != "" && !IsFieldSep(c[0]) && '\n' !in c
    && f != "" && Conv.IsNumeral(f) && Conv.RomanValue(f) < Pow(10, Conv.WIDTH)
  }

  lemma NumeralConvertible(c: string, n: nat, tab: Option<char>)
    requires HasNumeral(c, n, tab) && (tab.Some? ==> !IsDigit(tab.value))
    ensures Convertible(c, n, Conv.Roman, tab)
  {
    hide FieldOf, ZeroPadded, CleanField, Conv.RomanValue, Pow;
    PaddedClean(Conv.RomanValue(FieldOf(c, n, tab)), Conv.WIDTH, tab);
  }

  /** -kN,N:roman sorts the lines by the values of their numerals. */
  lemma SortsByRomanValue(n: nat, lines: seq<string>, sorted: seq<string>, tab: Option<char>)
    requires n < SIZE_MAX && (tab.Some? ==> !IsDigit(tab.value))
    requires forall c :: c in lines ==> HasNumeral(c, n, tab)
    requires IsSorted(OneKey(n, Conv.Roman), [StrLe], lines, sorted, tab)
    ensures var out := Output(OneKey(n, Conv.Roman), sorted, tab);
      && multiset(out) == multiset(lines)
      && forall i, k :: 0 <= i < k < |out| ==>
           Conv.RomanValue(FieldOf(out[i], n, tab)) <= Conv.RomanValue(FieldOf(out[k], n, tab))
  {
    hide FieldOf, Convertible, IsSorted, Output, Before, ZeroPadded, Pow, Conv.RomanValue;
    forall c | c in lines ensures Convertible(c, n, Conv.Roman, tab) {
      NumeralConvertible(c, n, tab);
    }
    SortsByField(n, Conv.Roman, lines, sorted, tab);
    var out := Output(OneKey(n, Conv.Roman), sorted, tab);
    forall i, k | 0 <= i < k < |out|
      ensures Conv.RomanValue(FieldOf(out[i], n, tab)) <= Conv.RomanValue(FieldOf(out[k], n, tab))
    {
      assert HasNumeral(out[i], n, tab) && HasNumeral(out[k], n, tab);
      Conv.RomanOrder(FieldOf(out[k], n, tab), FieldOf(out[i], n, tab));
    }
  }

  /** A line with a non-empty field n of printable length. */
  ghost predicate HasField(c: string, n: nat, tab: Option<char>) {
    var f := FieldOf(c, n, tab);
    && c != "" && !IsFieldSep(c[0]) && '\n' !in c && f != "" && NUL !in f && |f| < Pow(10, Conv.WIDTH)
  }

  lemma FieldConvertible(c: string, n: nat, tab: Option<char>)
    requires HasField(c, n, tab) && (tab.Some? ==> !IsDigit(tab.value))
    ensures Convertible(c, n, Conv.StrLen, tab)
  {
    hide FieldOf, ZeroPadded, CleanField, Pow, Trunc;
    PaddedClean(|Trunc(FieldOf(c, n, tab))|, Conv.WIDTH, tab);
  }

  /** -kN,N:strlen sorts the lines by the lengths of their fields. */
  lemma SortsByLength(n: nat, lines: seq<string>, sorted: seq<string>, tab: Option<char>)
    requires n < SIZE_MAX && (tab.Some? ==> !IsDigit(tab.value))
    requires forall c :: c in lines ==> HasField(c, n, tab)
    requires IsSorted(OneKey(n, Conv.StrLen), [StrLe], lines, sorted, tab)
    ensures var out := Output(OneKey(n, Conv.StrLen), sorted, tab);
      && multiset(out) == multiset(lines)
      && forall i, k :: 0 <= i < k < |out| ==> |FieldOf(out[i], n, tab)| <= |FieldOf(out[k], n, tab)|
  {
    hide FieldOf, Convertible, IsSorted, Output, Before, ZeroPadded, Pow, Trunc;
    forall c | c in lines ensures Convertible(c, n, Conv.StrLen, tab) {
      FieldConvertible(c, n, tab);
    }
    SortsByField(n, Conv.StrLen, lines, sorted, tab);
    var out := Output(OneKey(n, Conv.StrLen), sorted, tab);
    forall i, k | 0 <= i < k < |out| ensures |FieldOf(out[i], n, tab)| <= |FieldOf(out[k], n, tab)| {
      assert HasField(out[i], n, tab) && HasField(out[k], n, tab);
      TruncWhole(FieldOf(out[i], n, tab));
      TruncWhole(FieldOf(out[k], n, tab));
      Conv.StrLenOrder(FieldOf(out[k], n, tab), FieldOf(out[i], n, tab));
    }
  }

  /** inet_pton for IPv4: the bytes of an address, or nothing. */
  type Inet = x: string -> Option<seq<nat>> | forall t: string :: Conv.IsAddress(x(t), 4) witness (_ => None)

  function Ipv4With(inet: Inet): Conversion {
    t => Conv.Ipv4(inet(t))
  }

  predicate IsHexDigit(x: char) { IsDigit(x) || 'A' <= x <= 'F' }

  lemma {:induction false} FixedClean(v: nat, w: nat, tab: Option<char>)
    requires w > 0 && (tab.Some? ==> !IsHexDigit(tab.value))
    ensures CleanField(Fixed(v, 16, w), tab)
  {
    if w > 1 {
      FixedClean(Quot(v, 16), w - 1, tab);
    }
    var s := Fixed(v, 16, w);
    assert IsHexDigit(s[w - 1]);
    assert w == 1 ==> Fixed(Quot(v, 16), 16, 0) == "";
  }

  /** A line with an IPv4 address in field n. */
  ghost predicate HasAddress(c: string, n: nat, inet: Inet, tab: Option<char>) {
    var f := FieldOf(c, n, tab);
    && c != "" && !IsFieldSep(c[0]) && '\n' !in c && f != "" && NUL !in f && inet(f).Some?
  }

  lemma AddressConvertible(c: string, n: nat, inet: Inet, tab: Option<char>)
    requires HasAddress(c, n, inet, tab) && (tab.Some? ==> !IsHexDigit(tab.value))
    ensures Convertible(c, n, Ipv4With(inet), tab)
  {
    hide FieldOf, CleanField, Fixed, Conv.BytesValue;
    FixedClean(Conv.BytesValue(inet(FieldOf(c, n, tab)).value), 8, tab);
  }

  /** -kN,N:ipv4 sorts the lines by the numbers their addresses stand for. */
  lemma SortsByAddress(n: nat, inet: Inet, lines: seq<string>, sorted: seq<string>, tab: Option<char>)
    requires n < SIZE_MAX && (tab.Some? ==> !IsHexDigit(tab.value))
    requires forall c :: c in lines ==> HasAddress(c, n, inet, tab)
    requires IsSorted(OneKey(n, Ipv4With(inet)), [StrLe], lines, sorted, tab)
    ensures var out := Output(OneKey(n, Ipv4With(inet)), sorted, tab);
      && multiset(out) == multiset(lines)
      && forall i, k :: 0 <= i < k < |out| ==>
           HasAddress(out[i], n, inet, tab) && HasAddress(out[k], n, inet, tab)
           && Conv.BytesValue(inet(FieldOf(out[i], n, tab)).value) <= Conv.BytesValue(inet(FieldOf(out[k], n, tab)).value)
  {
    hide FieldOf, Convertible, IsSorted, Output, Before, Fixed, Conv.BytesValue;
    forall c | c in lines ensures Convertible(c, n, Ipv4With(inet), tab) {
      AddressConvertible(c, n, inet, tab);
    }
    SortsByField(n, Ipv4With(inet), lines, sorted, tab);
    var out := Output(OneKey(n, Ipv4With(inet)), sorted, tab);
    forall i, k | 0 <= i < k < |out|
      ensures HasAddress(out[i], n, inet, tab) && HasAddress(out[k], n, inet, tab)
      ensures Conv.BytesValue(inet(FieldOf(out[i], n, tab)).value) <= Conv.BytesValue(inet(FieldOf(out[k], n, tab)).value)
    {
      assert HasAddress(out[i], n, inet, tab) && HasAddress(out[k], n, inet, tab);
      Conv.Ipv4Order(inet(FieldOf(out[k], n, tab)).value, inet(FieldOf(out[i], n, tab)).value);
    }
  }
}
