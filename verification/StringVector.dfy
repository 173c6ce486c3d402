/** The packed string vector of struct fieldop (src/field-ops.c) and the operations that read it back. */
module StringVector {
  import opened Text
  import TextLines

  // --- The packed buffer -------------------------------------------------------------------

  predicate NulFree(ss: seq<string>) {
    forall i :: 0 <= i < |ss| ==> NUL !in ss[i]
  }

  /** The bytes of str_buf after adding the strings in order. */
  function Pack(ss: seq<string>): string {
    if ss == [] then "" else Pack(ss[..|ss| - 1]) + ss[|ss| - 1] + [NUL]
  }

  lemma {:induction false} PackConcat(a: seq<string>, b: seq<string>)
    ensures Pack(a + b) == Pack(a) + Pack(b)
  {
    if b == [] {
      assert a + b == a;
    } else {
      var n := |b| - 1;
      assert (a + b)[..|a| + n] == a + b[..n];
      PackConcat(a, b[..n]);
    }
  }

  lemma NulFreeSnoc(ss: seq<string>, s: string)
    requires NulFree(ss) && NUL !in s
    ensures NulFree(ss + [s])
  {
  }

  lemma PackSnoc(ss: seq<string>, s: string)
    ensures Pack(ss + [s]) == Pack(ss) + s + [NUL]
  {
    assert (ss + [s])[..|ss|] == ss;
  }

  lemma PackHead(ss: seq<string>)
    requires ss != []
    ensures Pack(ss) == ss[0] + [NUL] + Pack(ss[1..])
  {
    assert ss == [ss[0]] + ss[1..];
    PackConcat([ss[0]], ss[1..]);
    assert Pack([ss[0]]) == "" + ss[0] + [NUL] by {
      assert [ss[0]][..0] == [];
    }
  }

  lemma {:induction false} PackLength(ss: seq<string>)
    ensures |Pack(ss)| >= |ss|
  {
    if ss != [] {
      PackLength(ss[..|ss| - 1]);
    }
  }

  // --- String order ------------------------------------------------------------------------

  /** What the comparison looks at: the string itself, or its lower-case image for strcasecmp. */
  function Key(s: string, caseSensitive: bool): string {
    if caseSensitive then s else LowerAll(s)
  }

  predicate Le(a: string, b: string, caseSensitive: bool) {
    StrLe(Key(a, caseSensitive), Key(b, caseSensitive))
  }

  predicate Same(a: string, b: string, caseSensitive: bool) {
    Key(a, caseSensitive) == Key(b, caseSensitive)
  }

  /** x and y are the two cases of one letter. */
  predicate OtherCase(x: char, y: char) {
    IsAlpha(x) && IsAlpha(y) && (x as int == y as int + 32 || y as int == x as int + 32)
  }

  /** Strings are the same if they are equal, or without case if they differ in the case of letters
      only. */
  lemma SameSays(a: string, b: string)
    ensures Same(a, b, true) <==> a == b
    ensures Same(a, b, false) <==>
      |a| == |b| && forall i :: 0 <= i < |a| ==> a[i] == b[i] || OtherCase(a[i], b[i])
  {
    forall i | 0 <= i < |a| == |b| ensures Lower(a[i]) == Lower(b[i]) <==> a[i] == b[i] || OtherCase(a[i], b[i]) {
      LowerSays(a[i], b[i]);
    }
    var (l, m) := (LowerAll(a), LowerAll(b));
    hide Lower, OtherCase, LowerAll;
    assert l == m <==> |l| == |m| && forall i :: 0 <= i < |l| ==> l[i] == m[i];
  }

  lemma LowerSays(x: char, y: char)
    ensures Lower(x) == Lower(y) <==> x == y || OtherCase(x, y)
  {
  }

  lemma {:induction false} StrLeTotal(a: string, b: string)
    ensures StrLe(a, b) || StrLe(b, a)
  {
    if a != "" && b != "" {
      StrLeTotal(a[1..], b[1..]);
    }
  }

  lemma {:induction false} StrLeAntisymmetric(a: string, b: string)
    requires StrLe(a, b) && StrLe(b, a)
    ensures a == b
  {
    if a != "" && b != "" {
      StrLeAntisymmetric(a[1..], b[1..]);
      assert a == [a[0]] + a[1..] && b == [b[0]] + b[1..];
    }
  }

  lemma {:induction false} StrLeTransitive(a: string, b: string, c: string)
    requires StrLe(a, b) && StrLe(b, c)
    ensures StrLe(a, c)
  {
    if a != "" && a[0] == b[0] && b[0] == c[0] {
      StrLeTransitive(a[1..], b[1..], c[1..]);
    }
  }

  ghost predicate Ordered(ss: seq<string>, caseSensitive: bool) {
    forall i, j :: 0 <= i < j < |ss| ==> Le(ss[i], ss[j], caseSensitive)
  }

  function Insert(x: string, ss: seq<string>, caseSensitive: bool): seq<string> {
    if ss == [] || Le(x, ss[0], caseSensitive) then [x] + ss else [ss[0]] + Insert(x, ss[1..], caseSensitive)
  }

  /** qsort with cmpstringp or cmpstringp_nocase; ties keep their order. */
  function Sort(ss: seq<string>, caseSensitive: bool): seq<string> {
    if ss == [] then [] else Insert(ss[0], Sort(ss[1..], caseSensitive), caseSensitive)
  }

  lemma {:induction false} InsertContents(x: string, ss: seq<string>, cs: bool)
    ensures multiset(Insert(x, ss, cs)) == multiset(ss) + multiset{x}
    ensures |Insert(x, ss, cs)| == |ss| + 1
  {
    if !(ss == [] || Le(x, ss[0], cs)) {
      InsertContents(x, ss[1..], cs);
      assert ss == [ss[0]] + ss[1..];
    }
  }

  lemma {:induction false} SortContents(ss: seq<string>, cs: bool)
    ensures multiset(Sort(ss, cs)) == multiset(ss) && |Sort(ss, cs)| == |ss|
  {
    if ss != [] {
      SortContents(ss[1..], cs);
      InsertContents(ss[0], Sort(ss[1..], cs), cs);
      assert ss == [ss[0]] + ss[1..];
    }
  }

  lemma {:induction false} InsertOrdered(x: string, ss: seq<string>, cs: bool)
    requires Ordered(ss, cs)
    ensures Ordered(Insert(x, ss, cs), cs)
  {
    hide StrLe, Key;
    if ss == [] {
    } else if Le(x, ss[0], cs) {
      forall j | 0 <= j < |ss| ensures Le(x, ss[j], cs) {
        if j > 0 {
          StrLeTransitive(Key(x, cs), Key(ss[0], cs), Key(ss[j], cs));
        }
      }
    } else {
      StrLeTotal(Key(x, cs), Key(ss[0], cs));
      var r := Insert(x, ss[1..], cs);
      InsertOrdered(x, ss[1..], cs);
      InsertContents(x, ss[1..], cs);
      hide Insert;
      HeadBelow(ss, x, r, cs);
    }
  }

  lemma HeadBelow(ss: seq<string>, x: string, r: seq<string>, cs: bool)
    requires ss != [] && Ordered(ss, cs) && Le(ss[0], x, cs)
    requires multiset(r) == multiset(ss[1..]) + multiset{x}
    ensures forall i :: 0 <= i < |r| ==> Le(ss[0], r[i], cs)
  {
    hide Le;
    forall i | 0 <= i < |r| ensures Le(ss[0], r[i], cs) {
      assert r[i] in multiset(r);
      if r[i] != x {
        assert r[i] in ss[1..];
      }
    }
  }

  lemma {:induction false} SortOrders(ss: seq<string>, cs: bool)
    ensures Ordered(Sort(ss, cs), cs)
  {
    if ss != [] {
      SortOrders(ss[1..], cs);
      InsertOrdered(ss[0], Sort(ss[1..], cs), cs);
    }
  }

  // --- Distinct values ---------------------------------------------------------------------

  /** What unique_value keeps of a sorted vector: the strings that differ from the one before. */
  function Uniq(ss: seq<string>, caseSensitive: bool): seq<string> {
    var n := |ss| - 1;
    if n <= 0 then ss
    else Uniq(ss[..n], caseSensitive) + (if Same(ss[n], ss[n - 1], caseSensitive) then [] else [ss[n]])
  }

  function Keys(ss: seq<string>, caseSensitive: bool): set<string> {
    var n := |ss| - 1;
    if n < 0 then {} else Keys(ss[..n], caseSensitive) + {Key(ss[n], caseSensitive)}
  }

  /** Strictly before in the order of the comparison. */
  predicate Below(a: string, b: string, caseSensitive: bool) {
    Le(a, b, caseSensitive) && !Same(a, b, caseSensitive)
  }

  ghost predicate Increasing(us: seq<string>, caseSensitive: bool) {
    forall i, j :: 0 <= i < j < |us| ==> Below(us[i], us[j], caseSensitive)
  }

  ghost predicate DrawnFrom(us: seq<string>, ss: seq<string>) {
    forall u :: u in us ==> u in ss
  }

  /** The list of distinct values: strictly increasing, from the input, and one for every key. */
  ghost predicate IsDistinctList(us: seq<string>, ss: seq<string>, caseSensitive: bool) {
    && Increasing(us, caseSensitive)
    && DrawnFrom(us, ss)
    && Keys(us, caseSensitive) == Keys(ss, caseSensitive)
  }

  lemma KeysSnoc(ss: seq<string>, x: string, cs: bool)
    ensures Keys(ss + [x], cs) == Keys(ss, cs) + {Key(x, cs)}
  {
    assert (ss + [x])[..|ss|] == ss;
  }

  lemma {:induction false} UniqKeys(ss: seq<string>, cs: bool)
    ensures Keys(Uniq(ss, cs), cs) == Keys(ss, cs)
  {
    var n := |ss| - 1;
    if n > 0 {
      UniqKeys(ss[..n], cs);
      if Same(ss[n], ss[n - 1], cs) {
        assert ss[n - 1] in ss[..n] by { assert ss[..n][n - 1] == ss[n - 1]; }
        KeyIn(ss[n - 1], ss[..n], cs);
        assert Uniq(ss, cs) == Uniq(ss[..n], cs);
      } else {
        KeysSnoc(Uniq(ss[..n], cs), ss[n], cs);
      }
    }
  }

  lemma {:induction false} UniqDrawn(ss: seq<string>, cs: bool)
    ensures DrawnFrom(Uniq(ss, cs), ss)
  {
    hide Same;
    var n := |ss| - 1;
    if n > 0 {
      UniqDrawn(ss[..n], cs);
    }
  }

  /** Everything kept is in increasing order and not above the last string read. */
  lemma {:induction false} UniqIncreasing(ss: seq<string>, cs: bool)
    requires Ordered(ss, cs)
    ensures Increasing(Uniq(ss, cs), cs)
    ensures ss != [] ==> forall u :: u in Uniq(ss, cs) ==> Le(u, ss[|ss| - 1], cs)
  {
    var n := |ss| - 1;
    if n == 0 {
      LeReflexive(ss[0], cs);
    } else if n > 0 {
      var us := Uniq(ss[..n], cs);
      assert Uniq(ss, cs) == us + if Same(ss[n], ss[n - 1], cs) then [] else [ss[n]];
      assert ss[..n][n - 1] == ss[n - 1];
      OrderedFront(ss, n, cs);
      hide *;
      UniqIncreasing(ss[..n], cs);
      KeptIncreasing(us, ss[n - 1], ss[n], cs);
    }
  }

  lemma OrderedFront(ss: seq<string>, n: nat, cs: bool)
    requires 0 < n < |ss| && Ordered(ss, cs)
    ensures Ordered(ss[..n], cs) && Le(ss[n - 1], ss[n], cs)
  {
    hide Le;
  }

  lemma KeptIncreasing(us: seq<string>, b: string, c: string, cs: bool)
    requires Increasing(us, cs) && Le(b, c, cs) && forall u :: u in us ==> Le(u, b, cs)
    ensures var more := us + if Same(c, b, cs) then [] else [c];
      Increasing(more, cs) && forall u :: u in more ==> Le(u, c, cs)
  {
    hide Le, Same;
    LeReflexive(c, cs);
    forall u | u in us ensures Le(u, c, cs) && (Same(c, b, cs) || Below(u, c, cs)) {
      LeBelow(u, b, c, cs);
    }
  }

  lemma LeReflexive(a: string, cs: bool)
    ensures Le(a, a, cs)
  {
    StrLeTotal(Key(a, cs), Key(a, cs));
  }

  lemma LeBelow(a: string, b: string, c: string, cs: bool)
    requires Le(a, b, cs) && Le(b, c, cs)
    ensures Le(a, c, cs) && (Same(c, b, cs) || Below(a, c, cs))
  {
    hide StrLe, Key;
    StrLeTransitive(Key(a, cs), Key(b, cs), Key(c, cs));
    if Same(a, c, cs) {
      StrLeAntisymmetric(Key(b, cs), Key(c, cs));
    }
  }

  lemma UniqDistinct(ss: seq<string>, cs: bool)
    requires Ordered(ss, cs)
    ensures IsDistinctList(Uniq(ss, cs), ss, cs)
  {
    hide *;
    UniqIncreasing(ss, cs);
    UniqDrawn(ss, cs);
    UniqKeys(ss, cs);
    IsDistinctListIntro(Uniq(ss, cs), ss, cs);
  }

  lemma IsDistinctListIntro(us: seq<string>, ss: seq<string>, cs: bool)
    requires Increasing(us, cs) && DrawnFrom(us, ss) && Keys(us, cs) == Keys(ss, cs)
    ensures IsDistinctList(us, ss, cs)
  {
  }

  lemma {:induction false} KeyIn(x: string, ss: seq<string>, cs: bool)
    requires x in ss
    ensures Key(x, cs) in Keys(ss, cs)
  {
    var n := |ss| - 1;
    if x != ss[n] {
      assert ss == ss[..n] + [ss[n]];
      KeyIn(x, ss[..n], cs);
    }
  }

  lemma {:induction false} KeyWitness(k: string, ss: seq<string>, cs: bool) returns (i: nat)
    requires k in Keys(ss, cs)
    ensures i < |ss| && Key(ss[i], cs) == k
  {
    var n := |ss| - 1;
    if Key(ss[n], cs) == k {
      i := n;
    } else {
      i := KeyWitness(k, ss[..n], cs);
    }
  }

  lemma KeysOfPermutation(a: seq<string>, b: seq<string>, cs: bool)
    requires multiset(a) == multiset(b)
    ensures Keys(a, cs) <= Keys(b, cs)
  {
    forall k | k in Keys(a, cs) ensures k in Keys(b, cs) {
      var i := KeyWitness(k, a, cs);
      assert a[i] in multiset(b);
      KeyIn(a[i], b, cs);
    }
  }

  lemma SameElements(a: seq<string>, b: seq<string>)
    requires multiset(a) == multiset(b)
    ensures forall x :: x in a ==> x in b
  {
    forall x | x in a ensures x in b {
      assert x in multiset(a);
    }
  }

  /** unique lists one value per key in increasing order, whatever the order of the input and
      however qsort arranged the strings that compare equal. */
  lemma UniqueIsDistinctList(ss: seq<string>, sorted: seq<string>, cs: bool)
    requires Ordered(sorted, cs) && multiset(sorted) == multiset(ss)
    ensures IsDistinctList(Uniq(sorted, cs), ss, cs)
  {
    hide *;
    UniqDistinct(sorted, cs);
    DistinctListOf(Uniq(sorted, cs), sorted, ss, cs);
  }

  lemma DistinctListOf(us: seq<string>, sorted: seq<string>, ss: seq<string>, cs: bool)
    requires IsDistinctList(us, sorted, cs) && multiset(sorted) == multiset(ss)
    ensures IsDistinctList(us, ss, cs)
  {
    hide Keys, Increasing;
    KeysOfPermutation(sorted, ss, cs);
    KeysOfPermutation(ss, sorted, cs);
    SameElements(sorted, ss);
  }

  /** The length of an increasing list is the number of different keys in it. */
  lemma {:induction false} IncreasingCount(us: seq<string>, cs: bool)
    requires Increasing(us, cs)
    ensures |us| == |Keys(us, cs)|
  {
    var n := |us| - 1;
    if n >= 0 {
      IncreasingCount(us[..n], cs);
      assert forall i :: 0 <= i < n ==> us[..n][i] == us[i] && Below(us[i], us[n], cs);
      KeyAbsent(us[n], us[..n], cs);
    }
  }

  lemma {:induction false} KeyAbsent(x: string, us: seq<string>, cs: bool)
    requires forall i :: 0 <= i < |us| ==> !Same(us[i], x, cs)
    ensures Key(x, cs) !in Keys(us, cs)
  {
    if us != [] {
      KeyAbsent(x, us[..|us| - 1], cs);
    }
  }

  /** countunique is the number of different keys, again for every outcome of qsort. */
  lemma UniqueCount(ss: seq<string>, sorted: seq<string>, cs: bool)
    requires Ordered(sorted, cs) && multiset(sorted) == multiset(ss)
    ensures |Uniq(sorted, cs)| == |Keys(ss, cs)|
  {
    UniqueIsDistinctList(ss, sorted, cs);
    hide Uniq, Keys, Increasing;
    IncreasingCount(Uniq(sorted, cs), cs);
  }

  // --- Reading the buffer back -------------------------------------------------------------

  lemma PackSplit(ss: seq<string>, i: nat)
    requires i < |ss|
    ensures Pack(ss) == Pack(ss[..i]) + ss[i] + [NUL] + Pack(ss[i + 1..])
    ensures Pack(ss[..i + 1]) == Pack(ss[..i]) + ss[i] + [NUL]
  {
    hide Pack;
    assert ss == ss[..i + 1] + ss[i + 1..];
    PackConcat(ss[..i + 1], ss[i + 1..]);
    assert ss[..i + 1] == ss[..i] + [ss[i]];
    PackSnoc(ss[..i], ss[i]);
  }

  /** The string starts where the previous ones end, and the scan for its NUL finds its end. */
  lemma StringAt(ss: seq<string>, i: nat, buf: string, used: nat)
    requires NulFree(ss) && i < |ss| && used <= |buf| && buf[..used] == Pack(ss)
    ensures var p := |Pack(ss[..i])|;
      && p + |ss[i]| < used
      && Trunc(buf[p..used]) == ss[i]
      && Scan(buf[..used], p, Except(NUL)) == p + |ss[i]|
      && |Pack(ss[..i + 1])| == p + |ss[i]| + 1
  {
    PackSplit(ss, i);
    var before, rest := Pack(ss[..i]), Pack(ss[i + 1..]);
    hide *;
    assert buf[..used] == before + ss[i] + [NUL] + rest;
    StringBetween(before, ss[i], rest);
    assert buf[..used][|before|..] == buf[|before|..used];
  }

  lemma StringBetween(before: string, s: string, rest: string)
    requires NUL !in s
    ensures Trunc((before + s + [NUL] + rest)[|before|..]) == s
    ensures Scan(before + s + [NUL] + rest, |before|, Except(NUL)) == |before| + |s|
  {
    hide Trunc, Scan;
    var t := before + s + [NUL] + rest;
    assert t[|before|..] == s + [NUL] + rest;
    TruncConcat(s, rest);
    assert t == before + s + ([NUL] + rest);
    ScanOver(before, s, [NUL] + rest, Except(NUL));
  }

  /** field_op_get_string_ptrs: each pointer, an index into the buffer, is to a collected string. */
  method GetStringPtrs(buf: string, used: nat, count: nat, ghost ss: seq<string>) returns (ptrs: seq<nat>)
    requires used <= |buf| && buf[..used] == Pack(ss) && NulFree(ss) && count == |ss|
    ensures |ptrs| == count
    ensures forall i :: 0 <= i < count ==> ptrs[i] < used && Trunc(buf[ptrs[i]..used]) == ss[i]
  {
    hide Pack, Scan, Trunc;
    ptrs := [];
    var p := 0;
    PackEnds(ss);
    while p < used && |ptrs| < count
      invariant |ptrs| <= count && p == |Pack(ss[..|ptrs|])|
      invariant forall i :: 0 <= i < |ptrs| ==> ptrs[i] < used && Trunc(buf[ptrs[i]..used]) == ss[i]
      decreases count - |ptrs|
    {
      StringAt(ss, |ptrs|, buf, used);
      ghost var start := p;
      ptrs := ptrs + [p];
      while p < used && buf[p] != NUL
        invariant start <= p <= used
        invariant forall k :: start <= k < p ==> buf[..used][k] != NUL
      {
        p := p + 1;
      }
      ScanUnique(buf[..used], start, Except(NUL), p);
      p := p + 1;
    }
    if |ptrs| < count {
      StringAt(ss, |ptrs|, buf, used);
    }
  }

  lemma PackEnds(ss: seq<string>)
    ensures Pack(ss[..0]) == ""
  {
  }

  // --- unique, countunique, collapse -------------------------------------------------------

  lemma UniqStep(ss: seq<string>, i: nat, cs: bool)
    requires 0 < i < |ss|
    ensures Uniq(ss[..i + 1], cs)
         == if Same(ss[i], ss[i - 1], cs) then Uniq(ss[..i], cs) else Uniq(ss[..i], cs) + [ss[i]]
  {
    hide Same;
    assert ss[..i + 1][..i] == ss[..i];
  }

  lemma {:induction false} UniqNonEmpty(ss: seq<string>, cs: bool)
    requires ss != []
    ensures Uniq(ss, cs) != []
  {
    if |ss| > 1 {
      UniqNonEmpty(ss[..|ss| - 1], cs);
    }
  }

  /** strcpy of s to out + pos, with its terminating NUL. */
  method StrCpy(out: array<char>, pos: nat, s: string)
    requires pos + |s| < out.Length
    modifies out
    ensures out[..pos + |s|] == old(out[..pos]) + s && out[pos + |s|] == NUL
  {
    var k := 0;
    while k < |s|
      invariant 0 <= k <= |s|
      invariant out[..pos] == old(out[..pos])
      invariant out[pos..pos + k] == s[..k]
    {
      out[pos + k] := s[k];
      k := k + 1;
    }
    out[pos + |s|] := NUL;
    assert out[..pos + |s|] == out[..pos] + out[pos..pos + |s|];
  }

  /** The loop body of unique_value: the separator over the old terminator, then the next string. */
  method AppendItem(out: array<char>, len: nat, sep: char, s: string)
    requires len + 1 + |s| < out.Length
    modifies out
    ensures out[..len + 1 + |s|] == old(out[..len]) + [sep] + s && out[len + 1 + |s|] == NUL
  {
    out[len] := sep;
    assert out[..len + 1] == out[..len] + [sep];
    StrCpy(out, len + 1, s);
  }

  /** unique_value over the sorted strings: the distinct ones, joined, written inside a buffer
      of str_buf_used bytes. */
  method UniqueValue(ss: seq<string>, caseSensitive: bool, sep: char) returns (out: array<char>, len: nat)
    requires ss != []
    ensures fresh(out) && out.Length == |Pack(ss)| && len < out.Length
    ensures out[..len] == TextLines.Join(Uniq(ss, caseSensitive), sep) && out[len] == NUL
  {
    hide *;
    PackSplit(ss, 0);
    PackEnds(ss);
    out := new char[PackedSize(ss)];
    StrCpy(out, 0, ss[0]);
    len := |ss[0]|;
    UniqFirst(ss, caseSensitive);
    assert out[..0] == "";
    JoinOne(ss[0], sep);
    var i := 1;
    while i < |ss|
      invariant 1 <= i <= |ss|
      invariant len < |Pack(ss[..i])| <= out.Length
      invariant out[..len] == TextLines.Join(Uniq(ss[..i], caseSensitive), sep) && out[len] == NUL
    {
      PackSplit(ss, i);
      UniqStep(ss, i, caseSensitive);
      if !Same(ss[i], ss[i - 1], caseSensitive) {
        AppendDistinct(Uniq(ss[..i], caseSensitive), out, len, sep, ss, i, caseSensitive);
        len := len + 1 + |ss[i]|;
      }
      i := i + 1;
    }
    assert ss[..|ss|] == ss;
  }

  /** The branch of the loop for a string that differs from the one before it. */
  method AppendDistinct(ghost us: seq<string>, out: array<char>, len: nat, sep: char, ss: seq<string>, i: nat,
                        ghost cs: bool)
    requires 0 < i < |ss| && us == Uniq(ss[..i], cs) && len + 1 + |ss[i]| < out.Length
    requires out[..len] == TextLines.Join(us, sep)
    modifies out
    ensures out[..len + 1 + |ss[i]|] == TextLines.Join(us + [ss[i]], sep) && out[len + 1 + |ss[i]|] == NUL
  {
    UniqNonEmpty(ss[..i], cs);
    hide *;
    TextLines.JoinSnoc(us, ss[i], sep);
    AppendItem(out, len, sep, ss[i]);
  }

  lemma UniqFirst(ss: seq<string>, cs: bool)
    requires ss != []
    ensures ss[..1] == [ss[0]] && Uniq(ss[..1], cs) == [ss[0]]
  {
  }

  lemma JoinOne(s: string, sep: char)
    ensures TextLines.Join([s], sep) == s
  {
  }

  /** str_buf_used. */
  function PackedSize(ss: seq<string>): (n: nat)
    ensures n == |Pack(ss)|
  {
    if ss == [] then 0 else PackedSize(ss[..|ss| - 1]) + |ss[|ss| - 1]| + 1
  }

  /** count_unique_values over the sorted strings. */
  method CountUniqueValues(ss: seq<string>, caseSensitive: bool) returns (count: nat)
    requires ss != []
    ensures count == |Uniq(ss, caseSensitive)|
  {
    assert Uniq(ss[..1], caseSensitive) == [ss[0]];
    hide Uniq, Same;
    count := 1;
    var i := 1;
    while i < |ss|
      invariant 1 <= i <= |ss| && count == |Uniq(ss[..i], caseSensitive)|
    {
      UniqStep(ss, i, caseSensitive);
      if !Same(ss[i], ss[i - 1], caseSensitive) {
        count := count + 1;
      }
      i := i + 1;
    }
    assert ss[..|ss|] == ss;
  }

  /** The buffer with every NUL turned into the separator. */
  function Separated(s: string, sep: char): (r: string)
    ensures |r| == |s|
    ensures forall i :: 0 <= i < |s| ==> r[i] == if s[i] == NUL then sep else s[i]
  {
    seq(|s|, i requires 0 <= i < |s| => if s[i] == NUL then sep else s[i])
  }

  lemma SeparatedConcat(a: string, b: string, sep: char)
    ensures Separated(a + b, sep) == Separated(a, sep) + Separated(b, sep)
  {
  }

  lemma {:induction false} SeparatedPack(ss: seq<string>, sep: char)
    requires ss != [] && NulFree(ss)
    ensures Separated(Pack(ss), sep) == TextLines.Join(ss, sep) + [sep]
  {
    PackHead(ss);
    SeparatedConcat(ss[0] + [NUL], Pack(ss[1..]), sep);
    assert Separated(ss[0] + [NUL], sep) == ss[0] + [sep];
    hide Separated;
    if |ss| == 1 {
      assert Pack(ss[1..]) == "";
      assert Separated("", sep) == "";
    } else {
      SeparatedPack(ss[1..], sep);
      SeparatorMoves(ss[0], sep, TextLines.Join(ss[1..], sep));
    }
  }

  lemma SeparatorMoves(a: string, sep: char, b: string)
    ensures (a + [sep]) + (b + [sep]) == (a + [sep] + b) + [sep]
  {
  }

  /** collapse_value: the collected strings joined in input order. */
  method CollapseValue(buf: string, used: nat, sep: char, ghost ss: seq<string>) returns (out: array<char>)
    requires used <= |buf| && buf[..used] == Pack(ss) && NulFree(ss) && ss != []
    ensures fresh(out) && out.Length == used > 0
    ensures out[..used - 1] == TextLines.Join(ss, sep) && out[used - 1] == NUL
  {
    PackLength(ss);
    var n := |ss| - 1;
    assert Pack(ss)[|Pack(ss)| - 1] == NUL;
    SeparatedPack(ss, sep);
    hide Pack, TextLines.Join, Separated;
    out := new char[used](i requires 0 <= i < used <= |buf| => buf[i]);
    var i := 0;
    while i < used - 1
      invariant 0 <= i <= used - 1
      invariant forall k :: 0 <= k < i ==> out[k] == if buf[k] == NUL then sep else buf[k]
      invariant forall k :: i <= k < used ==> out[k] == buf[k]
    {
      if out[i] == NUL {
        out[i] := sep;
      }
      i := i + 1;
    }
    assert forall k :: 0 <= k < used ==> buf[..used][k] == buf[k];
    assert out[..used - 1] == Separated(buf[..used], sep)[..used - 1];
  }
}
