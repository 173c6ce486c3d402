/** Validation of --format (src/double-format.c). */
module DoubleFormat {
  import opened Text

  const MAX_NUMERIC_FORMAT_LEN: nat := 100

  predicate IsType(c: char) {
    c == 'e' || c == 'f' || c == 'g' || c == 'a' || c == 'E' || c == 'F' || c == 'G' || c == 'A'
  }

  // --- The grammar -------------------------------------------------------------------------

  /** From i to j, s is plain characters and %% only. */
  predicate IsText(s: string, i: nat, j: nat)
    requires i <= j <= |s|
    decreases j - i
  {
    i == j || (s[i] != '%' && IsText(s, i + 1, j))
    || (i + 2 <= j && s[i] == '%' && s[i + 1] == '%' && IsText(s, i + 2, j))
  }

  /** A format taken apart: text % flags width .precision type text. */
  datatype Parts = Parts(front: string, flags: string, width: string, precision: Option<string>, kind: char, back: string)
  {
    predicate Good() {
      && IsText(front, 0, |front|) && IsText(back, 0, |back|)
      && AllIn(flags, FormatFlag) && AllIn(width, Digit)
      && (precision.Some? ==> AllIn(precision.value, Digit))
      && IsType(kind)
    }

    function Precision(): string {
      if precision.Some? then "." + precision.value else ""
    }

    /** The directive up to its type. */
    function Directive(): string {
      "%" + (flags + (width + Precision()))
    }

    function Show(): string {
      front + (Directive() + ([kind] + back))
    }

    /** The same format for a long double. */
    function ShowLong(): string {
      front + (Directive() + ("L" + ([kind] + back)))
    }
  }

  // --- The scan ----------------------------------------------------------------------------

  /** The first % that is not doubled, or the end. */
  function SkipText(s: string, i: nat): (j: nat)
    requires i <= |s|
    ensures i <= j <= |s|
    ensures j < |s| ==> s[j] == '%' && (j + 1 == |s| || s[j + 1] != '%')
    decreases |s| - i
  {
    if i == |s| then i
    else if s[i] != '%' then SkipText(s, i + 1)
    else if i + 1 < |s| && s[i + 1] == '%' then SkipText(s, i + 2)
    else i
  }

  /** Where the directive's type letter is looked for, if its % stands at i. */
  function TypeAt(s: string, i: nat): (j: nat)
    requires i < |s|
    ensures i < j <= |s|
  {
    var p := Scan(s, Scan(s, i + 1, FormatFlag), Digit);
    if p < |s| && s[p] == '.' then Scan(s, p + 1, Digit) else p
  }

  /** validate_double_format: the format with an L before the type letter. */
  method ValidateDoubleFormat(fmt: string) returns (r: Option<string>)
    requires NUL !in fmt
    ensures r == Validated(fmt)
  {
    hide TypeAt, SkipText;
    var len := |fmt|;
    if len > MAX_NUMERIC_FORMAT_LEN - 1 {
      return None;
    }
    var out := new char[len + 2];
    var i: nat := Skip(fmt, 0);
    if CharAt(fmt, i) == NUL {
      return None;
    }
    i := FindType(fmt, i);
    if CharAt(fmt, i) == NUL || !IsType(fmt[i]) {
      return None;
    }
    CopyLong(fmt, i, out);
    i := Skip(fmt, i + 1);
    if CharAt(fmt, i) != NUL {
      return None;
    }
    r := Some(out[..len + 1]);
  }

  /** The loops over the text around the directive: to the first single % or the terminator. */
  method Skip(fmt: string, from: nat) returns (i: nat)
    requires NUL !in fmt && from <= |fmt|
    ensures i == SkipText(fmt, from) && (CharAt(fmt, i) == NUL <==> i == |fmt|)
  {
    hide SkipText;
    i := from;
    while !(CharAt(fmt, i) == '%' && CharAt(fmt, i + 1) != '%') && CharAt(fmt, i) != NUL
      invariant i <= |fmt| && SkipText(fmt, i) == SkipText(fmt, from)
      decreases |fmt| - i
    {
      SkipOne(fmt, i);
      i := i + (if CharAt(fmt, i) == '%' then 1 else 0) + 1;
    }
    SkipOne(fmt, i);
  }

  /** The spans of the directive whose % stands at `percent`. */
  method FindType(fmt: string, percent: nat) returns (i: nat)
    requires NUL !in fmt && percent < |fmt|
    ensures i == TypeAt(fmt, percent) && (CharAt(fmt, i) == NUL <==> i == |fmt|)
  {
    hide Scan;
    i := percent + 1;
    i := StrSpn(fmt, i, FormatFlag);
    i := StrSpn(fmt, i, Digit);
    if CharAt(fmt, i) == '.' {
      i := i + 1;
      i := StrSpn(fmt, i, Digit);
    }
  }

  /** A character of a C string, which ends with a NUL. */
  function CharAt(s: string, i: nat): char
    requires i <= |s|
  {
    if i < |s| then s[i] else NUL
  }

  /** What the loops and scans of validate_double_format amount to. */
  function Validated(fmt: string): Option<string> {
    var p := SkipText(fmt, 0);
    if |fmt| > MAX_NUMERIC_FORMAT_LEN - 1 || p == |fmt| then None else
    var t := TypeAt(fmt, p);
    if t == |fmt| || !IsType(fmt[t]) || SkipText(fmt, t + 1) < |fmt| then None
    else Some(fmt[..t] + ['L'] + fmt[t..])
  }

  lemma SkipOne(s: string, i: nat)
    requires i <= |s| && NUL !in s
    ensures CharAt(s, i) == NUL <==> i == |s|
    ensures i == |s| ==> SkipText(s, i) == i
    ensures i < |s| && s[i] != '%' ==> SkipText(s, i) == SkipText(s, i + 1)
    ensures i + 1 < |s| && s[i] == '%' && s[i + 1] == '%' ==> SkipText(s, i) == SkipText(s, i + 2)
    ensures i < |s| && s[i] == '%' && CharAt(s, i + 1) != '%' ==> SkipText(s, i) == i
  {
  }

  method StrSpn(s: string, from: nat, cls: CharClass) returns (i: nat)
    requires from <= |s|
    ensures i == Scan(s, from, cls)
  {
    i := from;
    while i < |s| && cls.Has(s[i])
      invariant from <= i <= |s| && forall k :: from <= k < i ==> cls.Has(s[k])
    {
      i := i + 1;
    }
    ScanUnique(s, from, cls, i);
  }

  /** The copies into the output buffer. */
  method CopyLong(fmt: string, i: nat, out: array<char>)
    requires i < |fmt| && out.Length == |fmt| + 2
    modifies out
    ensures out[..|fmt| + 1] == fmt[..i] + ['L'] + fmt[i..] && out[|fmt| + 1] == NUL
  {
    var len := |fmt|;
    forall k | 0 <= k < i { out[k] := fmt[k]; }
    out[i] := 'L';
    out[i + 1] := fmt[i];
    forall k | 0 <= k < len - i { out[i + 2 + k] := CharAt(fmt, i + 1 + k); }
    out[len + 1] := NUL;
  }

  // --- The accepted formats ----------------------------------------------------------------

  lemma {:induction false} SkipsText(s: string, i: nat, j: nat)
    requires i <= j <= |s| && IsText(s, i, j)
    requires j == |s| || (s[j] == '%' && (j + 1 == |s| || s[j + 1] != '%'))
    ensures SkipText(s, i) == j
    decreases j - i
  {
    if i < j {
      if s[i] != '%' {
        SkipsText(s, i + 1, j);
      } else {
        SkipsText(s, i + 2, j);
      }
    }
  }

  lemma {:induction false} SkippedIsText(s: string, i: nat)
    requires i <= |s|
    ensures IsText(s, i, SkipText(s, i))
    decreases |s| - i
  {
    if i < |s| && s[i] != '%' {
      SkippedIsText(s, i + 1);
    } else if i + 1 < |s| && s[i + 1] == '%' {
      SkippedIsText(s, i + 2);
    }
  }

  /** A text is a text wherever it stands. */
  lemma {:induction false} TextMoves(s: string, t: string, i: nat, a: nat, j: nat)
    requires i <= j <= |s| && a + (j - i) <= |t| && s[i..j] == t[a..a + (j - i)]
    ensures IsText(s, i, j) <==> IsText(t, a, a + (j - i))
    decreases j - i
  {
    if i < j {
      assert s[i] == s[i..j][0] == t[a];
      assert s[i + 1..j] == s[i..j][1..] && t[a + 1..a + (j - i)] == t[a..a + (j - i)][1..];
      TextMoves(s, t, i + 1, a + 1, j);
      if i + 2 <= j {
        assert s[i + 1] == s[i..j][1] == t[a + 1];
        assert s[i + 2..j] == s[i..j][2..] && t[a + 2..a + (j - i)] == t[a..a + (j - i)][2..];
        TextMoves(s, t, i + 2, a + 2, j);
      }
    }
  }

  /** The greedy spans find the type letter, however flags and width divide the zeros. */
  lemma SpansFindType(s: string, i: nat, p: Parts)
    requires At(s, i, p.Directive() + [p.kind]) && p.Good()
    ensures i + |p.Directive()| < |s| && s[i + |p.Directive()|] == p.kind
    ensures TypeAt(s, i) == i + |p.Directive()|
  {
    hide *;
    var e := i + |p.Directive()|;
    var (f, w) := (i + 1 + |p.flags|, i + 1 + |p.flags| + |p.width|);
    DirectiveParts(s, i, p);
    RunAt(s, i + 1, p.flags, FormatFlag);
    RunAt(s, f, p.width, Digit);
    TypeChar(s[w]);
    SpanTwo(s, i + 1, f, w);
    if p.precision.Some? {
      RunAt(s, w + 1, p.precision.value, Digit);
      TypeChar(s[e]);
      ScanUnique(s, w + 1, Digit, e);
    }
    TypeAtStep(s, i, w, e);
  }

  lemma TypeChar(c: char)
    ensures IsType(c) || c == '.' ==> !FormatFlag.Has(c) && !Digit.Has(c)
    ensures IsType(c) ==> c != '.' && c != '%'
  {
  }

  lemma TypeAtStep(s: string, i: nat, w: nat, e: nat)
    requires i < w <= e < |s| && Scan(s, Scan(s, i + 1, FormatFlag), Digit) == w
    requires if s[w] == '.' then Scan(s, w + 1, Digit) == e else w == e
    ensures TypeAt(s, i) == e
  {
    hide Scan;
  }

  lemma RunAt(s: string, i: nat, m: string, cls: CharClass)
    requires At(s, i, m) && AllIn(m, cls)
    ensures forall k :: i <= k < i + |m| ==> cls.Has(s[k])
  {
    forall k | i <= k < i + |m| ensures cls.Has(s[k]) {
      AtChar(s, i, m, k - i);
    }
  }

  /** Where the parts of a directive stand. */
  lemma DirectiveParts(s: string, i: nat, p: Parts)
    requires At(s, i, p.Directive() + [p.kind]) && p.Good()
    ensures var (f, w, e) := (i + 1 + |p.flags|, i + 1 + |p.flags| + |p.width|, i + |p.Directive()|);
      && i < w <= e < |s| && At(s, i + 1, p.flags) && At(s, f, p.width) && s[e] == p.kind
      && (p.precision.None? ==> w == e)
      && (p.precision.Some? ==> s[w] == '.' && e == w + 1 + |p.precision.value| && At(s, w + 1, p.precision.value))
    ensures AllIn(p.flags, FormatFlag) && AllIn(p.width, Digit) && IsType(p.kind)
    ensures p.precision.Some? ==> AllIn(p.precision.value, Digit)
  {
    var (f, w) := (i + 1 + |p.flags|, i + 1 + |p.flags| + |p.width|);
    hide At, AllIn;
    AtConcat(s, i, p.Directive(), [p.kind]);
    AtChar(s, i + |p.Directive()|, [p.kind], 0);
    AtEnd(s, i);
    AtConcat(s, i, "%", p.flags + (p.width + p.Precision()));
    AtConcat(s, i + 1, p.flags, p.width + p.Precision());
    AtConcat(s, f, p.width, p.Precision());
    if p.precision.Some? {
      AtConcat(s, w, ".", p.precision.value);
      AtChar(s, w, ".", 0);
    }
  }

  /** Flags and then digits; zeros at the border are taken as flags. */
  lemma SpanTwo(s: string, from: nat, f: nat, w: nat)
    requires from <= f <= w < |s|
    requires forall k :: from <= k < f ==> FormatFlag.Has(s[k])
    requires forall k :: f <= k < w ==> Digit.Has(s[k])
    requires !FormatFlag.Has(s[w]) && !Digit.Has(s[w])
    ensures Scan(s, Scan(s, from, FormatFlag), Digit) == w
  {
    var e := Scan(s, from, FormatFlag);
    assert f <= e <= w;
    ScanUnique(s, e, Digit, w);
  }

  /** A format that fits the buffer and has the grammar's form is accepted, and comes back with a
      single L in front of the type letter. */
  lemma AcceptsGrammar(fmt: string, p: Parts)
    requires p.Good() && fmt == p.Show() && |fmt| < MAX_NUMERIC_FORMAT_LEN
    ensures Validated(fmt) == Some(p.ShowLong())
  {
    hide *;
    var (a, t) := (|p.front|, |p.front| + |p.Directive()|);
    ShowParts(p);
    GoodType(p);
    FrontEnds(fmt, a, p);
    SpansFindType(fmt, a, p);
    BackEnds(fmt, t + 1, p);
    LongForm(fmt, t, p);
    ValidatedStep(fmt, a, t);
  }

  lemma GoodType(p: Parts)
    requires p.Good()
    ensures IsType(p.kind)
  {
  }

  lemma ValidatedStep(fmt: string, i: nat, t: nat)
    requires |fmt| < MAX_NUMERIC_FORMAT_LEN && SkipText(fmt, 0) == i < |fmt|
    requires TypeAt(fmt, i) == t < |fmt| && IsType(fmt[t]) && SkipText(fmt, t + 1) == |fmt|
    ensures Validated(fmt) == Some(fmt[..t] + ['L'] + fmt[t..])
  {
    hide SkipText, TypeAt, IsType;
  }

  lemma ShowParts(p: Parts)
    ensures var s := p.Show();
      && At(s, 0, p.front) && At(s, |p.front|, p.Directive() + [p.kind])
      && At(s, |p.front| + |p.Directive()| + 1, p.back)
      && |s| == |p.front| + |p.Directive()| + 1 + |p.back|
  {
    var s := p.Show();
    var rest := [p.kind] + p.back;
    hide Parts.Directive, At;
    AtWhole(s);
    AtConcat(s, 0, p.front, p.Directive() + rest);
    assert p.Directive() + rest == (p.Directive() + [p.kind]) + p.back;
    AtConcat(s, |p.front|, p.Directive() + [p.kind], p.back);
  }

  lemma FrontEnds(fmt: string, a: nat, p: Parts)
    requires p.Good() && a == |p.front| && At(fmt, 0, p.front) && At(fmt, a, p.Directive() + [p.kind])
    ensures SkipText(fmt, 0) == a && a < |fmt|
  {
    var d := p.Directive() + [p.kind];
    AtChar(fmt, a, d, 0);
    AtChar(fmt, a, d, 1);
    SecondChar(p);
    hide SkipText, IsText, Parts.Directive;
    TextMoves(p.front, fmt, 0, 0, a);
    SkipsText(fmt, 0, a);
  }

  /** What follows the % of a directive is no %. */
  lemma SecondChar(p: Parts)
    requires p.Good()
    ensures var d := p.Directive() + [p.kind]; |d| > 1 && d[0] == '%' && d[1] != '%'
  {
    var rest := p.flags + (p.width + p.Precision());
    var d := p.Directive() + [p.kind];
    assert d == "%" + (rest + [p.kind]);
    TypeChar(p.kind);
    if p.flags != "" {
      assert d[1] == p.flags[0] && FormatFlag.Has(p.flags[0]);
    } else if p.width != "" {
      assert d[1] == p.width[0] && Digit.Has(p.width[0]);
    } else if p.precision.Some? {
      assert d[1] == p.Precision()[0];
    } else {
      assert d[1] == p.kind;
    }
  }

  lemma BackEnds(fmt: string, i: nat, p: Parts)
    requires p.Good() && At(fmt, i, p.back) && i + |p.back| == |fmt|
    ensures SkipText(fmt, i) == |fmt|
  {
    hide SkipText, IsText;
    TextMoves(p.back, fmt, 0, i, |p.back|);
    SkipsText(fmt, i, |fmt|);
  }

  lemma LongForm(fmt: string, t: nat, p: Parts)
    requires fmt == p.Show() && t == |p.front| + |p.Directive()|
    ensures t < |fmt| && fmt[..t] + ['L'] + fmt[t..] == p.ShowLong()
  {
    hide Parts.Directive;
    assert fmt == (p.front + p.Directive()) + ([p.kind] + p.back);
    assert fmt[..t] == p.front + p.Directive() && fmt[t..] == [p.kind] + p.back;
  }

  /** The parts of an accepted format. */
  lemma AcceptedParts(fmt: string) returns (p: Parts)
    requires Validated(fmt).Some?
    ensures p.Good() && fmt == p.Show()
  {
    hide *;
    ValidatedPositions(fmt);
    var i := SkipText(fmt, 0);
    var t := TypeAt(fmt, i);
    var f, w, precision := SpannedParts(fmt, i);
    TextSlice(fmt, 0, i);
    TextSlice(fmt, t + 1, |fmt|);
    p := Parts(fmt[0..i], fmt[i + 1..f], fmt[f..w], precision, fmt[t], fmt[t + 1..|fmt|]);
    Reassembled(fmt, i, f, w, t, p);
  }

  lemma ValidatedPositions(fmt: string)
    requires Validated(fmt).Some?
    ensures var i := SkipText(fmt, 0);
      && i < |fmt| && fmt[i] == '%' && TypeAt(fmt, i) < |fmt| && IsType(fmt[TypeAt(fmt, i)])
      && IsText(fmt, 0, i) && IsText(fmt, TypeAt(fmt, i) + 1, |fmt|)
  {
    hide SkipText, TypeAt, IsType, IsText;
    SkippedIsText(fmt, 0);
    SkippedIsText(fmt, TypeAt(fmt, SkipText(fmt, 0)) + 1);
  }

  lemma TextSlice(s: string, i: nat, j: nat)
    requires i <= j <= |s| && IsText(s, i, j)
    ensures IsText(s[i..j], 0, |s[i..j]|)
  {
    hide IsText;
    TextMoves(s[i..j], s, 0, i, j - i);
  }

  /** Where the spans of the directive end. */
  lemma SpannedParts(s: string, i: nat) returns (f: nat, w: nat, precision: Option<string>)
    requires i < |s|
    ensures var t := TypeAt(s, i);
      && i < f <= w <= t && AllIn(s[i + 1..f], FormatFlag) && AllIn(s[f..w], Digit)
      && (precision.None? ==> w == t)
      && (precision.Some? ==> w < t && s[w..t] == "." + precision.value && AllIn(precision.value, Digit))
  {
    f := Scan(s, i + 1, FormatFlag);
    w := Scan(s, f, Digit);
    var t := TypeAt(s, i);
    precision := if w < t then Some(s[w + 1..t]) else None;
    hide Scan;
    if w < t {
      assert s[w..t] == [s[w]] + s[w + 1..t];
    }
  }

  lemma Reassembled(s: string, i: nat, f: nat, w: nat, t: nat, p: Parts)
    requires i < f <= w <= t < |s| && s[i] == '%' && s[t] == p.kind && IsType(p.kind)
    requires p.front == s[0..i] && p.flags == s[i + 1..f] && p.width == s[f..w] && p.back == s[t + 1..|s|]
    requires AllIn(p.flags, FormatFlag) && AllIn(p.width, Digit)
    requires p.precision.None? ==> w == t
    requires p.precision.Some? ==> s[w..t] == "." + p.precision.value && AllIn(p.precision.value, Digit)
    requires IsText(p.front, 0, |p.front|) && IsText(p.back, 0, |p.back|)
    ensures p.Good() && p.Show() == s
  {
    hide IsText, AllIn, IsType;
    assert p.Precision() == s[w..t];
    hide Parts.Precision;
    assert p.Directive() == s[i..t];
    hide Parts.Directive;
    assert s == s[0..i] + (s[i..t] + ([s[t]] + s[t + 1..|s|]));
  }

  /** The accepted formats are exactly those of the grammar that fit the buffer. */
  lemma AcceptedExactly(fmt: string)
    ensures Validated(fmt).Some? <==> |fmt| < MAX_NUMERIC_FORMAT_LEN && exists p: Parts :: p.Good() && fmt == p.Show()
  {
    hide Parts.Good, Parts.Show;
    if Validated(fmt).Some? {
      var p := AcceptedParts(fmt);
    }
    if p: Parts :| |fmt| < MAX_NUMERIC_FORMAT_LEN && p.Good() && fmt == p.Show() {
      AcceptsGrammar(fmt, p);
    }
  }
}
