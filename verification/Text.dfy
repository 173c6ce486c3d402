/** Characters, C strings and the maximal-prefix scans (strspn, pointer loops) shared by all modules. */
module Text {

  const NUL: char := '\0'

  const SIZE_MAX: nat := 0xFFFF_FFFF_FFFF_FFFF

  datatype Option<+T> = None | Some(value: T)

  /** The character sets the source scans over. */
  datatype CharClass =
    | Except(c: char)   // every character but one: the scan for a delimiter
    | Blank             // isblank in the C locale
    | NonBlank
    | FieldSep          // the blanks of key-compare.c, which add the newline
    | NonFieldSep
    | AlNum
    | Digit
    | FormatFlag        // the flags of a printf directive
    | Space             // c_isspace
  {
    predicate Has(x: char) {
      match this
      case Except(c) => x != c
      case Blank => IsBlank(x)
      case NonBlank => !IsBlank(x)
      case FieldSep => IsFieldSep(x)
      case NonFieldSep => !IsFieldSep(x)
      case AlNum => IsAlNum(x)
      case Digit => IsDigit(x)
      case Space => IsSpace(x)
      case FormatFlag => x == '-' || x == '+' || x == '#' || x == '0' || x == ' ' || x == '\''
    }
  }

  predicate IsBlank(x: char) { x == ' ' || x == '\t' }

  predicate IsFieldSep(x: char) { IsBlank(x) || x == '\n' }

  predicate IsSpace(x: char) { x == ' ' || '\t' <= x <= '\r' }

  predicate IsDigit(x: char) { '0' <= x <= '9' }

  predicate IsAlpha(x: char) { 'a' <= x <= 'z' || 'A' <= x <= 'Z' }

  predicate IsAlNum(x: char) { IsDigit(x) || IsAlpha(x) }

  /** tolower in the C locale. */
  function Lower(x: char): char {
    if 'A' <= x <= 'Z' then (x as int + 32) as char else x
  }

  function LowerAll(s: string): (r: string)
    ensures |r| == |s|
    ensures forall i :: 0 <= i < |s| ==> r[i] == Lower(s[i])
  {
    if s == "" then "" else [Lower(s[0])] + LowerAll(s[1..])
  }

  predicate AllIn(s: string, cls: CharClass) {
    forall i :: 0 <= i < |s| ==> cls.Has(s[i])
  }

  /** Where a scan from pos over characters of the class stops. */
  function Scan(s: string, pos: nat, cls: CharClass): (end: nat)
    requires pos <= |s|
    ensures pos <= end <= |s|
    ensures forall k :: pos <= k < end ==> cls.Has(s[k])
    ensures end < |s| ==> !cls.Has(s[end])
    decreases |s| - pos
  {
    if pos == |s| || !cls.Has(s[pos]) then pos else Scan(s, pos + 1, cls)
  }

  /** The facts that determine where a scan stops. */
  lemma ScanUnique(s: string, pos: nat, cls: CharClass, end: nat)
    requires pos <= end <= |s|
    requires forall k :: pos <= k < end ==> cls.Has(s[k])
    requires end < |s| ==> !cls.Has(s[end])
    ensures Scan(s, pos, cls) == end
  {
  }

  /** A scan that starts past a prefix does not see the prefix. */
  lemma ScanShift(a: string, s: string, pos: nat, cls: CharClass)
    requires pos <= |s|
    ensures Scan(a + s, |a| + pos, cls) == |a| + Scan(s, pos, cls)
  {
    ScanUnique(a + s, |a| + pos, cls, |a| + Scan(s, pos, cls));
  }

  /** A scan runs over a whole string of the class. */
  lemma ScanOver(a: string, m: string, s: string, cls: CharClass)
    requires AllIn(m, cls)
    requires s != "" ==> !cls.Has(s[0])
    ensures Scan(a + m + s, |a|, cls) == |a| + |m|
  {
    var t := a + m + s;
    assert forall k :: |a| <= k < |a| + |m| ==> t[k] == m[k - |a|];
    ScanUnique(t, |a|, cls, |a| + |m|);
  }

  /** The text t stands at position p. */
  predicate At(s: string, p: nat, t: string) {
    p + |t| <= |s| && s[p..p + |t|] == t
  }

  lemma AtChar(s: string, p: nat, t: string, k: nat)
    requires At(s, p, t) && k < |t|
    ensures s[p + k] == t[k]
  {
    assert s[p..p + |t|][k] == t[k];
  }

  lemma AtConcat(s: string, p: nat, a: string, b: string)
    requires At(s, p, a + b)
    ensures At(s, p, a) && At(s, p + |a|, b)
  {
    var t := s[p..p + |a + b|];
    assert t[..|a|] == a && t[|a|..] == b;
    assert s[p..p + |a|] == t[..|a|] && s[p + |a|..p + |a| + |b|] == t[|a|..];
  }

  lemma AtWhole(s: string)
    ensures At(s, 0, s)
  {
  }

  lemma AtEnd(s: string, p: nat)
    ensures forall t: string :: At(s, p, t) ==> p + |t| <= |s|
  {
  }

  /** strcmp's order. */
  predicate Before(a: string, b: string) {
    b != "" && (a == "" || a[0] < b[0] || (a[0] == b[0] && Before(a[1..], b[1..])))
  }

  /** strcmp(a, b) <= 0. */
  predicate StrLe(a: string, b: string) { !Before(b, a) }

  /** What strcmp and printf %s see of the bytes of s: everything before the first NUL. */
  function Trunc(s: string): (r: string)
    ensures r <= s
    ensures NUL !in r
    ensures |r| < |s| ==> s[|r|] == NUL
  {
    s[..Scan(s, 0, Except(NUL))]
  }

  lemma TruncConcat(a: string, b: string)
    requires NUL !in a
    ensures Trunc(a + [NUL] + b) == a
  {
    ScanUnique(a + [NUL] + b, 0, Except(NUL), |a|);
  }

  function MinOf(a: int, b: int): int { if a <= b then a else b }

  function MaxOf(a: int, b: int): int { if a <= b then b else a }
}
