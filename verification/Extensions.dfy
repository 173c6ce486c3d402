/** Guessing the extension of a file name (guess_file_extension in src/utils.c; barename and
    extname in src/field-ops.c). */
module Extensions {
  import opened Text

  /** Extensions that are added to a file that may already have one. */
  predicate IsAddOn(e: string) {
    e == ".gpg" || e == ".bz2" || e == ".std" || e == ".gz" || e == ".xz" || e == ".lz"
  }

  // --- What the extension of a name is -----------------------------------------------------

  /** From m to end, s consists of add-on extensions. */
  ghost predicate Chain(s: string, m: nat, end: nat)
    requires m <= end <= |s|
    decreases end
  {
    m == end || exists k :: m <= k < end && IsAddOn(s[k..end]) && Chain(s, m, k)
  }

  /** An extension that is no add-on, from i to j: a dot and letters or digits, maybe none. */
  predicate Ordinary(s: string, i: nat, j: nat)
    requires i <= j <= |s|
  {
    0 < i < j && s[i] == '.' && AllIn(s[i + 1..j], AlNum)
  }

  /** The extension is the longest trailing chain of add-ons, and the ordinary extension before
      it, if there is one; the name does not consist of the extension alone. */
  ghost predicate ExtensionFrom(s: string, start: nat) {
    exists m :: 0 < start <= m <= |s| && Chain(s, m, |s|) && EndsAt(s, start, m)
  }

  /** The ordinary extension before m, or none. */
  ghost predicate EndsAt(s: string, start: nat, m: nat)
    requires start <= m <= |s|
  {
    if start == m then forall i :: 0 < i < m ==> !Ordinary(s, i, m)
    else Ordinary(s, start, m) && !IsAddOn(s[start..m])
  }

  // --- The scan ----------------------------------------------------------------------------

  /** Back from end over letters and digits, not beyond the first character. */
  function LastRun(s: string, end: nat): (l: nat)
    requires 0 < end <= |s|
    ensures l < end && (l > 0 ==> !IsAlNum(s[l]))
    ensures forall k :: l < k < end ==> IsAlNum(s[k])
  {
    if end == 1 || !IsAlNum(s[end - 1]) then end - 1 else LastRun(s, end - 1)
  }

  /** Where the extension of s starts, when everything from end on is known to belong to it. */
  function ExtStart(s: string, end: nat): (start: nat)
    requires 0 < end <= |s|
    ensures 0 < start <= end
    decreases end
  {
    var l := LastRun(s, end);
    if l == 0 || s[l] != '.' then end else if IsAddOn(s[l..end]) then ExtStart(s, l) else l
  }

  /** guess_file_extension: the length of the extension, with its dot. The goto is the loop. */
  method GuessFileExtension(s: string) returns (n: nat)
    ensures n == if s == "" then 0 else |s| - ExtStart(s, |s|)
  {
    hide LastRun, IsAddOn, ExtStart;
    var len, prevExtension := |s|, 0;
    if len == 0 {
      return 0;
    }
    var l := len - 1;
    while true
      invariant prevExtension <= len && l + 1 == (if prevExtension == 0 then len else prevExtension)
      invariant ExtStart(s, l + 1) == ExtStart(s, len)
      decreases l
    {
      ExtStep(s, l + 1);
      l := BackOverAlNum(s, l);
      if l > 0 && s[l] == '.' {
        var extLen := if prevExtension == 0 then len - l else prevExtension - l;
        if IsAddOn(s[l..l + extLen]) {
          prevExtension := l;
          l := l - 1;
        } else {
          return len - l;
        }
      } else {
        return if prevExtension != 0 then len - prevExtension else 0;
      }
    }
  }

  lemma ExtStep(s: string, end: nat)
    requires 0 < end <= |s|
    ensures var l := LastRun(s, end);
      ExtStart(s, end) == if l == 0 || s[l] != '.' then end else if IsAddOn(s[l..end]) then ExtStart(s, l) else l
  {
  }

  method BackOverAlNum(s: string, from: nat) returns (l: nat)
    requires from < |s|
    ensures l == LastRun(s, from + 1)
  {
    l := from;
    while l != 0 && IsAlNum(s[l])
      invariant l <= from && LastRun(s, l + 1) == LastRun(s, from + 1)
    {
      l := l - 1;
    }
  }

  // --- The scan finds the extension --------------------------------------------------------

  /** A dot followed by letters and digits is where the scan stops. */
  lemma {:induction false} RunStops(s: string, i: nat, end: nat)
    requires i <= end <= |s| && Ordinary(s, i, end)
    ensures LastRun(s, end) == i
  {
    forall k | i < k < end ensures IsAlNum(s[k]) {
      assert s[i + 1..end][k - i - 1] == s[k];
    }
    if i + 1 < end {
      assert s[i + 1..end][..end - i - 2] == s[i + 1..end - 1];
      RunStops(s, i, end - 1);
    }
  }

  lemma RunIsOrdinary(s: string, end: nat)
    requires 0 < end <= |s|
    ensures var l := LastRun(s, end); l > 0 && s[l] == '.' ==> Ordinary(s, l, end)
  {
    hide LastRun;
  }

  lemma AddOnIsOrdinary(s: string, k: nat, end: nat)
    requires 0 < k <= end <= |s| && IsAddOn(s[k..end])
    ensures Ordinary(s, k, end)
  {
    var e := s[k..end];
    assert forall i :: 0 <= i < |e| ==> e[i] == s[k + i];
    assert |e| == 3 || |e| == 4;
    assert s[k + 1..end] == e[1..];
  }

  lemma {:induction false} ChainAppend(s: string, m: nat, k: nat, end: nat)
    requires m <= k < end <= |s| && Chain(s, m, k) && IsAddOn(s[k..end])
    ensures Chain(s, m, end)
  {
  }

  /** The scan takes apart any chain it meets, then stops. */
  lemma {:induction false} ScanFollows(s: string, start: nat, m: nat, end: nat)
    requires 0 < start <= m <= end <= |s| && Chain(s, m, end) && EndsAt(s, start, m)
    ensures ExtStart(s, end) == start
    decreases end
  {
    if m < end {
      var k :| m <= k < end && IsAddOn(s[k..end]) && Chain(s, m, k);
      AddOnIsOrdinary(s, k, end);
      RunStops(s, k, end);
      hide LastRun, Chain, Ordinary, IsAddOn;
      ScanFollows(s, start, m, k);
    } else if start < m {
      RunStops(s, start, m);
      hide LastRun;
    } else {
      RunIsOrdinary(s, m);
      hide LastRun, Ordinary;
    }
  }

  /** Where the scan stops, the extension starts. */
  lemma {:induction false} ScanStops(s: string, end: nat) returns (m: nat)
    requires 0 < end <= |s|
    ensures var start := ExtStart(s, end);
      start <= m <= end && Chain(s, m, end) && EndsAt(s, start, m)
    decreases end
  {
    var l := LastRun(s, end);
    m := end;
    RunIsOrdinary(s, end);
    if l == 0 || s[l] != '.' {
      forall i | 0 < i < end ensures !Ordinary(s, i, end) {
        if Ordinary(s, i, end) {
          RunStops(s, i, end);
        }
      }
    } else if IsAddOn(s[l..end]) {
      hide LastRun, Ordinary, IsAddOn, EndsAt;
      m := ScanStops(s, l);
      ChainAppend(s, m, l, end);
    }
  }

  /** The guess is exactly the extension. */
  lemma GuessIsExtension(s: string, start: nat)
    requires s != ""
    ensures ExtensionFrom(s, start) <==> start == ExtStart(s, |s|)
  {
    if ExtensionFrom(s, start) {
      var m :| 0 < start <= m <= |s| && Chain(s, m, |s|) && EndsAt(s, start, m);
      ScanFollows(s, start, m, |s|);
    }
    if start == ExtStart(s, |s|) {
      var m := ScanStops(s, |s|);
    }
  }

  // --- barename and extname ----------------------------------------------------------------

  /** OP_BARENAME, on a base name. */
  method BareName(t: string) returns (bare: string)
    ensures bare == BareOf(t)
  {
    var l := GuessFileExtension(t);
    bare := t[..|t| - l];
  }

  /** OP_EXTNAME. */
  method ExtName(t: string) returns (ext: string)
    ensures ext == ExtOf(t)
  {
    var l := GuessFileExtension(t);
    ext := if l > 0 then t[|t| - l + 1..] else "";
  }

  function BareOf(t: string): string {
    if t == "" then "" else t[..ExtStart(t, |t|)]
  }

  function ExtOf(t: string): string {
    if t == "" || ExtStart(t, |t|) == |t| then "" else t[ExtStart(t, |t|) + 1..]
  }

  /** The base name is the bare name, or the bare name, a dot and the extension; the bare name of a
      name is not empty. */
  lemma NameDecomposed(t: string)
    ensures t == BareOf(t) || t == BareOf(t) + "." + ExtOf(t)
    ensures t == BareOf(t) ==> ExtOf(t) == ""
    ensures t != "" ==> BareOf(t) != ""
  {
    if t != "" && ExtStart(t, |t|) < |t| {
      StartsWithDot(t, |t|);
      hide ExtStart;
      var i := ExtStart(t, |t|);
      assert t == t[..i] + [t[i]] + t[i + 1..];
    }
  }

  lemma {:induction false} StartsWithDot(s: string, end: nat)
    requires 0 < end <= |s|
    ensures ExtStart(s, end) < end ==> s[ExtStart(s, end)] == '.'
    decreases end
  {
    hide LastRun;
    var l := LastRun(s, end);
    if l > 0 && s[l] == '.' && IsAddOn(s[l..end]) {
      StartsWithDot(s, l);
    }
  }
}
