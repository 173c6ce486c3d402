/** Removing lines with duplicate keys: remove_dups_in_file of src/datamash.c, whose hash table holds
    pointers into buffers that are still being filled. */
module Rmdup {
  import opened Text
  import TextLines

  type Line = seq<string>

  // --- What rmdup means --------------------------------------------------------------------

  /** The key of a line; a C string ends at its first NUL. */
  function KeyOf(l: Line, col: nat): (key: string)
    requires col > 0
    ensures col <= |l| ==> key <= l[col - 1] && NUL !in key && (NUL !in l[col - 1] ==> key == l[col - 1])
    ensures col > |l| ==> key == ""
  {
    if col <= |l| then Trunc(l[col - 1]) else ""
  }

  function KeysOf(ls: seq<Line>, col: nat): (ks: seq<string>)
    requires col > 0
    ensures |ks| == |ls|
    ensures forall i :: 0 <= i < |ls| ==> ks[i] == KeyOf(ls[i], col)
  {
    seq(|ls|, i requires 0 <= i < |ls| => KeyOf(ls[i], col))
  }

  /** The lines whose key no earlier line has, in input order. */
  function FirstOfEachKey(ls: seq<Line>, col: nat): seq<Line>
    requires col > 0
  {
    if ls == [] then [] else
    var n := |ls| - 1;
    FirstOfEachKey(ls[..n], col) + if KeyOf(ls[n], col) in KeysOf(ls[..n], col) then [] else [ls[n]]
  }

  lemma FirstOfEachKeySnoc(ls: seq<Line>, l: Line, col: nat)
    requires col > 0
    ensures FirstOfEachKey(ls + [l], col)
         == FirstOfEachKey(ls, col) + if KeyOf(l, col) in KeysOf(ls, col) then [] else [l]
  {
    assert (ls + [l])[..|ls|] == ls;
  }

  predicate NoRepeats(ks: seq<string>) {
    forall i, j :: 0 <= i < j < |ks| ==> ks[i] != ks[j]
  }

  /** m is in the list, and no line before it has its key. */
  ghost predicate IsFirst(ls: seq<Line>, m: Line, col: nat)
    requires col > 0
  {
    exists i :: 0 <= i < |ls| && ls[i] == m && (forall j :: 0 <= j < i ==> KeyOf(ls[j], col) != KeyOf(m, col))
  }

  /** Every key survives exactly once, with the first line that has it. */
  lemma {:induction false} FirstOfEachKeyFacts(ls: seq<Line>, col: nat)
    requires col > 0
    ensures var ms := FirstOfEachKey(ls, col);
      && NoRepeats(KeysOf(ms, col))
      && (forall k :: k in KeysOf(ms, col) <==> k in KeysOf(ls, col))
      && (forall m :: m in ms ==> IsFirst(ls, m, col))
  {
    if ls != [] {
      var n := |ls| - 1;
      FirstOfEachKeyFacts(ls[..n], col);
      FirstsStep(ls[..n], FirstOfEachKey(ls[..n], col), ls[n], col);
      assert ls == ls[..n] + [ls[n]];
    }
  }

  lemma FirstsStep(ls: seq<Line>, ms: seq<Line>, l: Line, col: nat)
    requires col > 0
    requires NoRepeats(KeysOf(ms, col)) && (forall k :: k in KeysOf(ms, col) <==> k in KeysOf(ls, col))
    requires forall m :: m in ms ==> IsFirst(ls, m, col)
    ensures var ms' := ms + if KeyOf(l, col) in KeysOf(ls, col) then [] else [l];
      && NoRepeats(KeysOf(ms', col))
      && (forall k :: k in KeysOf(ms', col) <==> k in KeysOf(ls + [l], col))
      && (forall m :: m in ms' ==> IsFirst(ls + [l], m, col))
  {
    hide KeyOf;
    KeysOfSnoc(ls, l, col);
    KeysOfSnoc(ms, l, col);
    var k := KeyOf(l, col);
    assert ms + [] == ms;
    if k !in KeysOf(ls, col) {
      assert (ls + [l])[|ls|] == l;
      forall j | 0 <= j < |ls| ensures KeyOf((ls + [l])[j], col) != k {
        assert KeysOf(ls, col)[j] == KeyOf(ls[j], col);
      }
    }
    hide KeysOf;
    forall m | m in ms ensures IsFirst(ls + [l], m, col) {
      var i :| 0 <= i < |ls| && ls[i] == m && forall j :: 0 <= j < i ==> KeyOf(ls[j], col) != KeyOf(m, col);
      assert (ls + [l])[i] == m;
    }
  }

  lemma KeysOfSnoc(ls: seq<Line>, l: Line, col: nat)
    requires col > 0
    ensures KeysOf(ls + [l], col) == KeysOf(ls, col) + [KeyOf(l, col)]
  {
  }

  /** No line before line j has its key. */
  ghost predicate KeyIsNew(ls: seq<Line>, j: nat, col: nat)
    requires col > 0 && j < |ls|
  {
    forall i :: 0 <= i < j ==> KeyOf(ls[i], col) != KeyOf(ls[j], col)
  }

  /** ms are the lines of ls at the positions `at`, in order, and these are the lines with a new key. */
  ghost predicate AreFirsts(ls: seq<Line>, ms: seq<Line>, at: seq<nat>, col: nat)
    requires col > 0
  {
    && |at| == |ms|
    && (forall i :: 0 <= i < |at| ==> at[i] < |ls| && ms[i] == ls[at[i]])
    && (forall i, k :: 0 <= i < k < |at| ==> at[i] < at[k])
    && (forall j :: 0 <= j < |ls| ==> (j in at <==> KeyIsNew(ls, j, col)))
  }

  /** rmdup prints exactly the lines whose key no earlier line has, in their order. */
  lemma {:induction false} LinesKept(ls: seq<Line>, col: nat) returns (at: seq<nat>)
    requires col > 0
    ensures AreFirsts(ls, FirstOfEachKey(ls, col), at, col)
  {
    if ls == [] {
      at := [];
    } else {
      var n := |ls| - 1;
      var front, l := ls[..n], ls[n];
      at := LinesKept(front, col);
      var isNew := KeyOf(l, col) !in KeysOf(front, col);
      NewKeyOfLine(front, l, col);
      hide KeyOf;
      assert ls == front + [l];
      FirstOfEachKeySnoc(front, l, col);
      FirstsMore(front, FirstOfEachKey(front, col), at, l, isNew, col);
      at := at + if isNew then [n] else [];
    }
  }

  lemma NewKeyOfLine(ls: seq<Line>, l: Line, col: nat)
    requires col > 0
    ensures KeyIsNew(ls + [l], |ls|, col) <==> KeyOf(l, col) !in KeysOf(ls, col)
  {
    hide KeyOf;
    assert forall i :: 0 <= i < |ls| ==> KeysOf(ls, col)[i] == KeyOf((ls + [l])[i], col);
  }

  lemma FirstsMore(ls: seq<Line>, ms: seq<Line>, at: seq<nat>, l: Line, isNew: bool, col: nat)
    requires col > 0 && AreFirsts(ls, ms, at, col) && (isNew <==> KeyIsNew(ls + [l], |ls|, col))
    ensures AreFirsts(ls + [l], ms + (if isNew then [l] else []), at + (if isNew then [|ls|] else []), col)
  {
    hide KeyOf;
    var all := ls + [l];
    var more := at + if isNew then [|ls|] else [];
    forall j | 0 <= j < |ls| ensures KeyIsNew(all, j, col) <==> KeyIsNew(ls, j, col) {
      SameBefore(ls, l, j, col);
    }
    hide KeyIsNew;
    forall j | 0 <= j < |all| ensures j in more <==> KeyIsNew(all, j, col) {
      if j < |ls| {
        assert j in more <==> j in at;
      }
    }
  }

  lemma SameBefore(ls: seq<Line>, l: Line, j: nat, col: nat)
    requires col > 0 && j < |ls|
    ensures KeyIsNew(ls + [l], j, col) <==> KeyIsNew(ls, j, col)
  {
    hide KeyOf;
    assert forall i :: 0 <= i <= j ==> (ls + [l])[i] == ls[i];
  }

  /** rmdup of a file without duplicates changes nothing; in particular rmdup twice is rmdup once. */
  lemma {:induction false} NothingToRemove(ls: seq<Line>, col: nat)
    requires col > 0 && NoRepeats(KeysOf(ls, col))
    ensures FirstOfEachKey(ls, col) == ls
  {
    if ls != [] {
      var n := |ls| - 1;
      assert KeysOf(ls[..n], col) == KeysOf(ls, col)[..n];
      NothingToRemove(ls[..n], col);
      assert ls == ls[..n] + [ls[n]];
    }
  }

  lemma RmdupIdempotent(ls: seq<Line>, col: nat)
    requires col > 0
    ensures FirstOfEachKey(FirstOfEachKey(ls, col), col) == FirstOfEachKey(ls, col)
  {
    FirstOfEachKeyFacts(ls, col);
    NothingToRemove(FirstOfEachKey(ls, col), col);
  }

  // --- The arena ---------------------------------------------------------------------------

  /** A char pointer: a place in one of the buffers. */
  datatype Ptr = Ptr(buf: array<char>, pos: nat)

  /** The C string a pointer designates. */
  function StringAt(p: Ptr): string
    requires p.pos <= p.buf.Length
    reads p.buf
  {
    Trunc(p.buf[p.pos..])
  }

  /** The seen-set: a hash table of pointers to NUL-terminated keys, which lie one after the other in
      the buffers of bufferList. Keys are added at nextKeyPos of the newest buffer; the bytes from
      there on are overwritten by the next candidate. */
  class SeenKeys {
    var keysBuffer: array<char>
    var keysBufferAlloc: nat
    var nextKeyPos: nat
    var bufferList: seq<array<char>>
    var table: seq<Ptr>
    ghost var keys: seq<string>  // the strings behind the pointers

    ghost predicate Valid()
      reads this, bufferList
    {
      && keysBuffer in bufferList && keysBuffer.Length == keysBufferAlloc && nextKeyPos <= keysBufferAlloc
      && |table| == |keys| && NoRepeats(keys)
      && forall i :: 0 <= i < |table| ==> Stored(table[i], keys[i])
    }

    /** The key is stored at p, below the part of the newest buffer that is still free. */
    ghost predicate Stored(p: Ptr, key: string)
      reads this, bufferList
    {
      && p.buf in bufferList && NUL !in key
      && p.pos + |key| < p.buf.Length
      && p.buf[p.pos..p.pos + |key|] == key && p.buf[p.pos + |key|] == NUL
      && (p.buf == keysBuffer ==> p.pos + |key| < nextKeyPos)
    }

    lemma StoredString(p: Ptr, key: string)
      requires Stored(p, key)
      ensures p.pos <= p.buf.Length && StringAt(p) == key
    {
      TruncConcat(key, p.buf[p.pos + |key| + 1..]);
      assert p.buf[p.pos..] == key + [NUL] + p.buf[p.pos + |key| + 1..];
    }

    constructor (initialSize: nat)
      ensures Valid() && keys == [] && fresh(bufferList)
    {
      var first := new char[initialSize];
      keysBuffer, keysBufferAlloc, nextKeyPos := first, initialSize, 0;
      bufferList, table := [first], [];
      keys := [];
    }

    /** The body of the loop of remove_dups_in_file: is the key new? The candidate is written into
        the arena before it is looked up, and stays there only if it is new. */
    method AddKey(str: string) returns (isNew: bool)
      requires Valid()
      modifies this, bufferList
      ensures Valid() && fresh(set b | b in bufferList && b !in old(bufferList))
      ensures isNew <==> Trunc(str) !in old(keys)
      ensures keys == old(keys) + if isNew then [Trunc(str)] else []
      ensures old(table) <= table
    {
      hide Trunc;
      if nextKeyPos + |str| + 1 > keysBufferAlloc {
        NewBuffer(|str|);
      }
      isNew := AddCandidate(str);
    }

    method AddCandidate(str: string) returns (isNew: bool)
      requires Valid() && nextKeyPos + |str| + 1 <= keysBufferAlloc
      modifies this`table, this`nextKeyPos, this`keys, keysBuffer
      ensures Valid()
      ensures isNew <==> Trunc(str) !in old(keys)
      ensures keys == old(keys) + if isNew then [Trunc(str)] else []
      ensures old(table) <= table
    {
      hide Trunc;
      var nextKey := Ptr(keysBuffer, nextKeyPos);
      WriteCandidate(str);
      CandidateStored(str);
      label Written:
      isNew := HashInsertIfAbsent(nextKey, Trunc(str));
      if isNew {
        nextKeyPos := nextKeyPos + |str| + 1;
        keys := keys + [Trunc(str)];
        forall i | 0 <= i < |table| ensures Stored(table[i], keys[i]) {
          if i < |table| - 1 {
            assert old@Written(Stored(table[i], keys[i]));
          }
        }
      }
    }

    /** What lies at nextKeyPos after the candidate was written is the key, up to its first NUL. */
    lemma CandidateStored(str: string)
      requires Valid() && nextKeyPos + |str| + 1 <= keysBufferAlloc
      requires keysBuffer[nextKeyPos..nextKeyPos + |str|] == str && keysBuffer[nextKeyPos + |str|] == NUL
      ensures var (k, b, n) := (Trunc(str), keysBuffer, nextKeyPos);
        && StringAt(Ptr(b, n)) == k
        && b[n..n + |k|] == k && b[n + |k|] == NUL
    {
      var b, n := keysBuffer, nextKeyPos;
      var k := Trunc(str);
      assert k == str[..|k|] == b[n..n + |k|];
      assert b[n + |k|] == NUL by {
        if |k| < |str| {
          assert str[|k|] == b[n..n + |str|][|k|];
        }
      }
      assert b[n..] == k + [NUL] + b[n + |k| + 1..];
      TruncConcat(k, b[n + |k| + 1..]);
    }

    /** Start another buffer, large enough for a key of the given length. */
    method NewBuffer(len: nat)
      requires Valid()
      modifies this
      ensures Valid() && keys == old(keys) && table == old(table)
      ensures fresh(keysBuffer) && nextKeyPos == 0 && len + 1 <= keysBufferAlloc
      ensures bufferList == old(bufferList) + [keysBuffer]
    {
      // a really long key also enlarges all later buffers
      if len + 1 > keysBufferAlloc {
        keysBufferAlloc := len + 1;
      }
      keysBuffer := new char[keysBufferAlloc];
      nextKeyPos := 0;
      bufferList := bufferList + [keysBuffer];
    }

    /** memcpy of the key and its NUL to the free part of the newest buffer: every stored key stays
        intact. */
    method WriteCandidate(str: string)
      requires Valid() && nextKeyPos + |str| + 1 <= keysBufferAlloc
      modifies keysBuffer
      ensures Valid()
      ensures keysBuffer[nextKeyPos..nextKeyPos + |str|] == str && keysBuffer[nextKeyPos + |str|] == NUL
    {
      forall k | 0 <= k < |str| {
        keysBuffer[nextKeyPos + k] := str[k];
      }
      keysBuffer[nextKeyPos + |str|] := NUL;
      forall i | 0 <= i < |table| ensures Stored(table[i], keys[i]) {
        assert old(Stored(table[i], keys[i]));
      }
    }

    /** hash_insert_if_absent, with hash_compare_strings as the equality. The comparison asserts that
        it is never given the same pointer twice. */
    method HashInsertIfAbsent(p: Ptr, ghost key: string) returns (isNew: bool)
      requires Valid() && p == Ptr(keysBuffer, nextKeyPos) && p.pos <= p.buf.Length && StringAt(p) == key
      modifies this`table
      ensures isNew <==> key !in keys
      ensures table == old(table) + if isNew then [p] else []
    {
      hide Trunc;
      var i := 0;
      while i < |table|
        invariant 0 <= i <= |table| && table == old(table) && Valid()
        invariant forall j :: 0 <= j < i ==> keys[j] != key
      {
        assert table[i] != p;
        StoredString(table[i], keys[i]);
        if StringAt(table[i]) == StringAt(p) {
          return false;
        }
        i := i + 1;
      }
      table := table + [p];
      isNew := true;
    }
  }

  // --- remove_dups_in_file -----------------------------------------------------------------

  function Printed(ls: seq<Line>, tab: char): (out: seq<string>)
    ensures |out| == |ls|
    ensures forall i :: 0 <= i < |ls| ==> out[i] == TextLines.Join(ls[i], tab)
  {
    seq(|ls|, i requires 0 <= i < |ls| => TextLines.Join(ls[i], tab))
  }

  /** Print the fields of a line, separated. */
  method PrintFields(rec: TextLines.LineRecord, tab: char) returns (s: string)
    requires rec.Valid()
    ensures s == TextLines.Join(rec.Contents(), tab)
  {
    ghost var fs := rec.Contents();
    s := "";
    var i := 1;
    while i <= rec.numFields
      invariant 1 <= i <= rec.numFields + 1
      invariant s == TextLines.Join(fs[..i - 1], tab)
    {
      if i > 1 {
        s := s + [tab];
      }
      var f := rec.GetField(i);
      assert fs[..i] == fs[..i - 1] + [fs[i - 1]];
      TextLines.JoinSnoc(fs[..i - 1], fs[i - 1], tab);
      s := s + f.value;
      i := i + 1;
    }
    assert fs[..|fs|] == fs;
  }

  /** The loop over the input prints the first line of every different key, in input order, and
      fails exactly when some line lacks the key column. */
  method RemoveDupsInFile(input: seq<string>, delim: Option<char>, skipComments: bool, keyCol: nat, tab: char,
                          initialSize: nat)
    returns (ok: bool, out: seq<string>)
    requires keyCol > 0
    ensures var all := TextLines.LinesOf(TextLines.DataLines(input, skipComments), delim);
      && (ok <==> forall i :: 0 <= i < |all| ==> keyCol <= |all[i]|)
      && (ok ==> out == Printed(FirstOfEachKey(all, keyCol), tab))
  {
    hide TextLines.LinesOf, TextLines.DataLines, TextLines.Split, TextLines.Join, SeenKeys.Valid, FirstOfEachKey, Trunc,
      Printed, KeysOf, SameStrings;
    ghost var all := TextLines.LinesOf(TextLines.DataLines(input, skipComments), delim);
    ghost var k := 0;
    var rec := new TextLines.LineRecord();
    var seen := new SeenKeys(initialSize);
    var at := 0;
    out := [];
    assert input[0..] == input && all[0..] == all && all[..0] == [];
    NothingYet(keyCol, tab);
    while true
      invariant at <= |input| && k <= |all| && fresh(rec) && rec.Valid()
      invariant TextLines.LinesOf(TextLines.DataLines(input[at..], skipComments), delim) == all[k..]
      invariant fresh(seen) && fresh(seen.bufferList) && seen.Valid()
      invariant forall i :: 0 <= i < k ==> keyCol <= |all[i]|
      invariant SameStrings(seen.keys, KeysOf(all[..k], keyCol))
      invariant out == Printed(FirstOfEachKey(all[..k], keyCol), tab)
      decreases |input| - at
    {
      var more;
      more, at := rec.ReadNext(input, at, delim, skipComments, all[k..]);
      if !more {
        break;
      }
      var key := rec.GetField(keyCol);
      if key == None {
        return false, out;
      }
      ghost var was := seen.keys;
      var isNew := seen.AddKey(key.value);
      assert all[..k + 1] == all[..k] + [all[k]];
      OneLineMore(all[..k], all[k], keyCol, tab, was, isNew);
      if isNew {
        var s := PrintFields(rec, tab);
        out := out + [s];
      }
      k := k + 1;
    }
    assert all[..k] == all;
    ok := true;
  }

  lemma NothingYet(keyCol: nat, tab: char)
    requires keyCol > 0
    ensures Printed(FirstOfEachKey([], keyCol), tab) == [] && SameStrings([], KeysOf([], keyCol))
  {
  }

  ghost predicate SameStrings(a: seq<string>, b: seq<string>) {
    forall s :: s in a <==> s in b
  }

  /** The keys seen and the lines printed after one line more. */
  lemma OneLineMore(ls: seq<Line>, l: Line, col: nat, tab: char, keys: seq<string>, isNew: bool)
    requires col > 0 && SameStrings(keys, KeysOf(ls, col)) && (isNew <==> KeyOf(l, col) !in keys)
    ensures SameStrings(keys + (if isNew then [KeyOf(l, col)] else []), KeysOf(ls + [l], col))
    ensures Printed(FirstOfEachKey(ls + [l], col), tab)
         == Printed(FirstOfEachKey(ls, col), tab) + if isNew then [TextLines.Join(l, tab)] else []
  {
    FirstOfEachKeySnoc(ls, l, col);
    KeysOfSnoc(ls, l, col);
    hide KeysOf, KeyOf, FirstOfEachKey, TextLines.Join;
  }
}
