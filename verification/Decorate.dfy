/** decorate: converted fields in front of each line, sort keys rewritten to match, and the
    decoration removed again after sorting (src/decorate.c). */
module Decorate {
  import opened Text
  import opened KeyCompare
  import opened KeyShift

  /** A conversion reads a C string; it prints a text or fails. */
  type Conversion = string -> Option<string>

  /** A key as given with -k, and its conversion if it has one. */
  datatype KeySpec = KeySpec(key: Key, conv: Option<Conversion>)
  {
    /** What parse_sort_key_arg and check_allowed_key_flags let through. */
    predicate Valid() {
      key.Valid() && key.sword < SIZE_MAX && (conv.Some? ==> !key.skipsblanks && !key.skipeblanks)
    }

    /** The copy kept for decorating, which skips blanks at both ends. */
    function ForDecorating(): KeySpec {
      KeySpec(key.(skipsblanks := true, skipeblanks := true), conv)
    }
  }

  // --- The key lists -----------------------------------------------------------------------

  function Conversions(specs: seq<KeySpec>): (n: nat)
    ensures n <= |specs|
  {
    if specs == [] then 0 else
    Conversions(specs[..|specs| - 1]) + if specs[|specs| - 1].conv.Some? then 1 else 0
  }

  /** The keys whose text is converted, in order. */
  function DecorateKeys(specs: seq<KeySpec>): (ks: seq<KeySpec>)
    ensures |ks| == Conversions(specs)
    ensures forall k :: k in ks ==> k.conv.Some?
  {
    if specs == [] then [] else
    var (init, last) := (specs[..|specs| - 1], specs[|specs| - 1]);
    DecorateKeys(init) + if last.conv.Some? then [last.ForDecorating()] else []
  }

  /** Key j as it is handed to sort. */
  function SortKey(specs: seq<KeySpec>, j: nat): Key
    requires j < |specs|
  {
    if specs[j].conv.Some? then MovedKey(specs[j].key, Conversions(specs[..j]))
    else ShiftedKey(specs[j].key, Conversions(specs))
  }

  /** The converted key number Conversions(specs[..j]) is key j. */
  lemma {:induction false} DecorateKeyAt(specs: seq<KeySpec>, j: nat)
    requires j < |specs| && specs[j].conv.Some?
    ensures Conversions(specs[..j]) < Conversions(specs)
    ensures DecorateKeys(specs)[Conversions(specs[..j])] == specs[j].ForDecorating()
  {
    var init := specs[..|specs| - 1];
    if j < |init| {
      assert init[..j] == specs[..j];
      DecorateKeyAt(init, j);
    }
  }

  // --- What is converted -------------------------------------------------------------------

  /** A first key that selects nothing counts as running to the end of the line, and the line then
      loses its terminator (decorate_fields chomps it, so that later keys see one byte less). */
  predicate Chomps(c: string, key: Key, tab: Option<char>) {
    Beg(c, key, tab) >= Lim(c, key, tab)
  }

  function Seen(c: string, chomped: bool): string {
    if chomped && c != "" then c[..|c| - 1] else c
  }

  /** The text key j selects while a line with content c is decorated. */
  function Selected(c: string, keys: seq<KeySpec>, j: nat, tab: Option<char>): string
    requires j < |keys|
  {
    var first := keys[0].key;
    if j > 0 then KeyText(Seen(c, Chomps(c, first, tab)), keys[j].key, tab)
    else if Chomps(c, first, tab) then c[Beg(c, first, tab)..]
    else c[Beg(c, first, tab)..Lim(c, first, tab)]
  }

  /** The results of the first n conversions. */
  function Converted(c: string, keys: seq<KeySpec>, n: nat, tab: Option<char>): (r: Option<seq<string>>)
    requires n <= |keys| && forall k :: k in keys ==> k.conv.Some?
    ensures r.Some? ==> |r.value| == n
  {
    if n == 0 then Some([]) else
    var before := Converted(c, keys, n - 1, tab);
    var x := keys[n - 1].conv.value(Trunc(Selected(c, keys, n - 1, tab)));
    if before.Some? && x.Some? then Some(before.value + [x.value]) else None
  }

  /** What decorate prints for a line. */
  function DecoratedLine(c: string, keys: seq<KeySpec>, tab: Option<char>): Option<string>
    requires forall k :: k in keys ==> k.conv.Some?
  {
    var cs := Converted(c, keys, |keys|, tab);
    if cs.Some? then Some(Decorated(cs.value, c, tab)) else None
  }

  lemma {:induction false} PrefixSnoc(cs: seq<string>, x: string, sep: char)
    ensures Prefix(cs + [x], sep) == Prefix(cs, sep) + x + [sep]
  {
    if cs == [] {
    } else {
      assert (cs + [x])[1..] == cs[1..] + [x];
      PrefixSnoc(cs[1..], x, sep);
    }
  }

  // --- The program state -------------------------------------------------------------------

  /** struct keyfield: what adjust_key_fields rewrites in place. */
  class KeyField {
    var key: Key
    var conv: Option<Conversion>

    constructor (spec: KeySpec)
      ensures Spec() == spec
    {
      key, conv := spec.key, spec.conv;
    }

    function Spec(): KeySpec reads this {
      KeySpec(key, conv)
    }

    /** A converted key: it becomes decorated field idx. */
    method Move(idx: nat)
      modifies this
      ensures Spec() == KeySpec(MovedKey(old(key), idx), None)
    {
      key := key.(sword := idx);
      if key.eword != SIZE_MAX {
        key := key.(eword := idx);
      }
      conv := None;
    }

    /** Any other key: cnt fields now precede its own. */
    method Shift(cnt: nat)
      requires conv.None?
      modifies this
      ensures Spec() == KeySpec(ShiftedKey(old(key), cnt), None)
    {
      key := key.(sword := (key.sword + cnt) % (SIZE_MAX + 1));
      if key.eword != SIZE_MAX {
        key := key.(eword := (key.eword + cnt) % (SIZE_MAX + 1));
      }
    }
  }

  /** The key lists, the field separator and the line terminator of one run. */
  class Decorator {
    var keylist: seq<KeyField>
    var decorateKeylist: seq<KeySpec>
    const tab: Option<char>
    const eol: char

    ghost predicate Distinct() reads this {
      forall i, j :: 0 <= i < j < |keylist| ==> keylist[i] != keylist[j]
    }

    /** The keys the list holds. */
    ghost function Specs(): (specs: seq<KeySpec>)
      reads this, keylist
      ensures |specs| == |keylist|
      ensures forall i :: 0 <= i < |keylist| ==> specs[i] == keylist[i].Spec()
    {
      seq(|keylist|, i requires 0 <= i < |keylist| reads this, keylist => keylist[i].Spec())
    }

    constructor (tab: Option<char>, eol: char)
      ensures keylist == [] && decorateKeylist == [] && this.tab == tab && this.eol == eol
    {
      keylist, decorateKeylist := [], [];
      this.tab, this.eol := tab, eol;
    }

    /** insertkey: a copy of the key at the end of the list. */
    method InsertKey(spec: KeySpec)
      requires Distinct()
      modifies this`keylist
      ensures Distinct() && Specs() == old(Specs()) + [spec]
      ensures old(keylist) <= keylist
    {
      var key := new KeyField(spec);
      assert forall i :: 0 <= i < |keylist| ==> keylist[i] != key;
      keylist := keylist + [key];
    }

    /** insert_decorate_key. */
    method InsertDecorateKey(spec: KeySpec)
      modifies this`decorateKeylist
      ensures decorateKeylist == old(decorateKeylist) + [spec.ForDecorating()]
    {
      decorateKeylist := decorateKeylist + [KeySpec(spec.key.(skipsblanks := true, skipeblanks := true), spec.conv)];
    }

    /** The keys below i are rewritten, and the others as they were given. */
    ghost predicate Adjusted(specs: seq<KeySpec>, i: nat)
      reads this, keylist
    {
      && i <= |specs| == |keylist|
      && (forall j :: 0 <= j < i ==> keylist[j].Spec() == KeySpec(SortKey(specs, j), None))
      && (forall j :: i <= j < |keylist| ==> keylist[j].Spec() == specs[j])
    }

    lemma AdjustedNone(specs: seq<KeySpec>)
      requires specs == Specs()
      ensures Adjusted(specs, 0)
    {
    }

    /** adjust_key_fields: the converted keys are copied aside, and every key of the list becomes
        the key sort needs on decorated lines. */
    method AdjustKeyFields() returns (cnt: nat)
      requires Distinct() && keylist != [] && decorateKeylist == []
      modifies this`decorateKeylist, keylist
      ensures keylist == old(keylist)
      ensures cnt == Conversions(old(Specs()))
      ensures decorateKeylist == DecorateKeys(old(Specs()))
      ensures Adjusted(old(Specs()), |keylist|)
    {
      hide *;
      ghost var specs := Specs();
      cnt := CountConversions();
      AdjustedNone(specs);
      NoKeys(specs);
      var idx: nat, i := 0, 0;
      while i < |keylist|
        invariant 0 <= i <= |keylist| && keylist == old(keylist) && Distinct()
        invariant idx == Conversions(specs[..i])
        invariant decorateKeylist == DecorateKeys(specs[..i])
        invariant Adjusted(specs, i)
      {
        idx := AdjustKey(specs, i, idx, cnt);
        i := i + 1;
      }
    }

    method AdjustKey(ghost specs: seq<KeySpec>, i: nat, idx: nat, cnt: nat) returns (next: nat)
      requires Distinct() && i < |keylist| && Adjusted(specs, i)
      requires idx == Conversions(specs[..i]) && cnt == Conversions(specs)
      requires decorateKeylist == DecorateKeys(specs[..i])
      modifies this`decorateKeylist, keylist[i]
      ensures Distinct() && Adjusted(specs, i + 1)
      ensures next == Conversions(specs[..i + 1])
      ensures decorateKeylist == DecorateKeys(specs[..i + 1])
    {
      hide SortKey, Conversions, DecorateKeys, MovedKey, ShiftedKey;
      NextKey(specs, i);
      var key := keylist[i];
      next := idx;
      assert key.Spec() == specs[i];
      if key.conv.Some? {
        InsertDecorateKey(KeySpec(key.key, key.conv));
        key.Move(idx);
        next := idx + 1;
      } else {
        key.Shift(cnt);
      }
    }

    method CountConversions() returns (cnt: nat)
      ensures cnt == Conversions(Specs())
    {
      cnt := 0;
      var i := 0;
      while i < |keylist|
        invariant 0 <= i <= |keylist| && cnt == Conversions(Specs()[..i])
      {
        assert Specs()[..i + 1][..i] == Specs()[..i];
        if keylist[i].conv.Some? {
          cnt := cnt + 1;
        }
        i := i + 1;
      }
      assert Specs()[..i] == Specs();
    }

    /** What conversions can be given: every copied key has one and a start word. */
    ghost predicate Ready() reads this {
      decorateKeylist != [] && forall k :: k in decorateKeylist ==> k.conv.Some? && k.key.sword < SIZE_MAX
    }

    /** One round of the loop: the key's text is converted in place, between a temporary NUL. */
    method ConvertInPlace(buffer: array<char>, texta: nat, lim: int, key: KeySpec, ok: bool)
        returns (okay: bool, printed: string)
      requires key.conv.Some? && texta < buffer.Length && lim < buffer.Length
      modifies buffer
      ensures buffer[..] == old(buffer[..])
      ensures var x := key.conv.value(Trunc(old(buffer[texta..MaxOf(texta, lim)])));
        && okay == (ok && x.Some?)
        && (okay ==> printed == x.value + [SepOf(tab)])
    {
      var lima := MaxOf(texta, lim);
      ghost var before := buffer[..];
      var enda := buffer[lima];
      buffer[lima] := NUL;
      CString(before, buffer[..], texta, lima);
      printed := "";
      okay := ok;
      if ok {
        var x := key.conv.value(Trunc(buffer[texta..]));
        okay := x.Some?;
        printed := if x.Some? then x.value else "";
      }
      printed := printed + [if tab.None? then ' ' else tab.value];
      buffer[lima] := enda;
      assert buffer[..] == before;
    }

    /** decorate_fields: prints the converted fields of one line; the buffer ends as it was. */
    method DecorateFields(buffer: array<char>, length: nat) returns (ok: bool, out: string)
      requires 0 < length <= buffer.Length && buffer[length - 1] == eol
      requires Ready()
      modifies buffer
      ensures buffer[..] == old(buffer[..])
      ensures var cs := Converted(old(buffer[..length - 1]), decorateKeylist, |decorateKeylist|, tab);
        && ok == cs.Some?
        && (ok ==> out == Prefix(cs.value, SepOf(tab)))
    {
      hide Beg, Lim, KeyText, Selected, Converted, Prefix, Trunc, SepOf, Chomps;
      var keys := decorateKeylist;
      ghost var c := buffer[..length - 1];
      var first := keys[0];
      var lineLength := length;
      var texta: nat := BegField(buffer[..], lineLength, first.key, tab);
      var lima := LimField(buffer[..], lineLength, first.key, tab);
      SameContent(buffer[..], length, c);
      if texta >= lima {
        if lineLength > 0 && buffer[lineLength - 1] == eol {
          lineLength := lineLength - 1;
        }
        lima := texta + lineLength - texta;
      }
      FirstText(buffer[..], c, keys, tab, texta, lima);
      ConvertedNone(c, keys, tab);
      ok, out := true, "";
      var i := 0;
      while true
        invariant 0 <= i < |keys| && buffer[..] == old(buffer[..])
        invariant texta < length && lima < length
        invariant buffer[texta..MaxOf(texta, lima)] == Selected(c, keys, i, tab)
        invariant lineLength == if Chomps(c, first.key, tab) then length - 1 else length
        invariant var cs := Converted(c, keys, i, tab);
          ok == cs.Some? && (ok ==> out == Prefix(cs.value, SepOf(tab)))
        decreases |keys| - i
      {
        var more;
        var key := keys[i];
        ok, more := ConvertInPlace(buffer, texta, lima, key, ok);
        ConvertedNext(c, keys, i, tab, out, more);
        out := out + more;
        i := i + 1;
        if i == |keys| {
          break;
        }
        texta, lima := LaterKey(buffer, lineLength, keys[i].key);
        LaterText(buffer[..], c, keys, i, tab, texta, lima, lineLength);
      }
    }

    /** Where a key after the first starts and ends. Its start word is not SIZE_MAX:
        parse_sort_key_arg never leaves it so. */
    method LaterKey(buffer: array<char>, lineLength: nat, key: Key) returns (texta: nat, lima: int)
      requires lineLength <= buffer.Length
      ensures var s := buffer[..MaxOf(lineLength - 1, 0)];
        && texta == Beg(s, key, tab)
        && texta <= |s| && lima <= |s|
        && buffer[texta..MaxOf(texta, lima)] == KeyText(s, key, tab)
    {
      if key.eword != SIZE_MAX {
        lima := LimField(buffer[..], lineLength, key, tab);
      } else {
        lima := lineLength - 1;
      }
      hide Beg, Lim;
      texta := BegField(buffer[..], lineLength, key, tab);
    }

    /** decorate_file: header lines pass unchanged, every other line is decorated or ends the run. */
    method DecorateFile(lines: seq<string>, skipHeaderLines: nat) returns (ok: bool, out: seq<string>)
      requires Ready()
      ensures ok <==> forall i :: skipHeaderLines <= i < |lines| ==> DecoratedLine(lines[i], decorateKeylist, tab).Some?
      ensures ok ==> |out| == |lines|
      ensures ok ==> forall i :: 0 <= i < |lines| ==>
        Some(out[i]) == if i < skipHeaderLines then Some(lines[i]) else DecoratedLine(lines[i], decorateKeylist, tab)
    {
      hide Converted;
      ok, out := true, [];
      var skip := skipHeaderLines;
      var i := 0;
      while i < |lines|
        invariant 0 <= i == |out| <= |lines|
        invariant skip == MaxOf(skipHeaderLines - i, 0)
        invariant forall k :: skipHeaderLines <= k < i ==> DecoratedLine(lines[k], decorateKeylist, tab).Some?
        invariant forall k :: 0 <= k < i ==>
          Some(out[k]) == if k < skipHeaderLines then Some(lines[k]) else DecoratedLine(lines[k], decorateKeylist, tab)
      {
        if skip > 0 {
          out := out + [lines[i]];
          skip := skip - 1;
        } else {
          var line := DecorateLine(lines[i]);
          if line.None? {
            return false, out;
          }
          out := out + [line.value];
        }
        i := i + 1;
      }
    }

    /** A line read into the buffer, decorated, and written back from the buffer. */
    method DecorateLine(line: string) returns (r: Option<string>)
      requires Ready()
      ensures r == DecoratedLine(line, decorateKeylist, tab)
    {
      var n := |line|;
      var buffer := new char[n + 1](i requires 0 <= i <= n => if i < n then line[i] else eol);
      assert buffer[..n] == line;
      var converts, printed := DecorateFields(buffer, n + 1);
      r := if converts then Some(printed + buffer[..n]) else None;
    }
  }

  lemma NoKeys(specs: seq<KeySpec>)
    ensures Conversions(specs[..0]) == 0 && DecorateKeys(specs[..0]) == [] && specs[..|specs|] == specs
  {
  }

  /** One key more. */
  lemma NextKey(specs: seq<KeySpec>, i: nat)
    requires i < |specs|
    ensures Conversions(specs[..i + 1]) == Conversions(specs[..i]) + if specs[i].conv.Some? then 1 else 0
    ensures DecorateKeys(specs[..i + 1])
         == DecorateKeys(specs[..i]) + if specs[i].conv.Some? then [specs[i].ForDecorating()] else []
    ensures SortKey(specs, i) == if specs[i].conv.Some? then MovedKey(specs[i].key, Conversions(specs[..i]))
                                 else ShiftedKey(specs[i].key, Conversions(specs))
  {
    assert specs[..i + 1][..i] == specs[..i];
  }

  // --- Lemmas for the loop -----------------------------------------------------------------

  /** The C string from texta to a NUL stored at lima. */
  lemma CString(before: string, after: string, texta: nat, lima: nat)
    requires texta <= lima < |before| && after == before[lima := NUL]
    ensures Trunc(after[texta..]) == Trunc(before[texta..lima])
  {
    var (a, b) := (after[texta..], before[texta..lima]);
    assert a[|b|] == NUL && a[..|b|] == b;
    ScanUnique(a, 0, Except(NUL), |Trunc(b)|);
  }

  lemma SameContent(text: string, length: nat, c: string)
    requires 0 < length <= |text| && c == text[..length - 1]
    ensures text[..MaxOf(length - 1, 0)] == c && |c| == length - 1
  {
  }

  lemma ConvertedNone(c: string, keys: seq<KeySpec>, tab: Option<char>)
    requires forall k :: k in keys ==> k.conv.Some?
    ensures Converted(c, keys, 0, tab) == Some([]) && Prefix([], SepOf(tab)) == ""
  {
  }

  /** The text of the first key, before and after the line is chomped. */
  lemma FirstText(text: string, c: string, keys: seq<KeySpec>, tab: Option<char>, b: nat, e: int)
    requires keys != [] && |c| < |text| && c == text[..|c|]
    requires b == Beg(c, keys[0].key, tab)
    requires var l := Lim(c, keys[0].key, tab); e == if b >= l then |c| else l
    ensures b <= |c| && e <= |c| && text[b..MaxOf(b, e)] == Selected(c, keys, 0, tab)
    ensures Chomps(c, keys[0].key, tab) <==> b >= Lim(c, keys[0].key, tab)
  {
    hide Beg, Lim;
  }

  lemma LaterText(text: string, c: string, keys: seq<KeySpec>, i: nat, tab: Option<char>, b: nat, e: int,
                  lineLength: nat)
    requires 0 < i < |keys| && |c| < |text| && c == text[..|c|]
    requires lineLength == if Chomps(c, keys[0].key, tab) then |c| else |c| + 1
    requires var s := text[..MaxOf(lineLength - 1, 0)];
      b <= |s| && e <= |s| && text[b..MaxOf(b, e)] == KeyText(s, keys[i].key, tab)
    ensures b <= |c| && e <= |c| && text[b..MaxOf(b, e)] == Selected(c, keys, i, tab)
  {
    hide KeyText, Chomps;
    assert text[..MaxOf(lineLength - 1, 0)] == Seen(c, Chomps(c, keys[0].key, tab));
  }

  /** One conversion more. */
  lemma ConvertedNext(c: string, keys: seq<KeySpec>, i: nat, tab: Option<char>, out: string, more: string)
    requires i < |keys| && forall k :: k in keys ==> k.conv.Some?
    ensures var (was, x, now) := (Converted(c, keys, i, tab), keys[i].conv.value(Trunc(Selected(c, keys, i, tab))),
                                 Converted(c, keys, i + 1, tab));
      && now.Some? == (was.Some? && x.Some?)
      && (now.Some? && out == Prefix(was.value, SepOf(tab)) && more == x.value + [SepOf(tab)]
          ==> out + more == Prefix(now.value, SepOf(tab)))
  {
    hide Selected, Trunc, Prefix;
    var (was, x) := (Converted(c, keys, i, tab), keys[i].conv.value(Trunc(Selected(c, keys, i, tab))));
    if was.Some? && x.Some? {
      PrefixSnoc(was.value, x.value, SepOf(tab));
    }
  }
}
