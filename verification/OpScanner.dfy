/** The scanner of the operation language (src/op-scanner.c). */
module OpScanner {
  import opened Text
  import opened Numerals

  const MAX_IDENTIFIER_LENGTH: nat := 512
  const LONG_MAX: nat := 0x7FFF_FFFF_FFFF_FFFF

  datatype Token = End | Identifier | Integer | Float | Comma | Dash | Colons | Whitespace
  {
    /** The scan_ variables are set when such a token is read. */
    predicate HasText() { !End? && !Whitespace? }

    predicate HasValue() { Integer? || Float? }
  }

  /** A token, its text (of a Float: the text given to strtold), the value strtol gave, and where
      the next token is looked for. Invalid: a fatal error. */
  datatype Lexeme = Lexeme(tok: Token, text: string, value: nat, next: nat) | Invalid

  function TokOf(l: Lexeme): Option<Token> {
    if l.Invalid? then None else Some(l.tok)
  }

  predicate IsNameChar(c: char) { IsAlNum(c) || c == '_' }

  // --- What a token is ---------------------------------------------------------------------

  /** The end of strtold's number whose integer part ends at the point s[point]. */
  function FloatEnd(s: string, point: nat): (end: nat)
    requires point < |s|
    ensures point < end <= |s|
  {
    var e := Scan(s, point + 1, Digit);
    if e < |s| && (s[e] == 'e' || s[e] == 'E') then
      var d := if e + 1 < |s| && (s[e + 1] == '+' || s[e + 1] == '-') then e + 2 else e + 1;
      if d < |s| && IsDigit(s[d]) then Scan(s, d, Digit) else e
    else e
  }

  function NumberAt(s: string, pos: nat): Lexeme
    requires pos < |s|
  {
    var e := Scan(s, pos, Digit);
    var isFloat := e < |s| && s[e] == '.';
    var end := if isFloat then FloatEnd(s, e) else e;
    var value := DigitsValue(s[pos..e]);
    if (end < |s| && (IsAlpha(s[end]) || s[end] == '_')) || value > LONG_MAX then Invalid
    else Lexeme(if isFloat then Float else Integer, s[pos..end], value, end)
  }

  /** The name at pos; a backslash takes the character after it into the name, whatever it is. */
  function NameFrom(s: string, pos: nat): (r: Option<(string, nat)>)
    requires pos <= |s|
    ensures r.Some? ==> pos <= r.value.1 <= |s| && (r.value.0 != "" ==> r.value.1 > pos)
    decreases |s| - pos
  {
    if pos < |s| && IsNameChar(s[pos]) then PrependChar(s[pos], NameFrom(s, pos + 1))
    else if pos < |s| && s[pos] == '\\' then
      if pos + 1 == |s| then None else PrependChar(s[pos + 1], NameFrom(s, pos + 2))
    else Some(("", pos))
  }

  function PrependChar(c: char, r: Option<(string, nat)>): Option<(string, nat)> {
    match r
    case None => None
    case Some((text, end)) => Some(([c] + text, end))
  }

  function NameAt(s: string, pos: nat): Lexeme
    requires pos <= |s|
  {
    match NameFrom(s, pos)
    case None => Invalid
    case Some((text, end)) => if |text| > MAX_IDENTIFIER_LENGTH - 1 then Invalid else Lexeme(Identifier, text, 0, end)
  }

  /** The token at pos; `keep` makes blanks a token of their own. Trailing blanks are an invalid
      operand unless they are kept. */
  function Scanned(s: string, pos: nat, keep: bool): (l: Lexeme)
    requires pos <= |s|
    ensures l.Lexeme? ==> pos <= l.next <= |s| && (!l.tok.End? ==> pos < l.next) && (l.tok.Whitespace? ==> keep)
  {
    if pos == |s| then Lexeme(End, "", 0, pos) else
    var p := Scan(s, pos, Space);
    if p > pos && keep then Lexeme(if p == |s| then End else Whitespace, "", 0, p)
    else if p == |s| then Invalid
    else TokenAt(s, p)
  }

  function TokenAt(s: string, p: nat): (l: Lexeme)
    requires p < |s| && !IsSpace(s[p])
    ensures l.Lexeme? ==> p < l.next <= |s| && l.tok.HasText()
  {
    if s[p] == ',' then Lexeme(Comma, ",", 0, p + 1)
    else if s[p] == '-' then Lexeme(Dash, "-", 0, p + 1)
    else if s[p] == ':' then Lexeme(Colons, ":", 0, p + 1)
    else if IsDigit(s[p]) then NumberAt(s, p)
    else if IsAlpha(s[p]) || s[p] == '_' || s[p] == '\\' then
      assert NameFrom(s, p).Some? ==> NameFrom(s, p).value.0 != "";
      NameAt(s, p)
    else Invalid
  }

  // --- The scanner -------------------------------------------------------------------------

  /** The state of the scanner: its input, the peeked token, and the variables other modules read.
      The C string is NUL-terminated, so the input holds no NUL. */
  class Scanner {
    const input: string
    var pos: nat
    var havePeek: bool
    var peek: Token
    var keepWhitespace: bool
    var identifier: string
    var valInt: nat
    var valFloat: string
    ghost var at: nat          // where the token to be delivered next was or will be looked for
    ghost var peekKept: bool   // the blank mode in which it was peeked

    /** The token to be delivered next. */
    ghost function Next(): Lexeme
      requires at <= |input|
      reads this
    {
      Scanned(input, at, if havePeek then peekKept else keepWhitespace)
    }

    /** The scan_ variables hold what reading l put there. */
    ghost predicate Carries(l: Lexeme)
      reads this
    {
      l.Lexeme? && (l.tok.HasText() ==> identifier == l.text) && (l.tok.HasValue() ==> valInt == l.value)
      && (l.tok.Float? ==> valFloat == l.text)
    }

    ghost predicate Valid()
      reads this
    {
      && at <= |input| && pos <= |input|
      && (if havePeek then Carries(Next()) && Next().tok == peek && Next().next == pos else at == pos)
    }

    constructor (input: string)
      ensures Valid() && this.input == input && at == 0 && !havePeek && !keepWhitespace
    {
      this.input := input;
      pos, havePeek, peek, keepWhitespace := 0, false, End, false;
      identifier, valInt, valFloat := "", 0, "";
      at, peekKept := 0, false;
    }

    /** scanner_peek_token: delivers the next token without passing it, but overwrites the scan_
        variables with its values. */
    method PeekToken() returns (t: Option<Token>)
      requires Valid()
      modifies this
      ensures keepWhitespace == old(keepWhitespace)
      ensures t == TokOf(old(Next()))
      ensures t.Some? && !t.value.HasValue() ==> valInt == old(valInt)
      ensures at == old(at)
      ensures t.Some? ==> Valid() && havePeek && Next() == old(Next()) && Carries(Next())
    {
      hide Scanned;
      if havePeek {
        return Some(peek);
      }
      ghost var start, l := at, Next();
      t := GetToken();
      if t.Some? {
        peek := t.value;
        havePeek := true;
        at, peekKept := start, keepWhitespace;
      }
    }

    /** scanner_get_token. */
    method GetToken() returns (t: Option<Token>)
      requires Valid()
      modifies this
      ensures keepWhitespace == old(keepWhitespace)
      ensures t == TokOf(old(Next()))
      ensures t.Some? && !t.value.HasValue() ==> valInt == old(valInt)
      ensures t.None? ==> at == old(at)
      ensures t.Some? ==> Valid() && at == old(Next()).next && !havePeek && Carries(old(Next()))
    {
      if havePeek {
        hide Scanned;
        havePeek := false;
        at := pos;
        return Some(peek);
      }
      hide TokenAt;
      if pos == |input| {
        return Some(End);
      }
      var start := pos;
      SkipSpace();
      if pos > start && keepWhitespace {
        at := pos;
        return Some(if pos == |input| then End else Whitespace);
      }
      if pos == |input| {
        return None;
      }
      t := ReadToken();
      if t.Some? {
        at := pos;
      }
    }

    method SkipSpace()
      requires pos <= |input|
      modifies this`pos
      ensures pos == Scan(input, old(pos), Space)
    {
      while pos < |input| && IsSpace(input[pos])
        invariant old(pos) <= pos <= |input|
        invariant forall k :: old(pos) <= k < pos ==> Space.Has(input[k])
      {
        pos := pos + 1;
      }
      ScanUnique(input, old(pos), Space, pos);
    }

    /** The part of scanner_get_token after the blanks. */
    method ReadToken() returns (t: Option<Token>)
      requires pos < |input| && !IsSpace(input[pos])
      modifies this`pos, this`identifier, this`valInt, this`valFloat
      ensures t.Some? && !t.value.HasValue() ==> valInt == old(valInt)
      ensures var l := TokenAt(input, old(pos));
        && (l.Invalid? ==> t == None)
        && (l.Lexeme? ==> t == Some(l.tok) && pos == l.next && Carries(l))
    {
      hide NumberAt, NameAt;
      var c := input[pos];
      if c == ',' || c == '-' || c == ':' {
        pos := pos + 1;
        identifier := [c];
        return Some(if c == ',' then Comma else if c == '-' then Dash else Colons);
      }
      if IsDigit(c) {
        t := ReadNumber();
      } else if IsAlpha(c) || c == '_' || c == '\\' {
        t := ReadName();
      } else {
        t := None;
      }
    }

    method ReadNumber() returns (t: Option<Token>)
      requires pos < |input|
      modifies this`pos, this`identifier, this`valInt, this`valFloat
      ensures t.Some? ==> t.value.HasValue()
      ensures var l := NumberAt(input, old(pos));
        && (l.Invalid? ==> t == None)
        && (l.Lexeme? ==> t == Some(l.tok) && pos == l.next && Carries(l))
    {
      hide FloatEnd, DigitsValue;
      var rc := Integer;
      var pend := Scan(input, pos, Digit);
      var overflow := DigitsValue(input[pos..pend]) > LONG_MAX;   // strtol sets ERANGE
      valInt := if overflow then LONG_MAX else DigitsValue(input[pos..pend]);
      if pend < |input| && input[pend] == '.' {
        pend := FloatEnd(input, pend);
        valFloat := input[pos..pend];
        rc := Float;
      }
      if (pend < |input| && (IsAlpha(input[pend]) || input[pend] == '_')) || overflow {
        return None;
      }
      identifier := input[pos..pend];
      pos := pend;
      t := Some(rc);
    }

    /** The identifier loop, with its fixed buffer. */
    method ReadName() returns (t: Option<Token>)
      requires pos < |input|
      modifies this`pos, this`identifier
      ensures var l := NameAt(input, old(pos));
        && (l.Invalid? ==> t == None)
        && (l.Lexeme? ==> t == Some(l.tok) && pos == l.next && Carries(l))
    {
      var ident := new char[MAX_IDENTIFIER_LENGTH];
      var len: nat, v := 0, pos;
      NameWhole(input, pos);
      while true
        invariant len < MAX_IDENTIFIER_LENGTH == ident.Length && old(pos) == pos <= v <= |input|
        invariant NameFrom(input, pos) == PrependAll(ident[..len], NameFrom(input, v))
        decreases |input| - v
      {
        hide PrependAll;
        NameEnds(input, v);
        if v < |input| && IsNameChar(input[v]) {
        } else if v < |input| && input[v] == '\\' {
          v := v + 1;
          if v == |input| {
            PrependNone(ident[..len]);
            return None;
          }
        } else {
          break;
        }
        PrependMore(ident[..len], input[v], NameFrom(input, v + 1));
        if len >= MAX_IDENTIFIER_LENGTH - 1 {
          PrependLonger(ident[..len] + [input[v]], NameFrom(input, v + 1));
          return None;
        }
        ident[len] := input[v];
        assert ident[..len + 1] == ident[..len] + [input[v]];
        len := len + 1;
        v := v + 1;
      }
      identifier := ident[..len];
      pos := v;
      t := Some(Identifier);
      PrependEmpty(ident[..len], v);
    }
  }

  // --- The identifier loop -----------------------------------------------------------------

  function PrependAll(a: string, r: Option<(string, nat)>): Option<(string, nat)> {
    match r
    case None => None
    case Some((text, end)) => Some((a + text, end))
  }

  lemma NameWhole(s: string, pos: nat)
    requires pos <= |s|
    ensures NameFrom(s, pos) == PrependAll("", NameFrom(s, pos))
  {
    hide NameFrom;
    var r := NameFrom(s, pos);
    if r.Some? {
      assert "" + r.value.0 == r.value.0;
    }
  }

  lemma NameEnds(s: string, v: nat)
    requires v <= |s|
    ensures v < |s| && IsNameChar(s[v]) ==> NameFrom(s, v) == PrependChar(s[v], NameFrom(s, v + 1))
    ensures v < |s| && s[v] == '\\' ==>
      NameFrom(s, v) == if v + 1 == |s| then None else PrependChar(s[v + 1], NameFrom(s, v + 2))
    ensures v == |s| || (!IsNameChar(s[v]) && s[v] != '\\') ==> NameFrom(s, v) == Some(("", v))
  {
  }

  lemma PrependNone(a: string)
    ensures PrependAll(a, None) == None
  {
  }

  lemma PrependMore(a: string, c: char, r: Option<(string, nat)>)
    ensures PrependAll(a, PrependChar(c, r)) == PrependAll(a + [c], r)
  {
    if r.Some? {
      assert a + ([c] + r.value.0) == (a + [c]) + r.value.0;
    }
  }

  lemma PrependLonger(a: string, r: Option<(string, nat)>)
    ensures var whole := PrependAll(a, r); whole.Some? ==> |whole.value.0| >= |a|
  {
  }

  lemma PrependEmpty(a: string, v: nat)
    ensures PrependAll(a, Some(("", v))) == Some((a, v))
  {
    assert a + "" == a;
  }
}
