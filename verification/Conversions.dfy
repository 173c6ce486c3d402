/** The built-in conversions of decorate (src/decorate-functions.c). */
module Conversions {
  import opened Text
  import opened Numerals

  /** INT_BUFSIZE_BOUND of a 64-bit integer, the width numbers are padded to. */
  const WIDTH: nat := 21

  // --- Roman numerals ----------------------------------------------------------------------

  function NumeralValue(c: char): nat {
    match c
    case 'M' => 1000
    case 'D' => 500
    case 'C' => 100
    case 'L' => 50
    case 'X' => 10
    case 'V' => 5
    case 'I' => 1
    case _ => 0
  }

  predicate IsNumeral(s: string) {
    forall i :: 0 <= i < |s| ==> NumeralValue(s[i]) != 0
  }

  /** The value of a numeral: a smaller letter before a larger one is subtracted from it. */
  function RomanValue(s: string): nat {
    if s == "" then 0
    else if |s| > 1 && NumeralValue(s[0]) < NumeralValue(s[1]) then
      NumeralValue(s[1]) - NumeralValue(s[0]) + RomanValue(s[2..])
    else NumeralValue(s[0]) + RomanValue(s[1..])
  }

  /** What the conversion `roman` makes of a text. */
  function Roman(text: string): Option<string> {
    if text != "" && IsNumeral(text) then Some(ZeroPadded(RomanValue(text), WIDTH)) else None
  }

  /** decorate_roman_numerals: `last` is the letter not yet added, or 0. */
  method RomanNumerals(text: string) returns (r: Option<string>)
    ensures r == Roman(text)
  {
    hide RomanValue, NumeralValue, ZeroPadded;
    if text == "" {
      return None;
    }
    var result, cur, last := 0, 0, 0;
    var i := 0;
    RomanAt(text, 0);
    while i < |text|
      invariant 0 <= i <= |text| && (i == 0 ==> last == 0)
      invariant IsNumeral(text[..i])
      invariant last == 0 || last == NumeralValue(text[i - 1])
      invariant RomanValue(text) == result + RomanValue(text[if last == 0 then i else i - 1..])
    {
      cur := NumeralValue(text[i]);
      if cur == 0 {
        return None;
      }
      if last != 0 {
        RomanAt(text, i - 1);
        if last >= cur {
          result := result + last;
        } else {
          result := result + (cur - last);
          cur := 0;
        }
      }
      last := cur;
      i := i + 1;
    }
    RomanEnds(text);
    result := result + last;
    r := Some(ZeroPadded(result, WIDTH));
  }

  /** What one letter adds. */
  lemma RomanAt(s: string, i: nat)
    requires i < |s|
    ensures s[0..] == s
    ensures i + 1 < |s| && NumeralValue(s[i]) < NumeralValue(s[i + 1]) ==>
      RomanValue(s[i..]) == NumeralValue(s[i + 1]) - NumeralValue(s[i]) + RomanValue(s[i + 2..])
    ensures i + 1 < |s| && NumeralValue(s[i]) >= NumeralValue(s[i + 1]) ==>
      RomanValue(s[i..]) == NumeralValue(s[i]) + RomanValue(s[i + 1..])
  {
    hide NumeralValue;
    var t := s[i..];
    assert t[1..] == s[i + 1..];
    if i + 1 < |s| {
      assert t[2..] == s[i + 2..];
    }
  }

  lemma RomanEnds(s: string)
    requires s != ""
    ensures RomanValue(s[|s|..]) == 0 && RomanValue(s[|s| - 1..]) == NumeralValue(s[|s| - 1])
    ensures s[..|s|] == s
  {
    hide NumeralValue;
  }

  function Repeat(c: char, k: nat): (s: string)
    ensures |s| == k && forall i :: 0 <= i < k ==> s[i] == c
  {
    if k == 0 then "" else [c] + Repeat(c, k - 1)
  }

  /** The usual numeral of one decimal digit, from the letters for 1, 5 and 10. */
  function DigitNumeral(d: nat, one: char, five: char, ten: char): string
    requires d < 10
  {
    if d < 4 then Repeat(one, d)
    else if d == 4 then [one, five]
    else if d < 9 then [five] + Repeat(one, d - 5)
    else [one, ten]
  }

  /** The canonical numeral of n. */
  function Canonical(n: nat): string {
    Repeat('M', n / 1000)
    + (DigitNumeral(n / 100 % 10, 'C', 'D', 'M')
    + (DigitNumeral(n / 10 % 10, 'X', 'L', 'C')
    + DigitNumeral(n % 10, 'I', 'V', 'X')))
  }

  /** Two numerals side by side, the first ending in a letter not smaller than the second starts with. */
  lemma {:induction false} RomanConcat(a: string, b: string)
    requires a == "" || b == "" || NumeralValue(a[|a| - 1]) >= NumeralValue(b[0])
    ensures RomanValue(a + b) == RomanValue(a) + RomanValue(b)
  {
    hide NumeralValue;
    if a == "" {
      assert a + b == b;
    } else if b == "" {
      assert a + b == a;
    } else if |a| > 1 && NumeralValue(a[0]) < NumeralValue(a[1]) {
      assert (a + b)[2..] == a[2..] + b;
      RomanConcat(a[2..], b);
    } else {
      assert (a + b)[1..] == a[1..] + b;
      RomanConcat(a[1..], b);
    }
  }

  lemma {:induction false} RepeatValue(c: char, k: nat)
    ensures RomanValue(Repeat(c, k)) == k * NumeralValue(c)
  {
    hide NumeralValue;
    if k > 0 {
      RepeatValue(c, k - 1);
      assert Repeat(c, k)[1..] == Repeat(c, k - 1);
    }
  }

  lemma PairValue(a: char, b: char)
    requires NumeralValue(a) < NumeralValue(b)
    ensures RomanValue([a, b]) == NumeralValue(b) - NumeralValue(a)
  {
    assert [a, b][2..] == "";
  }

  predicate StartsBelow(s: string, v: nat) {
    s == "" || NumeralValue(s[0]) <= v
  }

  predicate EndsAbove(s: string, v: nat) {
    s == "" || NumeralValue(s[|s| - 1]) >= v
  }

  /** A digit's numeral has its value, starts with a letter for 1 or 5 and ends with one for 1, 5 or 10. */
  lemma DigitNumeralValue(d: nat, one: char, five: char, ten: char)
    requires d < 10
    requires NumeralValue(one) > 0 && NumeralValue(five) == 5 * NumeralValue(one)
    requires NumeralValue(ten) == 10 * NumeralValue(one)
    ensures var s := DigitNumeral(d, one, five, ten);
      && RomanValue(s) == d * NumeralValue(one)
      && StartsBelow(s, NumeralValue(five)) && EndsAbove(s, NumeralValue(one))
      && IsNumeral(s)
  {
    hide NumeralValue, RomanValue;
    if d < 4 {
      RepeatValue(one, d);
    } else if d == 4 {
      PairValue(one, five);
    } else if d < 9 {
      RepeatValue(five, 1);
      RepeatValue(one, d - 5);
      RomanConcat(Repeat(five, 1), Repeat(one, d - 5));
      assert Repeat(five, 1) == [five];
    } else {
      PairValue(one, ten);
    }
  }

  /** The conversion of the canonical numeral of n is n, for every n. */
  lemma CanonicalValue(n: nat)
    ensures RomanValue(Canonical(n)) == n && IsNumeral(Canonical(n))
  {
    hide *;
    Letters();
    var m := Thousands(n / 1000);
    var (c, x, i) := (n / 100 % 10, n / 10 % 10, n % 10);
    DigitNumeralValue(c, 'C', 'D', 'M');
    DigitNumeralValue(x, 'X', 'L', 'C');
    DigitNumeralValue(i, 'I', 'V', 'X');
    Parts(m, DigitNumeral(c, 'C', 'D', 'M'), DigitNumeral(x, 'X', 'L', 'C'), DigitNumeral(i, 'I', 'V', 'X'));
    CanonicalParts(n);
    DecimalDigits(n);
  }

  lemma CanonicalParts(n: nat)
    ensures Canonical(n) == Repeat('M', n / 1000) + (DigitNumeral(n / 100 % 10, 'C', 'D', 'M')
      + (DigitNumeral(n / 10 % 10, 'X', 'L', 'C') + DigitNumeral(n % 10, 'I', 'V', 'X')))
  {
  }

  lemma Thousands(k: nat) returns (m: string)
    ensures m == Repeat('M', k) && RomanValue(m) == k * 1000 && IsNumeral(m)
    ensures StartsBelow(m, 1000) && EndsAbove(m, 1000)
  {
    hide RomanValue;
    m := Repeat('M', k);
    RepeatValue('M', k);
  }

  lemma ConcatParts(a: string, b: string, v: nat, w: nat)
    requires IsNumeral(a) && IsNumeral(b) && EndsAbove(a, v) && StartsBelow(b, v)
    requires StartsBelow(a, w) && v <= w
    ensures RomanValue(a + b) == RomanValue(a) + RomanValue(b)
    ensures IsNumeral(a + b) && StartsBelow(a + b, w)
  {
    hide NumeralValue, RomanValue;
    RomanConcat(a, b);
  }

  lemma Parts(m: string, c: string, x: string, i: string)
    requires IsNumeral(m) && IsNumeral(c) && IsNumeral(x) && IsNumeral(i)
    requires EndsAbove(m, 1000) && StartsBelow(c, 500) && EndsAbove(c, 100)
    requires StartsBelow(x, 50) && EndsAbove(x, 10) && StartsBelow(i, 5)
    requires StartsBelow(m, 1000)
    ensures var s := m + (c + (x + i));
      RomanValue(s) == RomanValue(m) + RomanValue(c) + RomanValue(x) + RomanValue(i) && IsNumeral(s)
  {
    hide NumeralValue, RomanValue, IsNumeral;
    ConcatParts(x, i, 10, 50);
    ConcatParts(c, x + i, 100, 500);
    ConcatParts(m, c + (x + i), 1000, 1000);
  }

  lemma Letters()
    ensures NumeralValue('M') == 1000 && NumeralValue('D') == 500 && NumeralValue('C') == 100
    ensures NumeralValue('L') == 50 && NumeralValue('X') == 10 && NumeralValue('V') == 5 && NumeralValue('I') == 1
  {
  }

  lemma DecimalDigits(n: nat)
    ensures n == n / 1000 * 1000 + n / 100 % 10 * 100 + n / 10 % 10 * 10 + n % 10
  {
    LastDigit(n, 1);
    LastDigit(n, 10);
    LastDigit(n, 100);
  }

  lemma LastDigit(n: nat, k: nat)
    requires k == 1 || k == 10 || k == 100
    ensures n / k == n / (10 * k) * 10 + n / k % 10
  {
  }

  // --- Lengths -----------------------------------------------------------------------------

  /** decorate_strlen. */
  function StrLen(text: string): Option<string> {
    Some(ZeroPadded(|Trunc(text)|, WIDTH))
  }

  /** Converted lengths sort as text the way the lengths sort as numbers. */
  lemma StrLenOrder(a: string, b: string)
    requires |Trunc(a)| < Pow(10, WIDTH) && |Trunc(b)| < Pow(10, WIDTH)
    ensures Before(StrLen(a).value, StrLen(b).value) <==> |Trunc(a)| < |Trunc(b)|
  {
    hide ZeroPadded, Before, Pow;
    PaddedOrder(|Trunc(a)|, |Trunc(b)|, WIDTH);
  }

  /** Numerals sort by value, whatever their spelling. */
  lemma RomanOrder(a: string, b: string)
    requires RomanValue(a) < Pow(10, WIDTH) && RomanValue(b) < Pow(10, WIDTH)
    ensures Before(ZeroPadded(RomanValue(a), WIDTH), ZeroPadded(RomanValue(b), WIDTH)) <==> RomanValue(a) < RomanValue(b)
  {
    hide ZeroPadded, Before, Pow;
    PaddedOrder(RomanValue(a), RomanValue(b), WIDTH);
  }

  // --- Addresses ---------------------------------------------------------------------------

  predicate IsBytes(bs: seq<nat>) {
    forall i :: 0 <= i < |bs| ==> bs[i] < 256
  }

  /** The number whose bytes, most significant first, these are (ntohl of an address). */
  function BytesValue(bs: seq<nat>): nat {
    if bs == [] then 0 else BytesValue(bs[..|bs| - 1]) * 256 + bs[|bs| - 1]
  }

  /** %02X of each byte. */
  function Hex(bs: seq<nat>): (s: string)
    ensures |s| == 2 * |bs|
  {
    if bs == [] then "" else Hex(bs[..|bs| - 1]) + Fixed(bs[|bs| - 1], 16, 2)
  }

  lemma PowStep(w: nat)
    ensures Pow(16, w + 2) == Pow(16, w) * 256
    ensures Pow(16, 0) == 1
  {
    assert Pow(16, w + 2) == Pow(16, w + 1) * 16 && Pow(16, w + 1) == Pow(16, w) * 16;
  }

  lemma TwoDigits(n: nat, b: nat, w: nat)
    requires b < 256
    ensures Fixed(n * 256 + b, 16, w + 2) == Fixed(n, 16, w) + Fixed(b, 16, 2)
  {
    var m := n * 256 + b;
    ByteParts(n, b);
    hide Rem, Quot, DigitChar;
    assert Fixed(m, 16, w + 2) == Fixed(Quot(m, 16), 16, w + 1) + [DigitChar(Rem(m, 16))];
    assert Fixed(Quot(m, 16), 16, w + 1) == Fixed(n, 16, w) + [DigitChar(Rem(Quot(m, 16), 16))];
    assert Fixed(b, 16, 2) == Fixed(Quot(b, 16), 16, 1) + [DigitChar(Rem(b, 16))];
    assert Fixed(Quot(b, 16), 16, 1) == [DigitChar(Rem(Quot(b, 16), 16))];
  }

  lemma ByteParts(n: nat, b: nat)
    requires b < 256
    ensures var m := n * 256 + b;
      && Rem(m, 16) == Rem(b, 16)
      && Rem(Quot(m, 16), 16) == Rem(Quot(b, 16), 16)
      && Quot(Quot(m, 16), 16) == n
  {
    var m := n * 256 + b;
    assert m == 16 * (n * 16 + b / 16) + b % 16;
    assert Quot(m, 16) == n * 16 + b / 16;
  }

  /** Bytes in hexadecimal are the fixed-width digits of the number they form. */
  lemma {:induction false} HexIsFixed(bs: seq<nat>)
    requires IsBytes(bs)
    ensures Hex(bs) == Fixed(BytesValue(bs), 16, 2 * |bs|)
    ensures BytesValue(bs) < Pow(16, 2 * |bs|)
  {
    if bs == [] {
      PowStep(0);
    } else {
      var init := bs[..|bs| - 1];
      HexIsFixed(init);
      TwoDigits(BytesValue(init), bs[|bs| - 1], 2 * |init|);
      PowStep(2 * |init|);
      hide Fixed, Pow;
    }
  }

  lemma {:induction false} BytesOrder(a: seq<nat>, b: seq<nat>)
    requires IsBytes(a) && IsBytes(b) && |a| == |b|
    ensures Before(Hex(a), Hex(b)) <==> BytesValue(a) < BytesValue(b)
  {
    hide *;
    HexIsFixed(a);
    HexIsFixed(b);
    FixedOrder(BytesValue(a), BytesValue(b), 16, 2 * |a|);
  }

  /** What inet_pton makes of a text: the four bytes of an IPv4 address, or the sixteen of an IPv6 one. */
  ghost predicate IsAddress(adr: Option<seq<nat>>, size: nat) {
    adr.Some? ==> |adr.value| == size && IsBytes(adr.value)
  }

  /** decorate_ipv4_dot_decimal: %08X of the address. */
  function Ipv4(adr: Option<seq<nat>>): Option<string> {
    if adr.Some? then Some(Fixed(BytesValue(adr.value), 16, 8)) else None
  }

  /** IPv4 addresses sort by their numeric value. */
  lemma Ipv4Order(a: seq<nat>, b: seq<nat>)
    requires IsAddress(Some(a), 4) && IsAddress(Some(b), 4)
    ensures Before(Ipv4(Some(a)).value, Ipv4(Some(b)).value) <==> BytesValue(a) < BytesValue(b)
  {
    HexIsFixed(a);
    HexIsFixed(b);
    hide Fixed, Pow, BytesValue, Before, Hex;
    FixedOrder(BytesValue(a), BytesValue(b), 16, 8);
  }

  /** Hexadecimal bytes with a colon after every second one but the last. */
  function Groups(bs: seq<nat>): string {
    if |bs| <= 2 then Hex(bs) else Hex(bs[..2]) + ":" + Groups(bs[2..])
  }

  lemma HexPair(a: nat, b: nat)
    ensures Hex([a, b]) == Fixed(a, 16, 2) + Fixed(b, 16, 2)
  {
    hide Fixed;
    assert [a, b][..1] == [a] && [a][..0] == [];
    assert Hex([a]) == "" + Fixed(a, 16, 2);
  }

  lemma GroupsStep(bs: seq<nat>, i: nat)
    requires i + 2 <= |bs|
    ensures Groups(bs[i..]) == Fixed(bs[i], 16, 2) + Fixed(bs[i + 1], 16, 2)
                             + if i + 2 < |bs| then ":" + Groups(bs[i + 2..]) else ""
  {
    hide Fixed, Hex;
    var t := bs[i..];
    HexPair(bs[i], bs[i + 1]);
    assert t[..2] == [bs[i], bs[i + 1]] && t[2..] == bs[i + 2..];
    if i + 2 == |bs| {
      assert t == t[..2];
    }
  }

  /** Group k of the bytes stands at position 5k: four digits, and a colon unless it is the last. */
  lemma {:induction false} GroupAt(bs: seq<nat>, m: nat, k: nat)
    requires |bs| == 2 * m && k < m
    ensures var s := Groups(bs);
      && |s| == 5 * m - 1 && s[5 * k..5 * k + 4] == Hex([bs[2 * k], bs[2 * k + 1]])
      && (k < m - 1 ==> s[5 * k + 4] == ':')
  {
    hide Hex;
    if m == 1 {
      assert bs == [bs[0], bs[1]] && Groups(bs)[0..4] == Groups(bs);
    } else {
      var (head, rest) := (Hex(bs[..2]), Groups(bs[2..]));
      GroupAt(bs[2..], m - 1, if k > 0 then k - 1 else 0);
      hide Groups;
      assert bs[..2] == [bs[0], bs[1]];
      if k == 0 {
        assert (head + ":" + rest)[0..4] == head;
      } else {
        assert (head + ":" + rest)[5 * k..5 * k + 4] == rest[5 * (k - 1)..5 * (k - 1) + 4];
      }
    }
  }

  /** decorate_ipv6. */
  method Ipv6(adr: Option<seq<nat>>) returns (r: Option<string>)
    requires IsAddress(adr, 16)
    ensures r == if adr.Some? then Some(Groups(adr.value)) else None
  {
    hide Groups, Fixed;
    if adr.None? {
      return None;
    }
    var bs := adr.value;
    var out := "";
    var i := 0;
    assert bs[0..] == bs;
    while i < 16
      invariant 0 <= i <= 16 && i % 2 == 0
      invariant Groups(bs) == out + if i < 16 then Groups(bs[i..]) else ""
    {
      GroupsStep(bs, i);
      out := out + Fixed(bs[i], 16, 2) + Fixed(bs[i + 1], 16, 2);
      if i != 14 {
        out := out + ":";
      }
      i := i + 2;
    }
    assert out + "" == out;
    r := Some(out);
  }

  /** decorate_ipv6_ipv4: an IPv4 address is printed after the bits of `mapping`. */
  method Ipv6OrIpv4(adr4: Option<seq<nat>>, adr6: Option<seq<nat>>, mapping: nat) returns (r: Option<string>)
    requires IsAddress(adr4, 4) && IsAddress(adr6, 16)
    ensures r == if adr6.Some? then Some(Hex(adr6.value))
                 else if adr4.Some? then Some(Fixed(mapping, 16, 24) + Fixed(BytesValue(adr4.value), 16, 8))
                 else None
  {
    hide Fixed;
    if adr4.None? && adr6.None? {
      return None;
    }
    if adr6.Some? {
      var out := "";
      var i := 0;
      while i < 16
        invariant 0 <= i <= 16 && out == Hex(adr6.value[..i])
      {
        assert adr6.value[..i + 1][..i] == adr6.value[..i];
        out := out + Fixed(adr6.value[i], 16, 2);
        i := i + 1;
      }
      assert adr6.value[..16] == adr6.value;
      r := Some(out);
    } else {
      r := Some(Fixed(mapping, 16, 24) + Fixed(BytesValue(adr4.value), 16, 8));
    }
  }

  function ZeroBytes(n: nat): (bs: seq<nat>)
    ensures |bs| == n && forall i :: 0 <= i < n ==> bs[i] == 0
    ensures BytesValue(bs) == 0
  {
    if n == 0 then [] else ZeroBytes(n - 1) + [0]
  }

  /** The first twelve bytes of the IPv4-mapped (section 2.5.5.2 of RFC 4291) or IPv4-compatible
      (section 2.5.5.1) IPv6 address of an IPv4 address. */
  function Mapping(mapped: bool): (bs: seq<nat>)
    ensures |bs| == 12 && IsBytes(bs)
  {
    if mapped then ZeroBytes(10) + [255, 255] else ZeroBytes(12)
  }

  lemma MappingValue(mapped: bool)
    ensures BytesValue(Mapping(mapped)) == if mapped then 0xFFFF else 0
  {
    if mapped {
      var zeros := ZeroBytes(10);
      assert Mapping(true) == (zeros + [255]) + [255];
      BytesSnoc(zeros, 255);
      BytesSnoc(zeros + [255], 255);
    }
  }

  lemma BytesSnoc(bs: seq<nat>, b: nat)
    ensures BytesValue(bs + [b]) == BytesValue(bs) * 256 + b
  {
    assert (bs + [b])[..|bs|] == bs;
  }

  lemma {:induction false} HexConcat(a: seq<nat>, b: seq<nat>)
    ensures Hex(a + b) == Hex(a) + Hex(b)
  {
    hide Fixed;
    if b == [] {
      assert a + b == a;
    } else {
      assert (a + b)[..|a + b| - 1] == a + b[..|b| - 1];
      HexConcat(a, b[..|b| - 1]);
    }
  }

  /** An IPv4 address is converted to the same digits as the IPv6 address it corresponds to. */
  lemma MappedIsIpv6(adr: seq<nat>, mapped: bool)
    requires IsAddress(Some(adr), 4)
    ensures Fixed(if mapped then 0xFFFF else 0, 16, 24) + Fixed(BytesValue(adr), 16, 8) == Hex(Mapping(mapped) + adr)
  {
    hide Fixed, BytesValue, Hex, Mapping, Pow;
    MappingValue(mapped);
    HexIsFixed(Mapping(mapped));
    HexIsFixed(adr);
    HexConcat(Mapping(mapped), adr);
  }

  lemma {:induction false} BeforeConcat(a: string, b: string, c: string, d: string)
    requires |a| == |b|
    ensures Before(a + c, b + d) <==> Before(a, b) || (a == b && Before(c, d))
  {
    if a == "" {
      assert a + c == c && b + d == d;
    } else {
      assert (a + c)[1..] == a[1..] + c && (b + d)[1..] == b[1..] + d;
      assert a == [a[0]] + a[1..] && b == [b[0]] + b[1..];
      BeforeConcat(a[1..], b[1..], c, d);
    }
  }

  lemma SameStart(a: string, b: string, c: string, d: string)
    requires |a| == |b|
    ensures a + c == b + d <==> a == b && c == d
  {
    if a + c == b + d {
      assert (a + c)[..|a|] == a && (b + d)[..|b|] == b;
      assert (a + c)[|a|..] == c && (b + d)[|b|..] == d;
    }
  }

  /** The colons do not disturb the order. */
  lemma {:induction false} GroupsOrder(a: seq<nat>, b: seq<nat>)
    requires |a| == |b|
    ensures Before(Groups(a), Groups(b)) <==> Before(Hex(a), Hex(b))
    ensures Groups(a) == Groups(b) <==> Hex(a) == Hex(b)
    decreases |a|
  {
    if |a| > 2 {
      hide *;
      GroupsTail(a);
      GroupsTail(b);
      GroupsOrder(a[2..], b[2..]);
      GroupOrder(Hex(a[..2]), Hex(b[..2]), Groups(a[2..]), Groups(b[2..]), Hex(a[2..]), Hex(b[2..]));
    }
  }

  lemma GroupsTail(bs: seq<nat>)
    requires |bs| > 2
    ensures Groups(bs) == Hex(bs[..2]) + (":" + Groups(bs[2..]))
    ensures Hex(bs) == Hex(bs[..2]) + Hex(bs[2..])
  {
    assert bs == bs[..2] + bs[2..];
    HexConcat(bs[..2], bs[2..]);
    hide Hex;
  }

  lemma GroupOrder(p: string, q: string, c: string, d: string, e: string, f: string)
    requires |p| == |q|
    requires Before(c, d) <==> Before(e, f)
    requires c == d <==> e == f
    ensures Before(p + (":" + c), q + (":" + d)) <==> Before(p + e, q + f)
    ensures p + (":" + c) == q + (":" + d) <==> p + e == q + f
  {
    hide *;
    BeforeConcat(p, q, ":" + c, ":" + d);
    BeforeConcat(":", ":", c, d);
    BeforeConcat(p, q, e, f);
    SameStart(p, q, ":" + c, ":" + d);
    SameStart(":", ":", c, d);
    SameStart(p, q, e, f);
    ColonAlone();
  }

  lemma ColonAlone()
    ensures !Before(":", ":")
  {
  }

  /** Converted IPv6 addresses sort by their numeric value. */
  lemma Ipv6Order(a: seq<nat>, b: seq<nat>)
    requires IsAddress(Some(a), 16) && IsAddress(Some(b), 16)
    ensures Before(Groups(a), Groups(b)) <==> BytesValue(a) < BytesValue(b)
  {
    hide Groups, BytesValue, Before, Hex;
    GroupsOrder(a, b);
    BytesOrder(a, b);
  }

  /** So do mixed addresses, an IPv4 address counting as the IPv6 address it maps to. */
  lemma MixedOrder(a: seq<nat>, b: seq<nat>, mapped: bool)
    requires IsAddress(Some(a), 4) && IsAddress(Some(b), 16)
    ensures var v4 := Fixed(if mapped then 0xFFFF else 0, 16, 24) + Fixed(BytesValue(a), 16, 8);
      && (Before(v4, Hex(b)) <==> BytesValue(Mapping(mapped) + a) < BytesValue(b))
      && (Before(Hex(b), v4) <==> BytesValue(b) < BytesValue(Mapping(mapped) + a))
  {
    hide Fixed, BytesValue, Hex, Mapping, Before;
    MappedIsIpv6(a, mapped);
    BytesOrder(Mapping(mapped) + a, b);
    BytesOrder(b, Mapping(mapped) + a);
  }
}
