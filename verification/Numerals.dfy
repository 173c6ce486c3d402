/** Numbers as text: printf's conversions and the strto* functions, on digits only. */
module Numerals {
  import opened Text

  function DigitChar(d: nat): (c: char)
    requires d < 16
    ensures d < 10 ==> IsDigit(c)
  {
    if d < 10 then ('0' as int + d) as char else ('A' as int + d - 10) as char
  }

  function DigitValue(c: char): (d: nat)
    requires IsDigit(c)
    ensures d < 10 && DigitChar(d) == c
  {
    c as int - '0' as int
  }

  /** %zu. */
  function Decimal(n: nat): (s: string)
    ensures s != "" && AllIn(s, Digit)
  {
    if n < 10 then [DigitChar(n)] else Decimal(n / 10) + [DigitChar(n % 10)]
  }

  /** The number a string of digits denotes. */
  function DigitsValue(s: string): nat
    requires AllIn(s, Digit)
  {
    if s == "" then 0 else DigitsValue(s[..|s| - 1]) * 10 + DigitValue(s[|s| - 1])
  }

  lemma {:induction false} DecimalValue(n: nat)
    ensures DigitsValue(Decimal(n)) == n
  {
    var s := Decimal(n);
    if n >= 10 {
      DecimalValue(n / 10);
      assert s[..|s| - 1] == Decimal(n / 10);
    }
  }

  // Decimal texts, digit by digit.

  lemma OneDigit(d: nat)
    requires d < 10
    ensures Decimal(d) == [DigitChar(d)]
  {
  }

  lemma DigitChars()
    ensures DigitChar(1) == '1' && DigitChar(2) == '2' && DigitChar(3) == '3' && DigitChar(4) == '4'
    ensures DigitChar(5) == '5' && DigitChar(6) == '6' && DigitChar(7) == '7' && DigitChar(8) == '8'
    ensures DigitChar(9) == '9'
  {
  }

  lemma DecimalMore(n: nat, d: nat)
    requires n > 0 && d < 10
    ensures Decimal(10 * n + d) == Decimal(n) + [DigitChar(d)]
  {
  }

  lemma FourDigits(n: nat, a: nat, b: nat, c: nat, d: nat)
    requires n > 0 && a < 10 && b < 10 && c < 10 && d < 10
    ensures Decimal(10 * (10 * (10 * (10 * n + a) + b) + c) + d)
         == Decimal(n) + [DigitChar(a), DigitChar(b), DigitChar(c), DigitChar(d)]
  {
    hide Decimal, DigitChar;
    DecimalMore(n, a);
    DecimalMore(10 * n + a, b);
    DecimalMore(10 * (10 * n + a) + b, c);
    DecimalMore(10 * (10 * (10 * n + a) + b) + c, d);
  }

  // --- Fixed width -------------------------------------------------------------------------

  function Pow(base: nat, w: nat): (p: nat)
    requires base > 0
    ensures p > 0
  {
    if w == 0 then 1 else Pow(base, w - 1) * base
  }

  function Quot(n: nat, base: nat): nat
    requires base > 0
  {
    n / base
  }

  function Rem(n: nat, base: nat): (r: nat)
    requires base > 0
    ensures r < base
  {
    n % base
  }

  /** The last w digits of n. */
  function Fixed(n: nat, base: nat, w: nat): (s: string)
    requires 1 < base <= 16
    ensures |s| == w
    decreases w
  {
    if w == 0 then "" else Fixed(Quot(n, base), base, w - 1) + [DigitChar(Rem(n, base))]
  }

  function Zeros(n: nat): (s: string)
    ensures |s| == n
  {
    if n == 0 then "" else "0" + Zeros(n - 1)
  }

  /** %0*ju: at least w characters, zeros in front. */
  function ZeroPadded(n: nat, w: nat): string {
    var s := Decimal(n);
    if |s| < w then Zeros(w - |s|) + s else s
  }

  lemma {:induction false} BeforeSnoc(a: string, b: string, x: char, y: char)
    requires |a| == |b|
    ensures Before(a + [x], b + [y]) <==> Before(a, b) || (a == b && x < y)
  {
    if a == "" {
      assert (a + [x])[1..] == "" && (b + [y])[1..] == "";
    } else {
      assert (a + [x])[1..] == a[1..] + [x] && (b + [y])[1..] == b[1..] + [y];
      assert a == [a[0]] + a[1..] && b == [b[0]] + b[1..];
      BeforeSnoc(a[1..], b[1..], x, y);
    }
  }

  lemma DivideOrder(n: nat, m: nat, base: nat)
    requires base > 1
    ensures n < m <==> Quot(n, base) < Quot(m, base) || (Quot(n, base) == Quot(m, base) && Rem(n, base) < Rem(m, base))
    ensures n == m <==> Quot(n, base) == Quot(m, base) && Rem(n, base) == Rem(m, base)
  {
    QuotRem(n, base);
    QuotRem(m, base);
    hide *;
    MixedOrder(Quot(n, base), Rem(n, base), Quot(m, base), Rem(m, base), base);
    MixedOrder(Quot(m, base), Rem(m, base), Quot(n, base), Rem(n, base), base);
  }

  lemma QuotRem(n: nat, base: nat)
    requires base > 0
    ensures n == Quot(n, base) * base + Rem(n, base)
  {
  }

  lemma MixedOrder(q: nat, r: nat, p: nat, t: nat, base: nat)
    requires r < base && t < base
    ensures q < p ==> q * base + r < p * base + t
  {
    if q < p {
      TimesOrder(q + 1, p, base);
    }
  }

  lemma DivideBound(n: nat, base: nat, p: nat)
    requires base > 1 && n < p * base
    ensures Quot(n, base) < p
  {
    TimesOrder(p, n / base, base);
  }

  lemma TimesOrder(p: nat, q: nat, base: nat)
    ensures p <= q ==> p * base <= q * base
  {
  }

  lemma DigitOrder(d: nat, e: nat)
    requires d < 16 && e < 16
    ensures DigitChar(d) < DigitChar(e) <==> d < e
    ensures DigitChar(d) == DigitChar(e) <==> d == e
  {
  }

  /** Fixed-width digits compare as the numbers do. */
  lemma {:induction false} FixedOrder(n: nat, m: nat, base: nat, w: nat)
    requires 1 < base <= 16 && n < Pow(base, w) && m < Pow(base, w)
    ensures Before(Fixed(n, base, w), Fixed(m, base, w)) <==> n < m
    ensures Fixed(n, base, w) == Fixed(m, base, w) <==> n == m
    decreases w
  {
    hide *;
    if w == 0 {
      FixedNone(n, base);
      FixedNone(m, base);
    } else {
      FixedStep(n, base, w);
      FixedStep(m, base, w);
      FixedOrder(Quot(n, base), Quot(m, base), base, w - 1);
      DivideOrder(n, m, base);
      DigitOrder(Rem(n, base), Rem(m, base));
      var (a, b) := (Fixed(Quot(n, base), base, w - 1), Fixed(Quot(m, base), base, w - 1));
      BeforeSnoc(a, b, DigitChar(Rem(n, base)), DigitChar(Rem(m, base)));
      SnocEqual(a, b, DigitChar(Rem(n, base)), DigitChar(Rem(m, base)));
    }
  }

  lemma FixedNone(n: nat, base: nat)
    requires 1 < base <= 16 && n < Pow(base, 0)
    ensures n == 0 && Fixed(n, base, 0) == "" && !Before("", "")
  {
  }

  lemma SnocEqual(a: string, b: string, x: char, y: char)
    requires |a| == |b|
    ensures a + [x] == b + [y] <==> a == b && x == y
  {
    if a + [x] == b + [y] {
      assert (a + [x])[..|a|] == a && (b + [y])[..|b|] == b;
      assert (a + [x])[|a|] == x && (b + [y])[|b|] == y;
    }
  }

  lemma FixedStep(n: nat, base: nat, w: nat)
    requires 1 < base <= 16 && n < Pow(base, w) && w > 0
    ensures Quot(n, base) < Pow(base, w - 1)
    ensures Fixed(n, base, w) == Fixed(Quot(n, base), base, w - 1) + [DigitChar(Rem(n, base))]
  {
    DivideBound(n, base, Pow(base, w - 1));
  }

  lemma ZerosSnoc(k: nat)
    ensures Zeros(k + 1) == Zeros(k) + "0"
  {
    if k > 0 {
      ZerosSnoc(k - 1);
    }
  }

  lemma FixedZero(base: nat, w: nat)
    requires 1 < base <= 16
    ensures Fixed(0, base, w) == Zeros(w)
  {
    if w > 0 {
      FixedZero(base, w - 1);
      ZerosSnoc(w - 1);
    }
  }

  /** A number that fits is padded to exactly its fixed-width digits. */
  lemma {:induction false} PaddedIsFixed(n: nat, w: nat)
    requires n < Pow(10, w) && w > 0
    ensures ZeroPadded(n, w) == Fixed(n, 10, w)
    ensures |Decimal(n)| <= w
  {
    FixedStep(n, 10, w);
    if n < 10 {
      FixedZero(10, w - 1);
      assert n / 10 == 0;
    } else {
      PowOne();
      PaddedIsFixed(n / 10, w - 1);
      PadStep(Decimal(n / 10), DigitChar(n % 10), w);
      hide Fixed, Pow;
    }
  }

  lemma PowOne()
    ensures Pow(10, 1) == 10
  {
  }

  lemma PadStep(s: string, c: char, w: nat)
    requires |s| < w
    ensures Zeros(w - |s + [c]|) + (s + [c]) == (Zeros(w - 1 - |s|) + s) + [c]
  {
  }

  /** Zero-padded numbers sort as text the way they sort as numbers. */
  lemma PaddedOrder(n: nat, m: nat, w: nat)
    requires w > 0 && n < Pow(10, w) && m < Pow(10, w)
    ensures Before(ZeroPadded(n, w), ZeroPadded(m, w)) <==> n < m
    ensures ZeroPadded(n, w) == ZeroPadded(m, w) <==> n == m
  {
    hide *;
    PaddedIsFixed(n, w);
    PaddedIsFixed(m, w);
    FixedOrder(n, m, 10, w);
  }
}
