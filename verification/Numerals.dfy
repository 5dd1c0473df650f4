/** Fixed-width numerals and the ordinal string order.

Row keys and timestamps are compared as strings. This module relates that order
to the order of the numbers the strings were formatted from. */
module Numerals {

  datatype Base = Dec | Hex

  /** Ordinal comparison: the first differing character decides, and a proper prefix is smaller. */
  predicate LexLess(a: string, b: string) {
    if |b| == 0 then false
    else if |a| == 0 then true
    else a[0] < b[0] || (a[0] == b[0] && LexLess(a[1..], b[1..]))
  }

  function High(n: nat, base: Base): nat {
    if base.Dec? then n / 10 else n / 16
  }

  function Low(n: nat, base: Base): nat {
    if base.Dec? then n % 10 else n % 16
  }

  /** How many numbers have at most `width` digits. */
  function Pow(base: Base, width: nat): nat {
    if width == 0 then 1
    else if base.Dec? then 10 * Pow(base, width - 1)
    else 16 * Pow(base, width - 1)
  }

  /** The digit characters '0'..'9', 'a'..'f'. */
  function DigitChar(d: nat): char
    requires d < 16
  {
    if d < 10 then ('0' as int + d) as char else ('a' as int + d - 10) as char
  }

  /** The low `width` digits of `n`, most significant first, as `{:016x}` and `{:02}` print them. */
  function Digits(n: nat, width: nat, base: Base): (s: string)
    ensures |s| == width
  {
    if width == 0 then "" else Digits(High(n, base), width - 1, base) + [DigitChar(Low(n, base))]
  }

  /** All digits of `n` and no leading zero, as `BigInt.toString` prints them. */
  function MinDigits(n: nat, base: Base): (s: string)
    ensures |s| >= 1
  {
    if High(n, base) == 0 then [DigitChar(Low(n, base))]
    else MinDigits(High(n, base), base) + [DigitChar(Low(n, base))]
  }

  /** `s.padStart(width, '0')`. */
  function PadStart(s: string, width: nat): string
    decreases width - |s|
  {
    if |s| >= width then s else PadStart("0" + s, width)
  }

  // ---- the order itself ----

  lemma {:induction false} LexIrreflexive(a: string)
    ensures !LexLess(a, a)
  {
    if a != [] { LexIrreflexive(a[1..]); }
  }

  lemma {:induction false} LexTransitive(a: string, b: string, c: string)
    requires LexLess(a, b) && LexLess(b, c)
    ensures LexLess(a, c)
  {
    if a != [] && a[0] == b[0] == c[0] { LexTransitive(a[1..], b[1..], c[1..]); }
  }

  lemma {:induction false} LexTotal(a: string, b: string)
    ensures LexLess(a, b) || a == b || LexLess(b, a)
    ensures !(LexLess(a, b) && LexLess(b, a))
    decreases |a|
  {
    if a != [] && b != [] {
      assert a == [a[0]] + a[1..] && b == [b[0]] + b[1..];
      LexTotal(a[1..], b[1..]);
    }
  }

  /** Equal-length prefixes are compared first; only a tie lets the rest decide. */
  lemma {:induction false} LexConcat(a: string, b: string, x: string, y: string)
    requires |a| == |b|
    ensures LexLess(a + x, b + y) <==> LexLess(a, b) || (a == b && LexLess(x, y))
  {
    if a == [] {
      assert a + x == x && b + y == y;
    } else {
      assert (a + x)[1..] == a[1..] + x && (b + y)[1..] == b[1..] + y;
      assert a == [a[0]] + a[1..] && b == [b[0]] + b[1..];
      LexConcat(a[1..], b[1..], x, y);
    }
  }

  // ---- numerals ----

  lemma SnocOrder(a: string, d: nat, b: string, e: nat)
    requires |a| == |b| && d < 16 && e < 16
    ensures LexLess(a + [DigitChar(d)], b + [DigitChar(e)]) <==> LexLess(a, b) || (a == b && d < e)
    ensures a + [DigitChar(d)] == b + [DigitChar(e)] <==> a == b && d == e
  {
    var x, y := a + [DigitChar(d)], b + [DigitChar(e)];
    LexConcat(a, b, [DigitChar(d)], [DigitChar(e)]);
    assert x[..|a|] == a && y[..|b|] == b && x[|a|] == DigitChar(d) && y[|b|] == DigitChar(e);
  }

  /** Fixed-width numerals sort as the numbers they print. */
  lemma {:induction false} DigitsOrder(n: nat, m: nat, width: nat, base: Base)
    requires n < Pow(base, width) && m < Pow(base, width)
    ensures LexLess(Digits(n, width, base), Digits(m, width, base)) <==> n < m
    ensures Digits(n, width, base) == Digits(m, width, base) <==> n == m
  {
    if width > 0 {
      var q, p := High(n, base), High(m, base);
      DigitsOrder(q, p, width - 1, base);
      SnocOrder(Digits(q, width - 1, base), Low(n, base), Digits(p, width - 1, base), Low(m, base));
    }
  }

  /** The leading character of a numeral that fits in fewer digits is '0'. */
  lemma {:induction false} DigitsLeadingZero(n: nat, width: nat, base: Base)
    requires width > 0 && n < Pow(base, width - 1)
    ensures Digits(n, width, base) == "0" + Digits(n, width - 1, base)
  {
    if width > 1 {
      DigitsLeadingZero(High(n, base), width - 1, base);
      assert Digits(n, width, base)
          == "0" + (Digits(High(n, base), width - 2, base) + [DigitChar(Low(n, base))]);
    }
  }

  /** Minimal digits are the fixed-width numeral of some sufficient width. */
  lemma {:induction false} MinWidth(n: nat, width: nat, base: Base) returns (k: nat)
    requires width > 0 && n < Pow(base, width)
    ensures 0 < k <= width && n < Pow(base, k) && MinDigits(n, base) == Digits(n, k, base)
  {
    if High(n, base) == 0 {
      k := 1;
      assert Pow(base, 1) == if base.Dec? then 10 * Pow(base, 0) else 16 * Pow(base, 0);
      assert Digits(n, 1, base) == Digits(High(n, base), 0, base) + [DigitChar(Low(n, base))];
    } else {
      var j := MinWidth(High(n, base), width - 1, base);
      k := j + 1;
    }
  }

  lemma {:induction false} PadDigits(n: nat, k: nat, width: nat, base: Base)
    requires 0 < k <= width && n < Pow(base, k)
    ensures PadStart(Digits(n, k, base), width) == Digits(n, width, base)
    decreases width - k
  {
    if k < width {
      DigitsLeadingZero(n, k + 1, base);
      PadDigits(n, k + 1, width, base);
    }
  }

  /** Minimal digits padded with zeros are the fixed-width numeral. */
  lemma PadMinDigits(n: nat, width: nat, base: Base)
    requires width > 0 && n < Pow(base, width)
    ensures PadStart(MinDigits(n, base), width) == Digits(n, width, base)
  {
    var k := MinWidth(n, width, base);
    PadDigits(n, k, width, base);
  }
}
