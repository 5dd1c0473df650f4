/** How far the BMP280 pressure is from the real-valued formula of the datasheet
(BST-BMP280-DS001, appendix 8.1). */
module Bmp280Accuracy {
  import opened Division
  import opened Bmp280

  // ---- the formula of the appendix ----

  function RealHalf(t: TFineValue): real { t as real / 2.0 - 64000.0 }

  function RealDivisor(t: TFineValue, c: PressCalib): real {
    var v := RealHalf(t);
    var var1 := (c.p3 as real * (v * v) / 524288.0 + c.p2 as real * v) / 524288.0;
    (1.0 + var1 / 32768.0) * c.p1 as real
  }

  function RealDelta(adc: Adc, t: TFineValue, c: PressCalib): real {
    var v := RealHalf(t);
    var var2 := c.p6 as real * (v * v) / 32768.0 + c.p5 as real * v * 2.0;
    1048576.0 - adc as real - (var2 / 4.0 + c.p4 as real * 65536.0) / 4096.0
  }

  function RealQuotient(adc: Adc, t: TFineValue, c: PressCalib): real
    requires RealDivisor(t, c) > 0.0
  {
    RealDelta(adc, t, c) * 6250.0 / RealDivisor(t, c)
  }

  function RealCorrect(p: real, c: PressCalib): real {
    Adjusted(p, c.p9 as real * (p * p), c.p8 as real * p, c.p7 as real)
  }

  function Adjusted(p: real, x: real, y: real, p7: real): real {
    p + (x / 2147483648.0 + y / 32768.0 + p7) / 16.0
  }

  function RealPressure(adc: Adc, t: TFineValue, c: PressCalib): real
    requires RealDivisor(t, c) > 0.0
  {
    RealCorrect(RealQuotient(adc, t, c), c)
  }

  function Abs(x: int): int { if x < 0 then -x else x }

  predicate Near(x: real, y: real, e: real) { -e <= x - y <= e }

  // ---- rounding of the square ----

  /** Twice the half: no rounding. */
  function Twice(t: TFineValue): int { t - 128000 }

  lemma SquareError(t: TFineValue)
    ensures -60_600_000 <= Twice(t) * Twice(t) - 64 * Square(t) <= 60_600_000
    ensures Twice(t) - 2 * Half(t) == t % 2
  {
    HalfBounds(t);
    var v, s := Half(t), t % 2;
    var h, r := v / 4, v % 4;
    var u := Twice(t);
    assert v == 4 * h + r && u == 2 * v + s;
    Expand(u, v, h, r, s);
    MulBound(h, r, 540288, 3);
    MulBound(v, s, 2161152, 1);
    MulBound(r, r, 3, 3);
    MulBound(s, s, 1, 1);
  }

  lemma Expand(u: int, v: int, h: int, r: int, s: int)
    requires v == 4 * h + r && u == 2 * v + s
    ensures u * u == 64 * (h * h) + 32 * (h * r) + 4 * (r * r) + 4 * (v * s) + s * s
  {
    assert v * v == 16 * (h * h) + 8 * (h * r) + r * r;
    assert u * u == 4 * (v * v) + 4 * (v * s) + s * s;
  }

  // ---- the divisor ----

  /** 2^40 times the real slope. */
  function SlopeScaled(t: TFineValue, c: PressCalib): int {
    c.p3 * (Twice(t) * Twice(t)) + c.p2 * Twice(t) * 0x10_0000
  }

  const TWO_40: int := 0x100_0000_0000
  const TWO_31: int := 0x8000_0000
  const TWO_55: int := 0x80_0000_0000_0000

  lemma Scale(p: int, x: int, k: int, a: int, lost: int)
    requires x == k * a + lost
    ensures p * x == k * (p * a) + p * lost
  {
    assert p * (k * a) == k * (p * a);
  }

  lemma SlopeError(t: TFineValue, c: PressCalib)
    ensures -3 * TWO_40 < SlopeScaled(t, c) - TWO_40 * Slope(t, c) < 3 * TWO_40
  {
    var u, v, q := Twice(t), Half(t), Square(t);
    var lost := u * u - 0x8_0000 * (q / 8192);
    SquareLost(t, lost);
    MulBound(c.p3, lost, 32768, 61_130_000);
    MulBound(c.p2, t % 2, 32768, 1);
    Scale(c.p3, u * u, 0x8_0000, q / 8192, lost);
    Scale(c.p2, u, 2, v, t % 2);
    SlopeRounds(c.p3 * (q / 8192), c.p2 * v);
    SlopeTotal(c.p3 * (u * u), c.p2 * u, c.p3 * (q / 8192), c.p2 * v, c.p3 * lost, c.p2 * (t % 2), Slope(t, c));
  }

  lemma SquareLost(t: TFineValue, lost: int)
    requires lost == Twice(t) * Twice(t) - 0x8_0000 * (Square(t) / 8192)
    ensures -61_130_000 <= lost <= 61_130_000 && Twice(t) == 2 * Half(t) + t % 2
  {
    hide Square;
    SquareError(t);
    var q := Square(t);
    assert q == 8192 * (q / 8192) + q % 8192;
  }

  lemma SlopeTotal(a: int, b: int, x: int, y: int, dx: int, dy: int, w: int)
    requires a == 0x8_0000 * x + dx && b == 2 * y + dy && w == (x / 8 + y / 2) / 0x4_0000
    requires 0 <= 0x8_0000 * x + 0x20_0000 * y - TWO_40 * w < TWO_40 + 0x20_0000
    requires -32768 * 61_130_000 <= dx <= 32768 * 61_130_000 && -32768 <= dy <= 32768
    ensures -3 * TWO_40 < a + b * 0x10_0000 - TWO_40 * w < 3 * TWO_40
  {}

  lemma SlopeRounds(x: int, y: int)
    ensures 0 <= 0x8_0000 * x + 0x20_0000 * y - TWO_40 * ((x / 8 + y / 2) / 0x4_0000) < TWO_40 + 0x20_0000
  {
    var sum := x / 8 + y / 2;
    assert x == 8 * (x / 8) + x % 8 && y == 2 * (y / 2) + y % 2;
    assert sum == 0x4_0000 * (sum / 0x4_0000) + sum % 0x4_0000;
  }

  /** 2^55 times the real divisor. */
  function DivisorScaled(t: TFineValue, c: PressCalib): int {
    (TWO_55 + SlopeScaled(t, c)) * c.p1
  }

  lemma DivisorError(t: TFineValue, c: PressCalib)
    ensures -7 * TWO_55 < DivisorScaled(t, c) - TWO_55 * Divisor(t, c) < 7 * TWO_55
  {
    hide Slope, SlopeScaled;
    SlopeError(t, c);
    var w, z := Slope(t, c), SlopeScaled(t, c);
    var n := (32768 + w) * c.p1;
    assert n == 32768 * (n / 32768) + n % 32768;
    Distribute(TWO_55 + z, TWO_40 * (32768 + w), z - TWO_40 * w, c.p1);
    assert TWO_40 * (32768 + w) * c.p1 == TWO_40 * n;
    MulBound(z - TWO_40 * w, c.p1, 3 * TWO_40, 65535);
  }

  lemma DivisorIsScaled(t: TFineValue, c: PressCalib)
    ensures RealDivisor(t, c) == DivisorScaled(t, c) as real / 36028797018963968.0
  {
    var u, v := Twice(t) as real, RealHalf(t);
    assert v == u / 2.0;
    var a, b, d := c.p3 as real, c.p2 as real, c.p1 as real;
    assert v * v == u * u / 4.0;
    ScaledSlope(u, v, a, b);
    var var1 := (a * (v * v) / 524288.0 + b * v) / 524288.0;
    assert SlopeScaled(t, c) as real == a * (u * u) + b * u * 1048576.0;
    assert DivisorScaled(t, c) as real == (36028797018963968.0 + SlopeScaled(t, c) as real) * d;
    assert (1.0 + var1 / 32768.0) * d == (36028797018963968.0 + SlopeScaled(t, c) as real) / 36028797018963968.0 * d;
    Quotient3(36028797018963968.0 + SlopeScaled(t, c) as real, d, 36028797018963968.0);
  }

  lemma ScaledSlope(u: real, v: real, a: real, b: real)
    requires v == u / 2.0 && v * v == u * u / 4.0
    ensures (a * (v * v) / 524288.0 + b * v) / 524288.0 / 32768.0 == (a * (u * u) + b * u * 1048576.0) / 36028797018963968.0
  {
    assert a * (v * v) == a * (u * u) / 4.0;
    assert b * v == b * u / 2.0;
  }

  lemma Quotient3(x: real, d: real, n: real)
    requires n != 0.0
    ensures x / n * d == x * d / n
  {}

  // ---- the dividend ----

  /** 2^31 times the real dividend. */
  function DeltaScaled(adc: Adc, t: TFineValue, c: PressCalib): int {
    TWO_31 * (0x10_0000 - adc - 16 * c.p4) - c.p6 * (Twice(t) * Twice(t)) - c.p5 * Twice(t) * 0x2_0000
  }

  /** Rounding of the dividend, in the same units; only p5 and p6 matter. */
  function DeltaSlack(c: PressCalib): int {
    60_800_000 * Abs(c.p6) + 0x2_0000 * Abs(c.p5) + TWO_31
  }

  function Slack(c: PressCalib): real { DeltaSlack(c) as real / 2147483648.0 }

  lemma DeltaError(adc: Adc, t: TFineValue, c: PressCalib)
    ensures -DeltaSlack(c) <= DeltaScaled(adc, t, c) - TWO_31 * Delta(adc, t, c) <= DeltaSlack(c)
  {
    var u, v, q := Twice(t), Half(t), Square(t);
    var lost := u * u - 0x2_0000 * (q / 2048);
    SquareLost2(t, lost);
    MulBound(c.p6, lost, Abs(c.p6), 60_800_000);
    MulBound(c.p5, t % 2, Abs(c.p5), 1);
    Scale(c.p6, u * u, 0x2_0000, q / 2048, lost);
    Scale(c.p5, u, 2, v, t % 2);
    Commute(q / 2048, c.p6);
    Commute(v, c.p5);
    DeltaTotal(0x10_0000 - adc, c.p6 * (u * u), c.p5 * u, c.p6 * (q / 2048), c.p5 * v, c.p6 * lost, c.p5 * (t % 2), c.p4, c, Delta(adc, t, c));
  }

  lemma Commute(a: int, b: int)
    ensures a * b == b * a
  {}

  lemma SquareLost2(t: TFineValue, lost: int)
    requires lost == Twice(t) * Twice(t) - 0x2_0000 * (Square(t) / 2048)
    ensures -60_800_000 <= lost <= 60_800_000 && Twice(t) == 2 * Half(t) + t % 2
  {
    hide Square;
    SquareError(t);
    var q := Square(t);
    assert q == 2048 * (q / 2048) + q % 2048;
  }

  lemma DeltaTotal(n: int, a: int, b: int, x: int, y: int, dx: int, dy: int, p4: int, c: PressCalib, delta: int)
    requires a == 0x2_0000 * x + dx && b == 2 * y + dy
    requires delta == n - ((x + y * 2) / 4 + p4 * 0x1_0000) / 4096
    requires -(Abs(c.p6) * 60_800_000) <= dx <= Abs(c.p6) * 60_800_000 && -Abs(c.p5) <= dy <= Abs(c.p5)
    ensures -DeltaSlack(c) <= TWO_31 * (n - 16 * p4) - a - b * 0x2_0000 - TWO_31 * delta <= DeltaSlack(c)
  {
    var w := x + y * 2;
    var g := w / 4 + p4 * 0x1_0000;
    assert w == 4 * (w / 4) + w % 4 && g == 4096 * (g / 4096) + g % 4096;
  }

  lemma DeltaIsScaled(adc: Adc, t: TFineValue, c: PressCalib)
    ensures RealDelta(adc, t, c) == DeltaScaled(adc, t, c) as real / 2147483648.0
  {
    var u, v := Twice(t) as real, RealHalf(t);
    assert v == u / 2.0 && v * v == u * u / 4.0;
    var a, b := c.p6 as real, c.p5 as real;
    assert a * (v * v) == a * (u * u) / 4.0;
    assert b * v == b * u / 2.0;
    assert DeltaScaled(adc, t, c) as real == 2147483648.0 * (1048576.0 - adc as real - 16.0 * c.p4 as real) - a * (u * u) - b * u * 131072.0;
  }

  // ---- the division ----

  lemma RealMulBound(a: real, b: real, m: real, n: real)
    requires -m <= a <= m && -n <= b <= n
    ensures -(m * n) <= a * b <= m * n
  {
    var x, y := if a < 0.0 then -a else a, if b < 0.0 then -b else b;
    assert x * y <= m * y;
    assert m * y <= m * n;
    assert a * b == x * y || a * b == -(x * y);
  }

  /** Both forms of the integer division are at most 2 below the real quotient. */
  lemma DivideRounds(delta: int, divisor: int)
    requires delta > 0 && divisor > 0
    ensures 0 <= delta * 6250 - divisor * Divide(delta, divisor) <= 2 * divisor
  {
    var n := delta * 3125;
    Divided(n * 2, divisor);
    Divided(n, divisor);
    assert divisor * (n / divisor * 2) == 2 * (divisor * (n / divisor));
  }

  /** Errors of dividend and divisor carry over to the quotient. */
  /** The rounding of dividend and divisor is small enough for an error of `e` in the quotient. */
  predicate Allows(c: PressCalib, v: real, e: real) {
    e >= 2.0 && 6250.0 * Slack(c) + 917518.0 <= (e - 2.0) * v
  }

  lemma QuotientError(p: real, q: real, delta: real, d: real, divisor: real, v: real, slack: real, e: real)
    requires v > 0.0 && q * v == 6250.0 * d
    requires 0.0 <= p <= 131072.0 && 0.0 <= 6250.0 * delta - p * divisor <= 2.0 * divisor && divisor > 0.0
    requires Near(delta, d, slack) && Near(divisor, v, 7.0)
    requires e >= 2.0 && 6250.0 * slack + 917518.0 <= (e - 2.0) * v
    ensures Near(p, q, e)
  {
    DivisorPart(p, divisor, v);
    Times2(e, 2.0, v);
    var pv, pd, qv, ev := p * v, p * divisor, q * v, e * v;
    QuotientTotal(pv, pd, qv, ev, delta, d, divisor, v, slack);
    Cancel(p, q, e, v, pv, qv, ev);
  }

  lemma DivisorPart(p: real, divisor: real, v: real)
    requires 0.0 <= p <= 131072.0 && Near(divisor, v, 7.0)
    ensures -917504.0 <= p * divisor - p * v <= 917504.0
  {
    RealMulBound(p, divisor - v, 131072.0, 7.0);
    Times(p, divisor, v);
  }

  lemma QuotientTotal(pv: real, pd: real, qv: real, ev: real, delta: real, d: real, divisor: real, v: real, slack: real)
    requires qv == 6250.0 * d && 0.0 <= 6250.0 * delta - pd <= 2.0 * divisor && -917504.0 <= pd - pv <= 917504.0
    requires Near(delta, d, slack) && Near(divisor, v, 7.0) && v > 0.0 && 6250.0 * slack + 917518.0 <= ev - 2.0 * v
    ensures -ev <= pv - qv <= ev
  {}

  lemma Times(p: real, x: real, y: real)
    ensures p * (x - y) == p * x - p * y
  {}

  lemma Times2(x: real, y: real, v: real)
    ensures (x - y) * v == x * v - y * v
  {}

  lemma Further(x: real, y: real, v: real)
    requires x > y && v > 0.0
    ensures x * v > y * v
  {
    assert (x - y) * v > 0.0;
  }

  lemma Plus(x: real, y: real, v: real)
    ensures (x + y) * v == x * v + y * v
  {}

  lemma Cancel(p: real, q: real, e: real, v: real, pv: real, qv: real, ev: real)
    requires v > 0.0 && pv == p * v && qv == q * v && ev == e * v && -ev <= pv - qv <= ev
    ensures Near(p, q, e)
  {
    if p > q + e {
      Further(p, q + e, v);
      Plus(q, e, v);
    }
    if q > p + e {
      Further(q, p + e, v);
      Plus(p, e, v);
    }
  }

  // ---- the correction ----

  lemma CorrectError(p: int, c: PressCalib)
    requires 0 <= p <= 0x2_0000
    ensures Near(Correct(p, c) as real, RealCorrect(p as real, c), 4.0)
  {
    var a, b := p / 8, p / 4;
    var g := a * a / 8192;
    var lost := p * p - 0x8_0000 * g;
    PowerLost(p, lost);
    MulBound(c.p9, lost, 32768, 2_359_281);
    MulBound(c.p8, p % 4, 32768, 3);
    Scale(c.p9, p * p, 0x8_0000, g, lost);
    Scale(c.p8, p, 4, b, p % 4);
    Commute(b, c.p8);
    CorrectTotal(p, c.p9 * (p * p), c.p8 * p, c.p9 * g, c.p8 * b, c.p9 * lost, c.p8 * (p % 4), c.p7, Correct(p, c));
    CorrectIsScaled(p, c);
    NearBy(p, CorrectScaled(p, c), Correct(p, c));
  }

  /** 2^35 times what the real-valued correction adds. */
  function CorrectScaled(p: int, c: PressCalib): int {
    c.p9 * (p * p) + c.p8 * p * 0x1_0000 + c.p7 * TWO_31
  }

  lemma CorrectIsScaled(p: int, c: PressCalib)
    ensures RealCorrect(p as real, c) == p as real + CorrectScaled(p, c) as real / 34359738368.0
  {
    var x := p as real;
    assert (c.p9 * (p * p)) as real == c.p9 as real * (x * x);
    assert (c.p8 * p) as real == c.p8 as real * x;
  }

  lemma NearBy(p: int, n: int, corrected: int)
    requires -4 * 0x8_0000_0000 <= n - 0x8_0000_0000 * (corrected - p) <= 4 * 0x8_0000_0000
    ensures Near(corrected as real, p as real + n as real / 34359738368.0, 4.0)
  {}

  lemma PowerLost(p: int, lost: int)
    requires 0 <= p <= 0x2_0000 && lost == p * p - 0x8_0000 * (p / 8 * (p / 8) / 8192)
    ensures 0 <= lost <= 2_359_281
  {
    var a, r := p / 8, p % 8;
    var sq := a * a;
    assert p == 8 * a + r;
    assert p * p == 64 * sq + 16 * (a * r) + r * r;
    assert sq == 8192 * (sq / 8192) + sq % 8192;
    MulUpper(a, r, 16384, 7);
    MulUpper(r, r, 7, 7);
  }

  lemma CorrectTotal(p: int, a: int, b: int, x: int, y: int, dx: int, dy: int, p7: int, corrected: int)
    requires a == 0x8_0000 * x + dx && b == 4 * y + dy && corrected == p + (x / 4096 + y / 8192 + p7) / 16
    requires -(32768 * 2_359_281) <= dx <= 32768 * 2_359_281 && -98304 <= dy <= 98304
    ensures -4 * 0x8_0000_0000 <= a + b * 0x1_0000 + p7 * TWO_31 - 0x8_0000_0000 * (corrected - p) <= 4 * 0x8_0000_0000
  {
    var sum := x / 4096 + y / 8192 + p7;
    assert x == 4096 * (x / 4096) + x % 4096 && y == 8192 * (y / 8192) + y % 8192 && sum == 16 * (sum / 16) + sum % 16;
  }

  lemma CorrectSpread(p: real, q: real, c: PressCalib, e: real)
    requires 0.0 <= p <= 131072.0 && Near(p, q, e)
    ensures Near(RealCorrect(p, c), RealCorrect(q, c), Spread(e))
  {
    hide Near, Adjusted, RealCorrect;
    RealWord(c.p9);
    RealWord(c.p8);
    SpreadProducts(p, q, c.p9 as real, c.p8 as real, e);
    var ap, aq, bp, bq, ee := c.p9 as real * (p * p), c.p9 as real * (q * q), c.p8 as real * p, c.p8 as real * q, e * e;
    SpreadTotal(p, q, ap, aq, bp, bq, c.p7 as real, e, ee);
    CorrectIs(p, c, ap, bp);
    CorrectIs(q, c, aq, bq);
    assert Spread(e) == 1.3125 * e + ee / 1048576.0;
  }

  lemma CorrectIs(p: real, c: PressCalib, x: real, y: real)
    requires x == c.p9 as real * (p * p) && y == c.p8 as real * p
    ensures RealCorrect(p, c) == Adjusted(p, x, y, c.p7 as real)
  {}

  /** What an error of `e` in the quotient becomes. */
  function Spread(e: real): real { 1.3125 * e + e * e / 1048576.0 }

  lemma SpreadProducts(p: real, q: real, a: real, b: real, e: real)
    requires 0.0 <= p <= 131072.0 && Near(p, q, e) && -32768.0 <= a <= 32768.0 && -32768.0 <= b <= 32768.0
    ensures var w := 32768.0 * (262144.0 * e + e * e); -w <= a * (p * p) - a * (q * q) <= w
    ensures -(32768.0 * e) <= b * p - b * q <= 32768.0 * e
  {
    var d := p - q;
    var m, n := d * (2.0 * p - d), e * (262144.0 + e);
    SquareDifference(p, q, d);
    RealMulBound(d, 2.0 * p - d, e, 262144.0 + e);
    RealMulBound(a, m, 32768.0, n);
    RealMulBound(b, d, 32768.0, e);
    Times(a, p * p, q * q);
    Times(b, p, q);
    Sum(e);
  }

  lemma RealWord(x: s16)
    ensures -32768.0 <= x as real <= 32768.0
  {}

  lemma Sum(e: real)
    ensures e * (262144.0 + e) == 262144.0 * e + e * e
  {}

  lemma SquareDifference(p: real, q: real, d: real)
    requires d == p - q
    ensures p * p - q * q == d * (2.0 * p - d)
  {
    assert q == p - d;
    assert q * q == p * p - 2.0 * (p * d) + d * d;
    assert d * (2.0 * p - d) == 2.0 * (p * d) - d * d;
  }

  lemma SpreadTotal(p: real, q: real, ap: real, aq: real, bp: real, bq: real, p7: real, e: real, ee: real)
    requires Near(p, q, e)
    requires var w := 32768.0 * (262144.0 * e + ee); -w <= ap - aq <= w
    requires -(32768.0 * e) <= bp - bq <= 32768.0 * e
    ensures Near(Adjusted(p, ap, bp, p7), Adjusted(q, aq, bq, p7), 1.3125 * e + ee / 1048576.0)
  {}

  // ---- the result ----

  /** For every reading and calibration with a quotient of at most 2^17: if the dividend's rounding over the
      real divisor allows an error of `e` in the quotient, the corrected pressure is within
      4 + 1.3125 e + e^2 / 2^20 Pa of the real-valued formula. */
  lemma PressureAccurate(adc: Adc, t: TFineValue, c: PressCalib, e: real)
    requires Divisor(t, c) > 0 && Delta(adc, t, c) > 0 && Quotient(adc, t, c) <= 0x2_0000
    requires RealDivisor(t, c) > 0.0 && Allows(c, RealDivisor(t, c), e)
    ensures Near(Correct(Quotient(adc, t, c), c) as real, RealPressure(adc, t, c), 4.0 + Spread(e))
    ensures var q := Correct(Quotient(adc, t, c), c); Pressure(adc, t, c) == if q <= 0 then 0 else q
  {
    hide RealDivisor, RealDelta, RealCorrect, Divisor, Delta, Divide, Correct, Slack, Spread, Allows;
    var p := Quotient(adc, t, c);
    QuotientAccurate(adc, t, c, e);
    DeltaExact(adc, t, c);
    DivideExact(Delta(adc, t, c), Divisor(t, c));
    CorrectError(p, c);
    CorrectSpread(p as real, RealQuotient(adc, t, c), c, e);
  }

  lemma QuotientAccurate(adc: Adc, t: TFineValue, c: PressCalib, e: real)
    requires Divisor(t, c) > 0 && Delta(adc, t, c) > 0 && Quotient(adc, t, c) <= 0x2_0000
    requires RealDivisor(t, c) > 0.0 && Allows(c, RealDivisor(t, c), e)
    ensures Near(Quotient(adc, t, c) as real, RealQuotient(adc, t, c), e)
  {
    hide RealDivisor, RealDelta, Divisor, Delta, Near, Allows, RealQuotient, Quotient;
    DeltaIsNear(adc, t, c);
    DivisorIsNear(t, c);
    QuotientRounds(adc, t, c);
    RealQuotientTimes(adc, t, c);
    QuotientErrorFor(c, Quotient(adc, t, c) as real, RealQuotient(adc, t, c), Delta(adc, t, c) as real, RealDelta(adc, t, c),
                     Divisor(t, c) as real, RealDivisor(t, c), e);
  }

  lemma QuotientErrorFor(c: PressCalib, p: real, q: real, delta: real, d: real, divisor: real, v: real, e: real)
    requires v > 0.0 && q * v == 6250.0 * d
    requires 0.0 <= p <= 131072.0 && 0.0 <= 6250.0 * delta - p * divisor <= 2.0 * divisor && divisor > 0.0
    requires Near(delta, d, Slack(c)) && Near(divisor, v, 7.0) && Allows(c, v, e)
    ensures Near(p, q, e)
  {
    hide Slack, Near;
    QuotientError(p, q, delta, d, divisor, v, Slack(c), e);
  }

  lemma RealQuotientTimes(adc: Adc, t: TFineValue, c: PressCalib)
    requires RealDivisor(t, c) > 0.0
    ensures RealQuotient(adc, t, c) * RealDivisor(t, c) == 6250.0 * RealDelta(adc, t, c)
  {
    hide RealDivisor, RealDelta;
    Requotient(RealDelta(adc, t, c), RealDivisor(t, c));
  }

  lemma QuotientRounds(adc: Adc, t: TFineValue, c: PressCalib)
    requires Divisor(t, c) > 0 && Delta(adc, t, c) > 0
    ensures 0.0 <= Quotient(adc, t, c) as real
    ensures 0.0 <= 6250.0 * Delta(adc, t, c) as real - Quotient(adc, t, c) as real * Divisor(t, c) as real <= 2.0 * Divisor(t, c) as real
  {
    hide Divisor, Delta, Divide, DeltaC, DivideC;
    DeltaExact(adc, t, c);
    DivideExact(Delta(adc, t, c), Divisor(t, c));
    DivideRounds(Delta(adc, t, c), Divisor(t, c));
    assert Quotient(adc, t, c) == Divide(Delta(adc, t, c), Divisor(t, c));
    Rounding(Delta(adc, t, c), Divisor(t, c), Quotient(adc, t, c));
  }

  lemma DeltaIsNear(adc: Adc, t: TFineValue, c: PressCalib)
    ensures Near(Delta(adc, t, c) as real, RealDelta(adc, t, c), Slack(c))
  {
    hide RealDelta, Delta, DeltaSlack, DeltaScaled, Near;
    DeltaError(adc, t, c);
    DeltaIsScaled(adc, t, c);
    NearDelta(DeltaScaled(adc, t, c), Delta(adc, t, c), DeltaSlack(c));
  }

  lemma DivisorIsNear(t: TFineValue, c: PressCalib)
    ensures Near(Divisor(t, c) as real, RealDivisor(t, c), 7.0)
  {
    hide RealDivisor, Divisor, DivisorScaled, Near;
    DivisorError(t, c);
    DivisorIsScaled(t, c);
    NearDivisor(DivisorScaled(t, c), Divisor(t, c));
  }

  lemma NearDelta(n: int, x: int, m: int)
    requires -m <= n - TWO_31 * x <= m
    ensures Near(x as real, n as real / 2147483648.0, m as real / 2147483648.0)
  {}

  lemma NearDivisor(n: int, x: int)
    requires -7 * TWO_55 < n - TWO_55 * x < 7 * TWO_55
    ensures Near(x as real, n as real / 36028797018963968.0, 7.0)
  {}

  lemma Rounding(delta: int, divisor: int, p: int)
    requires 0 <= delta * 6250 - divisor * p <= 2 * divisor && 0 <= p
    ensures 0.0 <= p as real
    ensures 0.0 <= 6250.0 * delta as real - p as real * divisor as real <= 2.0 * divisor as real
  {
    assert (divisor * p) as real == p as real * divisor as real;
  }

  lemma Requotient(d: real, v: real)
    requires v > 0.0
    ensures d * 6250.0 / v * v == 6250.0 * d
  {}

  lemma SlackBound(c: PressCalib, p6: int, p5: int)
    requires Abs(c.p6) <= p6 && Abs(c.p5) <= p5
    ensures Slack(c) <= (60_800_000 * p6 + 0x2_0000 * p5 + TWO_31) as real / 2147483648.0
  {}

  /** For every calibration with a real divisor of at least 2^15 the pressure is within 280 Pa. */
  lemma PressureWithin280(adc: Adc, t: TFineValue, c: PressCalib)
    requires Divisor(t, c) > 0 && Delta(adc, t, c) > 0 && Quotient(adc, t, c) <= 0x2_0000 && RealDivisor(t, c) >= 32768.0
    ensures Near(Correct(Quotient(adc, t, c), c) as real, RealPressure(adc, t, c), 280.0)
  {
    hide RealDivisor, RealPressure, Divisor, Delta, Correct, Quotient, Slack;
    SlackBound(c, 32768, 32768);
    PressureAccurate(adc, t, c, 208.0);
  }

  /** With |p6| at most 64, |p5| at most 2^14 and a real divisor of at least 2^14 it is within 100 Pa, the
      absolute accuracy the datasheet states for the sensor itself. */
  lemma PressureWithin100(adc: Adc, t: TFineValue, c: PressCalib)
    requires Divisor(t, c) > 0 && Delta(adc, t, c) > 0 && Quotient(adc, t, c) <= 0x2_0000 && RealDivisor(t, c) >= 16384.0
    requires -64 <= c.p6 <= 64 && -16384 <= c.p5 <= 16384
    ensures Near(Correct(Quotient(adc, t, c), c) as real, RealPressure(adc, t, c), 100.0)
  {
    hide RealDivisor, RealPressure, Divisor, Delta, Correct, Quotient, Slack;
    SlackBound(c, 64, 16384);
    PressureAccurate(adc, t, c, 60.0);
  }

  /** The example calibration and readings of the datasheet, as register bytes. */
  const SAMPLE_BLOCK: Block :=
    [112, 107, 67, 103, 24, 252, 125, 142, 67, 214, 208, 11, 39, 11, 140, 0, 249, 255, 140, 60, 248, 198, 112, 23]
  const SAMPLE_BURST: Burst := [101, 90, 192, 126, 237, 0]

  /** They give 25.08 degrees and 100656 Pa, where the datasheet's exact arithmetic has 100653. */
  lemma DatasheetSample()
    ensures var adcP, adcT := AdcOf(SAMPLE_BURST[0], SAMPLE_BURST[1], SAMPLE_BURST[2]), AdcOf(SAMPLE_BURST[3], SAMPLE_BURST[4], SAMPLE_BURST[5]);
      var t, c := TempCalibOf(SAMPLE_BLOCK), PressCalibOf(SAMPLE_BLOCK);
      && adcP == 415148 && adcT == 519888
      && t == TempCalib(27504, 26435, -1000)
      && c == PressCalib(36477, -10685, 3024, 2855, 140, -7, 15500, -14600, 6000)
      && TFineC(adcT, t) == 128422 && TempC(adcT, t) == 25080 && PressureC(adcP, 128422, c) == 100656
  {
    hide TFineC, TempC, PressureC;
    var t, c := TempCalib(27504, 26435, -1000), PressCalib(36477, -10685, 3024, 2855, 140, -7, 15500, -14600, 6000);
    SampleTemperature(t);
    SamplePressure(c);
  }

  lemma SampleTemperature(c: TempCalib)
    requires c == TempCalib(27504, 26435, -1000)
    ensures TFineC(519888, c) == 128422 && TempC(519888, c) == 25080
  {
    hide TFineC, TempC, S64, S32;
    TemperatureExact(519888, c);
    assert Var1(519888, c) == 128793;
    assert Var2(519888, c) == -371;
  }

  lemma SamplePressure(c: PressCalib)
    requires c == PressCalib(36477, -10685, 3024, 2855, 140, -7, 15500, -14600, 6000)
    ensures PressureC(415148, 128422, c) == 100656
  {
    hide PressureC;
    assert Half(128422) == 211 && Square(128422) == 2704;
    assert Divisor(128422, c) == 36471;
    assert Delta(415148, 128422, c) == 587745;
    assert Divide(587745, 36471) == 100721;
    assert Correct(100721, c) == 100656;
    PressureExact(415148, 128422, c);
  }
}
