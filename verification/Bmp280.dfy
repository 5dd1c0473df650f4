/** BMP280 compensation in fixed-width integer arithmetic (datasheet BST-BMP280-DS001,
section 3.11.3), against the same formulas over unbounded integers. */
module Bmp280 {
  import opened Division

  type u8 = n: int | 0 <= n < 0x100
  type u16 = n: int | 0 <= n < 0x1_0000
  type s16 = n: int | -0x8000 <= n < 0x8000

  /** A raw 20-bit reading. */
  type Adc = n: int | 0 <= n < 0x10_0000

  predicate InS32(x: int) { -0x8000_0000 <= x < 0x8000_0000 }
  predicate InS64(x: int) { -0x8000_0000_0000_0000 <= x < 0x8000_0000_0000_0000 }
  predicate InU64(x: int) { 0 <= x < 0x1_0000_0000_0000_0000 }

  /** Two's-complement conversions. */
  function S32(x: int): int {
    var m := x % 0x1_0000_0000;
    if m < 0x8000_0000 then m else m - 0x1_0000_0000
  }

  function S64(x: int): int {
    var m := x % 0x1_0000_0000_0000_0000;
    if m < 0x8000_0000_0000_0000 then m else m - 0x1_0000_0000_0000_0000
  }

  function U64(x: int): int { x % 0x1_0000_0000_0000_0000 }

  function U32(x: int): int { x % 0x1_0000_0000 }

  lemma Exact64(x: int)
    ensures InS64(x) ==> S64(x) == x
    ensures InU64(x) ==> U64(x) == x
  {}

  lemma Exact32(x: int)
    ensures InS32(x) ==> S32(x) == x
    ensures 0 <= x < 0x1_0000_0000 ==> U32(x) == x
  {}

  // ---- calibration words ----

  function ReadU16(lo: u8, hi: u8): u16 {
    lo + 256 * hi
  }

  /** `read_le_s16`: the sign bit is spread over the upper half of a 32-bit word. */
  function ReadS16(lo: u8, hi: u8): (r: int)
    ensures -0x8000 <= r < 0x8000
  {
    var bits := ReadU16(lo, hi);
    var word := if bits >= 0x8000 then bits + 0xFFFF_0000 else bits;
    Exact32(word);
    S32(word)
  }

  /** The signed word is the one number in -32768..32767 with those two bytes. */
  lemma ReadS16IsSigned(lo: u8, hi: u8)
    ensures ReadS16(lo, hi) % 0x1_0000 == ReadU16(lo, hi)
  {
    var bits: int := ReadU16(lo, hi);
    assert ReadS16(lo, hi) == if bits >= 0x8000 then bits - 0x1_0000 else bits;
  }

  datatype TempCalib = TempCalib(t1: u16, t2: s16, t3: s16)

  datatype PressCalib = PressCalib(p1: u16, p2: s16, p3: s16, p4: s16, p5: s16, p6: s16, p7: s16, p8: s16, p9: s16)

  type Block = b: seq<u8> | |b| == 24 witness seq(24, _ => 0)
  type Burst = b: seq<u8> | |b| == 6 witness seq(6, _ => 0)

  function TempCalibOf(b: Block): TempCalib {
    TempCalib(ReadU16(b[0], b[1]), ReadS16(b[2], b[3]), ReadS16(b[4], b[5]))
  }

  function PressCalibOf(b: Block): PressCalib {
    PressCalib(ReadU16(b[6], b[7]), ReadS16(b[8], b[9]), ReadS16(b[10], b[11]), ReadS16(b[12], b[13]),
               ReadS16(b[14], b[15]), ReadS16(b[16], b[17]), ReadS16(b[18], b[19]), ReadS16(b[20], b[21]),
               ReadS16(b[22], b[23]))
  }

  /** Pressure and temperature readings of the register burst. */
  function AdcOf(msb: u8, lsb: u8, xlsb: u8): Adc {
    msb * 4096 + lsb * 16 + xlsb / 16
  }

  // ---- temperature ----

  /** `t_fine` as the program computes it, every operation in its C type. */
  function TFineC(adc: Adc, c: TempCalib): int {
    var var1 := S64(S64(adc / 8 - S64(c.t1 * 2)) * c.t2) / 2048;
    var delta := S64(adc / 16 - c.t1);
    var var2 := S64(S64(delta * delta) / 4096 * c.t3) / 16384;
    S32(S64(var1 + var2))
  }

  function TempC(adc: Adc, c: TempCalib): int {
    var centi := S32(S64(S64(TFineC(adc, c) * 5) + 128) / 256);
    S32(centi * 10)
  }

  /** The same without word sizes. */
  function Var1(adc: Adc, c: TempCalib): int { (adc / 8 - c.t1 * 2) * c.t2 / 2048 }

  function Var2(adc: Adc, c: TempCalib): int {
    var delta := adc / 16 - c.t1;
    delta * delta / 4096 * c.t3 / 16384
  }

  function TFine(adc: Adc, c: TempCalib): int { Var1(adc, c) + Var2(adc, c) }

  function Temp(adc: Adc, c: TempCalib): int { (TFine(adc, c) * 5 + 128) / 256 * 10 }

  lemma MulBound(a: int, b: int, m: int, n: int)
    requires -m <= a <= m && -n <= b <= n
    ensures -(m * n) <= a * b <= m * n
  {
    var x, y := if a < 0 then -a else a, if b < 0 then -b else b;
    MulUpper(x, y, m, n);
    Signs(a, b, x, y);
  }

  lemma MulUpper(x: int, y: int, m: int, n: int)
    requires 0 <= x <= m && 0 <= y <= n
    ensures 0 <= x * y <= m * n
  {
    assert x * y <= m * y;
    assert m * y <= m * n;
  }

  lemma Signs(a: int, b: int, x: int, y: int)
    requires (x == a || x == -a) && (y == b || y == -b)
    ensures a * b == x * y || a * b == -(x * y)
  {}

  lemma Var1Bounds(adc: Adc, c: TempCalib)
    ensures var d := adc / 8 - c.t1 * 2; -131071 <= d <= 131071 && -0x1_0000_0000 <= d * c.t2 <= 0x1_0000_0000
    ensures -2097136 <= Var1(adc, c) <= 2097136
  {
    MulBound(adc / 8 - c.t1 * 2, c.t2, 131071, 32768);
  }

  lemma Var2Bounds(adc: Adc, c: TempCalib)
    ensures var d := adc / 16 - c.t1; -65535 <= d <= 65535 && 0 <= d * d <= 4294836225
    ensures var d := adc / 16 - c.t1; -0x8_0000_0000 <= d * d / 4096 * c.t3 <= 0x8_0000_0000
    ensures -2097088 <= Var2(adc, c) <= 2097088
  {
    var d := adc / 16 - c.t1;
    MulBound(d, d, 65535, 65535);
    assert d * d >= 0;
    MulBound(d * d / 4096, c.t3, 1048544, 32768);
  }

  lemma TFineExact(adc: Adc, c: TempCalib)
    ensures TFineC(adc, c) == TFine(adc, c) && -0x40_0000 < TFine(adc, c) < 0x40_0000
  {
    hide S64, S32;
    Var1Bounds(adc, c);
    Var2Bounds(adc, c);
    var d, e := adc / 8 - c.t1 * 2, adc / 16 - c.t1;
    Exact64(c.t1 * 2);
    Exact64(d);
    Exact64(d * c.t2);
    Exact64(e);
    Exact64(e * e);
    Exact64(e * e / 4096 * c.t3);
    Exact64(TFine(adc, c));
    Exact32(TFine(adc, c));
  }

  /** For every reading and calibration no operation overflows, |t_fine| < 2^22 and |temp_mC| < 2^20. */
  lemma TemperatureExact(adc: Adc, c: TempCalib)
    ensures TFineC(adc, c) == TFine(adc, c) && -0x40_0000 < TFine(adc, c) < 0x40_0000
    ensures TempC(adc, c) == Temp(adc, c) && -0x10_0000 < Temp(adc, c) < 0x10_0000
  {
    hide TFine, TFineC, S64, S32;
    TFineExact(adc, c);
    var t := TFine(adc, c);
    Exact64(t * 5);
    Exact64(t * 5 + 128);
    Exact32((t * 5 + 128) / 256);
    Exact32(Temp(adc, c));
  }

  // ---- accuracy of the temperature ----

  /** 2^34 times `t_fine` of the datasheet's real-valued formula (appendix 8.1):
      (adc/16384 - t1/1024) * t2 + (adc/131072 - t1/8192)^2 * t3. */
  function RealTFine(adc: Adc, c: TempCalib): int {
    var x := adc - 16 * c.t1;
    x * c.t2 * 0x10_0000 + x * x * c.t3
  }

  const TWO_34: int := 0x4_0000_0000

  lemma Var1Error(adc: Adc, c: TempCalib)
    ensures var x := adc - 16 * c.t1;
      -15 * TWO_34 <= Var1(adc, c) * TWO_34 - x * c.t2 * 0x10_0000 <= 15 * TWO_34
  {
    var x := adc - 16 * c.t1;
    var a, r := adc / 8 - c.t1 * 2, adc % 8;
    assert x == 8 * a + r;
    MulBound(r, c.t2, 7, 32768);
    assert x * c.t2 == 8 * (a * c.t2) + r * c.t2;
  }

  lemma Var2Error(adc: Adc, c: TempCalib)
    ensures var x := adc - 16 * c.t1;
      -63 * TWO_34 <= Var2(adc, c) * TWO_34 - x * x * c.t3 <= 63 * TWO_34
  {
    var x := adc - 16 * c.t1;
    var d, s := adc / 16 - c.t1, adc % 16;
    var e := d * d / 4096;
    assert x == 16 * d + s;
    MulBound(s, d, 15, 65535);
    MulBound(s, s, 15, 15);
    assert x * x == 256 * (d * d) + 32 * (s * d) + s * s;
    var lost := x * x - 256 * (4096 * e);
    assert d * d == 4096 * e + d * d % 4096;
    assert lost == 256 * (d * d % 4096) + 32 * (s * d) + s * s;
    MulBound(lost, c.t3, 256 * 4095 + 32 * 983025 + 225, 32768);
    assert x * x * c.t3 == 1048576 * (e * c.t3) + lost * c.t3 by { Distribute(x * x, 1048576 * e, lost, c.t3); }
  }

  lemma Distribute(total: int, a: int, b: int, t: int)
    requires total == a + b
    ensures total * t == a * t + b * t
  {}

  /** The reported temperature is within 21 thousandths of a degree of the real-valued formula, for every
      reading and every calibration block. */
  lemma TemperatureAccurate(adc: Adc, c: TempCalib)
    ensures -21 * 256 * TWO_34 < 256 * Temp(adc, c) * TWO_34 - 50 * RealTFine(adc, c) < 21 * 256 * TWO_34
  {
    Var1Error(adc, c);
    Var2Error(adc, c);
    var t := TFine(adc, c);
    assert -1280 <= 256 * Temp(adc, c) - 50 * t <= 1280;
  }

  // ---- pressure ----

  /** The range of `t_fine` established above. */
  type TFineValue = n: int | -0x40_0000 < n < 0x40_0000

  /** The two quantities the division needs, every operation in 64 bits. */
  function SlopeC(t: TFineValue, c: PressCalib): int {
    var v := S64(t / 2 - 64000);
    var q := S64(v / 4 * (v / 4));
    S64(S64(c.p3 * (q / 8192)) / 8 + S64(c.p2 * v) / 2) / 0x4_0000
  }

  function DivisorC(t: TFineValue, c: PressCalib): int {
    S64(S64(32768 + SlopeC(t, c)) * c.p1) / 32768
  }

  function DeltaC(adc: Adc, t: TFineValue, c: PressCalib): int {
    var v := S64(t / 2 - 64000);
    var q := S64(v / 4 * (v / 4));
    var w := S64(S64(q / 2048 * c.p6) + S64(S64(v * c.p5) * 2));
    var u := S64(w / 4 + S64(c.p4 * 0x1_0000));
    S64(S64(0x10_0000 - adc) - u / 4096)
  }

  /** The division: a left shift first where that cannot lose bits. */
  function DivideC(delta: int, divisor: int): int
    requires divisor > 0
  {
    var p := U64(U64(delta) * 3125);
    if p < 0x8000_0000 then U64(p * 2) / divisor else U64(p / divisor * 2)
  }

  function CorrectC(p: int, c: PressCalib): int {
    var corr1 := S64(c.p9 * S64(U64(p / 8 * (p / 8)) / 8192)) / 4096;
    var corr2 := S64(S64(p / 4) * c.p8) / 8192;
    S64(S64(p) + S64(S64(corr1 + corr2) + c.p7) / 16)
  }

  function PressureC(adc: Adc, t: TFineValue, c: PressCalib): int {
    if DivisorC(t, c) <= 0 || DeltaC(adc, t, c) <= 0 then 0
    else
      var corrected := CorrectC(DivideC(DeltaC(adc, t, c), DivisorC(t, c)), c);
      if corrected <= 0 then 0 else U32(corrected)
  }

  /** The same without word sizes. */
  function Half(t: TFineValue): int { t / 2 - 64000 }

  function Square(t: TFineValue): int { Half(t) / 4 * (Half(t) / 4) }

  function Slope(t: TFineValue, c: PressCalib): int {
    (c.p3 * (Square(t) / 8192) / 8 + c.p2 * Half(t) / 2) / 0x4_0000
  }

  function Divisor(t: TFineValue, c: PressCalib): int {
    (32768 + Slope(t, c)) * c.p1 / 32768
  }

  function Delta(adc: Adc, t: TFineValue, c: PressCalib): int {
    0x10_0000 - adc - ((Square(t) / 2048 * c.p6 + Half(t) * c.p5 * 2) / 4 + c.p4 * 0x1_0000) / 4096
  }

  function Divide(delta: int, divisor: int): int
    requires divisor > 0
  {
    if delta * 3125 < 0x8000_0000 then delta * 3125 * 2 / divisor else delta * 3125 / divisor * 2
  }

  function Correct(p: int, c: PressCalib): int {
    p + (c.p9 * (p / 8 * (p / 8) / 8192) / 4096 + p / 4 * c.p8 / 8192 + c.p7) / 16
  }

  function Pressure(adc: Adc, t: TFineValue, c: PressCalib): int {
    if Divisor(t, c) <= 0 || Delta(adc, t, c) <= 0 then 0
    else
      var corrected := Correct(Divide(Delta(adc, t, c), Divisor(t, c)), c);
      if corrected <= 0 then 0 else corrected
  }

  lemma HalfBounds(t: TFineValue)
    ensures -2161152 <= Half(t) <= 2033151
    ensures 0 <= Square(t) <= 291911122944
  {
    MulBound(Half(t) / 4, Half(t) / 4, 540288, 540288);
    assert Half(t) / 4 * (Half(t) / 4) >= 0;
  }

  lemma SlopeExact(t: TFineValue, c: PressCalib)
    ensures SlopeC(t, c) == Slope(t, c) && -0x10_0000 <= Slope(t, c) <= 0x10_0000
  {
    hide S64;
    HalfBounds(t);
    var v, q := Half(t), Square(t);
    MulBound(c.p3, q / 8192, 32768, 35633682);
    MulBound(c.p2, v, 32768, 2161152);
    Exact64(v);
    Exact64(q);
    Exact64(c.p3 * (q / 8192));
    Exact64(c.p2 * v);
    Exact64(c.p3 * (q / 8192) / 8 + c.p2 * v / 2);
  }

  /** No operation on the way to the divisor overflows. */
  lemma DivisorExact(t: TFineValue, c: PressCalib)
    ensures DivisorC(t, c) == Divisor(t, c) && -0x100_0000 < Divisor(t, c) < 0x100_0000
  {
    hide S64, Slope, SlopeC;
    SlopeExact(t, c);
    var w := Slope(t, c);
    MulBound(32768 + w, c.p1, 0x20_0000, 65535);
    Exact64(32768 + w);
    Exact64((32768 + w) * c.p1);
  }

  /** No operation on the way to the dividend overflows. */
  lemma DeltaExact(adc: Adc, t: TFineValue, c: PressCalib)
    ensures DeltaC(adc, t, c) == Delta(adc, t, c) && -0x4000_0000 < Delta(adc, t, c) < 0x4000_0000
  {
    hide S64;
    HalfBounds(t);
    var v, q := Half(t), Square(t);
    MulBound(q / 2048, c.p6, 142534728, 32768);
    MulBound(v, c.p5, 2161152, 32768);
    var w := q / 2048 * c.p6 + v * c.p5 * 2;
    assert -0x500_0000_0000 < w < 0x500_0000_0000;
    Exact64(v);
    Exact64(q);
    Exact64(q / 2048 * c.p6);
    Exact64(v * c.p5);
    Exact64(v * c.p5 * 2);
    Exact64(w);
    Exact64(c.p4 * 0x1_0000);
    Exact64(w / 4 + c.p4 * 0x1_0000);
    Exact64(0x10_0000 - adc);
    Exact64(Delta(adc, t, c));
  }

  lemma QuotientBound(n: int, d: int)
    requires n >= 0 && d > 0
    ensures 0 <= n / d <= n
  {
    var q := n / d;
    assert d * q <= n;
    if q > 0 { MulUpper(1, q, d, q); }
  }

  /** The division is exact in 64 bits for every positive dividend the formula yields. */
  lemma DivideExact(delta: int, divisor: int)
    requires 0 < delta < 0x4000_0000 && divisor > 0
    ensures DivideC(delta, divisor) == Divide(delta, divisor) && 0 <= Divide(delta, divisor) < 0x800_0000_0000
  {
    Exact64(delta);
    Exact64(delta * 3125);
    QuotientBound(delta * 3125 * 2, divisor);
    QuotientBound(delta * 3125, divisor);
    Exact64(delta * 3125 * 2);
    Exact64(delta * 3125 / divisor * 2);
  }

  /** The two forms of the division differ by at most one. */
  lemma DivisionFormsAgree(p: nat, divisor: nat)
    requires divisor > 0
    ensures 0 <= p * 2 / divisor - p / divisor * 2 <= 1
  {
    var q, r := p / divisor, p % divisor;
    assert p == divisor * q + r;
    assert p * 2 == divisor * (2 * q) + 2 * r;
    if 2 * r < divisor {
      QuotientUnique(p * 2, divisor, 2 * q);
    } else {
      assert divisor * (2 * q + 1) == divisor * (2 * q) + divisor;
      QuotientUnique(p * 2, divisor, 2 * q + 1);
    }
  }

  /** Every step of the correction fits its C type. */
  predicate CorrectionFits(p: int, c: PressCalib) {
    && InU64(p / 8 * (p / 8))
    && InS64(c.p9 * (p / 8 * (p / 8) / 8192))
    && InS64(p / 4 * c.p8)
    && InS64(Correct(p, c))
  }

  /** The largest quotient whose correction fits whatever the calibration. */
  const LARGEST_SAFE: int := 12148001999

  lemma SquareMonotone(a: int, b: int)
    requires 0 <= a <= b
    ensures a * a <= b * b
  {
    assert a * a <= a * b <= b * b;
  }

  lemma SafeProducts(p: int, c: PressCalib)
    requires 0 <= p <= LARGEST_SAFE
    ensures var y := p / 8 * (p / 8) / 8192;
      InU64(p / 8 * (p / 8)) && 0 <= y <= 0x1_0000_0000_0000 && InS64(c.p9 * y)
    ensures -0x8000_0000_0000 < p / 4 * c.p8 < 0x8000_0000_0000
  {
    var x := p / 8;
    SquareMonotone(x, 1518500249);
    SignedProduct(c.p9, x * x / 8192);
    MulBound(p / 4, c.p8, 3037000499, 32768);
  }

  lemma SafeFits(p: int, c: PressCalib)
    requires 0 <= p <= LARGEST_SAFE
    ensures CorrectionFits(p, c)
  {
    SafeProducts(p, c);
    var square, low := p / 8 * (p / 8), p / 4 * c.p8;
    SafeSum(p, c.p9 * (square / 8192), low, c.p7);
  }

  lemma SafeSum(p: int, high: int, low: int, p7: s16)
    requires 0 <= p < 0x800_0000_0000 && InS64(high) && InS64(low)
    ensures InS64(high / 4096 + low / 8192) && InS64(high / 4096 + low / 8192 + p7)
    ensures InS64(p + (high / 4096 + low / 8192 + p7) / 16)
  {}

  /** A correction that fits is computed exactly, at every quotient the division can yield. */
  lemma CorrectExact(p: int, c: PressCalib)
    requires 0 <= p < 0x800_0000_0000 && CorrectionFits(p, c)
    ensures CorrectC(p, c) == Correct(p, c)
  {
    hide S64, U64, InS64;
    var square, low := p / 8 * (p / 8), p / 4 * c.p8;
    HeadExact(p, square);
    TailExact(p, c.p9 * (square / 8192), low, c.p7);
  }

  lemma HeadExact(p: int, square: int)
    requires 0 <= p < 0x800_0000_0000 && InU64(square)
    ensures S64(U64(square) / 8192) == square / 8192 && S64(p / 4) == p / 4
  {
    Exact64(square);
    Exact64(square / 8192);
    Exact64(p / 4);
  }

  lemma TailExact(p: int, high: int, low: int, p7: s16)
    requires 0 <= p < 0x800_0000_0000 && InS64(high) && InS64(low)
    ensures S64(S64(p) + S64(S64(S64(high) / 4096 + S64(low) / 8192) + p7) / 16) == p + (high / 4096 + low / 8192 + p7) / 16
  {
    hide S64;
    SafeSum(p, high, low, p7);
    Exact64(high);
    Exact64(low);
    Exact64(high / 4096 + low / 8192);
    Exact64(high / 4096 + low / 8192 + p7);
    Exact64(p);
    Exact64(p + (high / 4096 + low / 8192 + p7) / 16);
  }

  lemma SignedProduct(k: s16, y: int)
    requires 0 <= y <= 0x1_0000_0000_0000
    ensures InS64(k * y)
  {
    if k >= 0 { MulBound(k, y, 32767, 0x1_0000_0000_0000); } else { MulBound(k, y, 32768, 0x1_0000_0000_0000); }
  }

  /** The correction fits 64 bits for every calibration exactly up to that quotient. */
  lemma CorrectionFitsIff(p: int)
    requires p >= 0
    ensures (forall c: PressCalib :: CorrectionFits(p, c)) <==> p <= LARGEST_SAFE
  {
    if p <= LARGEST_SAFE {
      forall c: PressCalib ensures CorrectionFits(p, c) { SafeFits(p, c); }
    } else {
      var c := PressCalib(0, 0, 0, 0, 0, 0, 0, 0, -0x8000);
      var x := p / 8;
      SquareMonotone(1518500250, x);
      assert x * x / 8192 >= 1518500250 * 1518500250 / 8192;
      assert !CorrectionFits(p, c);
    }
  }

  /** Some calibration block does go beyond it: the 64-bit product wraps. */
  lemma CorrectionCanOverflow()
    ensures var c := PressCalib(1, 0, 0, -32768, 32767, -32768, 0, 0, -32768);
      && Divisor(0, c) == 1 && Delta(0, 0, c) > 0
      && Divide(Delta(0, 0, c), Divisor(0, c)) > LARGEST_SAFE
      && !CorrectionFits(Divide(Delta(0, 0, c), Divisor(0, c)), c)
  {
    var c := PressCalib(1, 0, 0, -32768, 32767, -32768, 0, 0, -32768);
    assert Half(0) == -64000 && Square(0) == 256000000;
    assert Divisor(0, c) == 1;
    assert Delta(0, 0, c) == 2078857;
    var p := Divide(2078857, 1);
    assert p == 12992856250;
    assert p / 8 == 1624107031;
    assert p / 8 * (p / 8) == 1624107031 * 1624107031;
  }

  /** The quotient the correction starts from, 0 where the program returns early. */
  function Quotient(adc: Adc, t: TFineValue, c: PressCalib): int {
    if Divisor(t, c) <= 0 || Delta(adc, t, c) <= 0 then 0 else Divide(Delta(adc, t, c), Divisor(t, c))
  }

  /** Wherever the correction fits, which it does up to the largest safe quotient, the program's value is
      the exact one if and only if that fits 32 bits. At real pressures, with a quotient of at most 2^17,
      it is below 2^18. */
  lemma PressureExact(adc: Adc, t: TFineValue, c: PressCalib)
    ensures Quotient(adc, t, c) <= LARGEST_SAFE ==> CorrectionFits(Quotient(adc, t, c), c)
    ensures CorrectionFits(Quotient(adc, t, c), c) ==>
              (PressureC(adc, t, c) == Pressure(adc, t, c) <==> Pressure(adc, t, c) < 0x1_0000_0000)
    ensures Quotient(adc, t, c) <= 0x2_0000 ==> PressureC(adc, t, c) == Pressure(adc, t, c) < 0x4_0000
  {
    hide Divisor, Delta, DivisorC, DeltaC, Divide, DivideC, Correct, CorrectC, CorrectionFits;
    var p := Quotient(adc, t, c);
    DivisorExact(t, c);
    DeltaExact(adc, t, c);
    if Divisor(t, c) > 0 && Delta(adc, t, c) > 0 {
      DivideExact(Delta(adc, t, c), Divisor(t, c));
      if CorrectionFits(p, c) { CorrectExact(p, c); }
      if p <= 0x2_0000 { CorrectSmall(p, c); }
      Cast(Correct(p, c));
    }
    if p <= LARGEST_SAFE { SafeFits(p, c); }
  }

  lemma Cast(x: int)
    ensures x > 0 ==> (U32(x) == x <==> x < 0x1_0000_0000)
  {
    Exact32(x);
  }

  lemma CorrectSmall(p: int, c: PressCalib)
    requires 0 <= p <= 0x2_0000
    ensures Correct(p, c) < 0x4_0000
  {
    SquareMonotone(p / 8, 0x4000);
    MulBound(c.p9, p / 8 * (p / 8) / 8192, 32768, 0x8000);
    MulBound(p / 4, c.p8, 0x8000, 32768);
  }

  /** What `program` computes from the bytes it read, for every calibration block and burst: the exact
      temperature, and the exact pressure if and only if it fits, wherever its correction does. */
  lemma ReadingExact(b: Block, raw: Burst)
    ensures var adcP, adcT := AdcOf(raw[0], raw[1], raw[2]), AdcOf(raw[3], raw[4], raw[5]);
      var t, c := TFineC(adcT, TempCalibOf(b)), PressCalibOf(b);
      && TempC(adcT, TempCalibOf(b)) == Temp(adcT, TempCalibOf(b))
      && -0x40_0000 < t < 0x40_0000
      && (CorrectionFits(Quotient(adcP, t, c), c) ==>
            (PressureC(adcP, t, c) == Pressure(adcP, t, c) <==> Pressure(adcP, t, c) < 0x1_0000_0000))
      && (Quotient(adcP, t, c) <= 0x2_0000 ==> PressureC(adcP, t, c) == Pressure(adcP, t, c) < 0x4_0000)
  {
    hide TFineC, TFine, TempC, Temp, PressureC, Pressure, CorrectionFits, Quotient;
    var adcP, adcT := AdcOf(raw[0], raw[1], raw[2]), AdcOf(raw[3], raw[4], raw[5]);
    TemperatureExact(adcT, TempCalibOf(b));
    PressureExact(adcP, TFineC(adcT, TempCalibOf(b)), PressCalibOf(b));
  }
}
