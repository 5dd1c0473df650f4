/** Autoranging of the VEML7700 light sensor.

Ten bands, each half as sensitive as the one below. After every successful wake the
larger of two counts decides the band of the next wake, and a map entry keeps that
band across wakes. Light is measured in tenths of a millilux. */
module Autorange {
  import opened Division

  const BAND_COUNT: nat := 10
  const BAND_DEFAULT: nat := 4
  const COUNTS_LOW_MAX: nat := 0x3FFF
  const COUNTS_HIGH_MIN: nat := 0xC000
  const FULL_SCALE: nat := 0xFFFF

  type u8 = n: int | 0 <= n < 0x100
  type u16 = n: int | 0 <= n < 0x1_0000
  type u32 = n: int | 0 <= n < 0x1_0000_0000

  /** The persistent map entry; its first contents may be anything. */
  datatype MapEntry = MapEntry(currentBand: u8, initialized: u8)

  function SelectBand(m: MapEntry): u8 {
    if m.initialized == 0 then BAND_DEFAULT
    else if m.currentBand >= BAND_COUNT then BAND_DEFAULT
    else m.currentBand
  }

  function ScaleTenths(band: u8): u32 {
    match band
    case 0 => 36
    case 1 => 72
    case 2 => 144
    case 3 => 288
    case 4 => 576
    case 5 => 1152
    case 6 => 2304
    case 7 => 4608
    case 8 => 9216
    case _ => 18432
  }

  /** The conversion in 32-bit arithmetic. */
  function CountsToLux(band: u8, als: u16): u32 {
    var lux := (als * ScaleTenths(band)) % 0x1_0000_0000 / 10;
    if lux == 0 then 1 else lux
  }

  function Max(a: u16, b: u16): u16 {
    if b > a then b else a
  }

  function AdjustBand(band: u8, als: u16, white: u16): u8
    requires band < BAND_COUNT
  {
    var peak := Max(als, white);
    if peak >= COUNTS_HIGH_MIN then if band + 1 < BAND_COUNT then band + 1 else band
    else if peak <= COUNTS_LOW_MAX && band > 0 then band - 1
    else band
  }

  /** What the sensor counts in a band: proportional to light, up to full scale. */
  function Counts(light: nat, band: u8): u16 {
    var c := light / ScaleTenths(band);
    if c < FULL_SCALE then c else FULL_SCALE
  }

  /** The next persistent entry when every bus transfer of a wake succeeds. */
  function Wake(m: MapEntry, als: nat, white: nat): MapEntry {
    var band := SelectBand(m);
    MapEntry(AdjustBand(band, Counts(als, band), Counts(white, band)), 1)
  }

  class StateMap {
    var entry: MapEntry

    constructor (contents: MapEntry)
      ensures entry == contents
    {
      entry := contents;
    }

    /** `program`: any of its four bus operations may fail, and then nothing is stored. */
    method Program(als: nat, white: nat) returns (ok: bool, lux: u32)
      modifies this
      ensures ok ==> entry == Wake(old(entry), als, white) && entry.currentBand < BAND_COUNT
      ensures ok ==> lux == CountsToLux(SelectBand(old(entry)), Counts(als, SelectBand(old(entry))))
      ensures !ok ==> entry == old(entry)
    {
      var band := SelectBand(entry);
      ok, lux := *, 1;
      if !ok { return; }
      ok := *;
      if !ok { return; }
      var alsCounts := Counts(als, band);
      ok := *;
      if !ok { return; }
      var whiteCounts := Counts(white, band);
      ok := *;
      if !ok { return; }
      lux := CountsToLux(band, alsCounts);
      entry := MapEntry(AdjustBand(band, alsCounts, whiteCounts), 1);
    }
  }

  // ---- one light value decides ----

  /** The most sensitive band counts 3.6 millilux, each next one twice as much. */
  lemma ScaleDoubles(band: u8)
    requires band + 1 < BAND_COUNT
    ensures ScaleTenths(0) == 36 && ScaleTenths(band + 1) == 2 * ScaleTenths(band)
  {}

  lemma DivDiv(n: nat, d: nat)
    requires d > 0
    ensures n / (2 * d) == n / d / 2
  {
    var q := n / d;
    assert n == d * q + n % d;
    var h := q / 2;
    assert q == 2 * h || q == 2 * h + 1;
    assert d * q == 2 * d * h || d * q == 2 * d * h + d;
    QuotientUnique(n, 2 * d, h);
  }

  lemma DivMonotone(a: nat, b: nat, d: nat)
    requires d > 0 && a <= b
    ensures a / d <= b / d
  {
    var p, q := a / d, b / d;
    assert d * p <= a && b < d * q + d;
    if p > q { MulStep(d, q, p); }
  }

  function Brighter(als: nat, white: nat): nat {
    if white > als then white else als
  }

  /** The peak of the two counts is the count of the brighter light. */
  lemma PeakIsBrighter(als: nat, white: nat, band: u8)
    ensures Max(Counts(als, band), Counts(white, band)) == Counts(Brighter(als, white), band)
  {
    if white > als { DivMonotone(als, white, ScaleTenths(band)); } else { DivMonotone(white, als, ScaleTenths(band)); }
  }

  /** One step of the control loop under constant light. */
  function Next(light: nat, band: u8): u8
    requires band < BAND_COUNT
  {
    AdjustBand(band, Counts(light, band), 0)
  }

  /** The band above counts half as much. */
  lemma NextBandHalves(light: nat, band: u8)
    requires band + 1 < BAND_COUNT
    ensures light / ScaleTenths(band + 1) == light / ScaleTenths(band) / 2
  {
    ScaleDoubles(band);
    DivDiv(light, ScaleTenths(band));
  }

  /** A step up is never followed by a step down, nor the reverse. */
  lemma NeverFlaps(light: nat, band: u8)
    requires band < BAND_COUNT
    ensures Next(light, band) > band ==> Next(light, Next(light, band)) >= Next(light, band)
    ensures Next(light, band) < band ==> Next(light, Next(light, band)) <= Next(light, band)
  {
    if Next(light, band) > band { NextBandHalves(light, band); }
    if Next(light, band) < band { NextBandHalves(light, band - 1); }
  }

  // ---- convergence ----

  function After(n: nat, light: nat, band: u8): (b: u8)
    requires band < BAND_COUNT
    ensures b < BAND_COUNT
  {
    if n == 0 then band else After(n - 1, light, Next(light, band))
  }

  /** In range, or at an end of the ladder with nowhere to go. */
  predicate Settled(light: nat, band: u8)
    requires band < BAND_COUNT
  {
    || 0x4000 <= Counts(light, band) <= 0xBFFF
    || (band == 0 && Counts(light, band) < 0x4000)
    || (band == 9 && Counts(light, band) > 0xBFFF)
  }

  lemma SettledIffFixed(light: nat, band: u8)
    requires band < BAND_COUNT
    ensures Settled(light, band) <==> Next(light, band) == band
  {}

  lemma {:induction false} SettledStays(n: nat, light: nat, band: u8)
    requires band < BAND_COUNT && Settled(light, band)
    ensures After(n, light, band) == band
  {
    hide Settled, Next;
    SettledIffFixed(light, band);
    if n > 0 { SettledStays(n - 1, light, band); }
  }

  /** Going up, the loop stops at the first band that is not overexposed. */
  lemma {:induction false} ClimbSettles(n: nat, light: nat, band: u8)
    requires band < BAND_COUNT && Next(light, band) >= band && n >= BAND_COUNT - 1 - band
    ensures var end := After(n, light, band);
      && end >= band && Settled(light, end)
      && forall c: u8 :: band <= c < end ==> Counts(light, c) >= COUNTS_HIGH_MIN
    decreases n
  {
    SettledIffFixed(light, band);
    if Next(light, band) == band {
      SettledStays(n, light, band);
    } else {
      NeverFlaps(light, band);
      ClimbSettles(n - 1, light, band + 1);
    }
  }

  /** Going down, it stops at the first band that is not underexposed. */
  lemma {:induction false} DescentSettles(n: nat, light: nat, band: u8)
    requires band < BAND_COUNT && Next(light, band) <= band && n >= band
    ensures var end := After(n, light, band);
      && end <= band && Settled(light, end)
      && forall c: u8 :: end < c <= band ==> Counts(light, c) <= COUNTS_LOW_MAX
    decreases n
  {
    SettledIffFixed(light, band);
    if Next(light, band) == band {
      SettledStays(n, light, band);
    } else {
      NeverFlaps(light, band);
      DescentSettles(n - 1, light, band - 1);
    }
  }

  /** Wakes of a run: `true` for one whose bus transfers all succeeded. */
  function RunWakes(m: MapEntry, als: nat, white: nat, wakes: seq<bool>): MapEntry
    decreases |wakes|
  {
    if wakes == [] then m
    else RunWakes(if wakes[0] then Wake(m, als, white) else m, als, white, wakes[1..])
  }

  function Successes(wakes: seq<bool>): nat {
    if wakes == [] then 0 else (if wakes[0] then 1 else 0) + Successes(wakes[1..])
  }

  lemma {:induction false} RunIsAfter(m: MapEntry, als: nat, white: nat, wakes: seq<bool>)
    ensures SelectBand(RunWakes(m, als, white, wakes)) == After(Successes(wakes), Brighter(als, white), SelectBand(m))
    ensures Successes(wakes) > 0 ==> RunWakes(m, als, white, wakes).currentBand < BAND_COUNT
    ensures m.currentBand < BAND_COUNT ==> RunWakes(m, als, white, wakes).currentBand < BAND_COUNT
    decreases |wakes|
  {
    if wakes != [] {
      var m1 := if wakes[0] then Wake(m, als, white) else m;
      RunIsAfter(m1, als, white, wakes[1..]);
      if wakes[0] {
        PeakIsBrighter(als, white, SelectBand(m));
        assert SelectBand(m1) == Next(Brighter(als, white), SelectBand(m));
      }
    }
  }

  /** From any contents of the map, with failed wakes in between, nine successful wakes under constant
      light reach a band that is in range or at an end of the ladder, and it is kept from then on. */
  lemma AutorangeConverges(m: MapEntry, als: nat, white: nat, wakes: seq<bool>, more: seq<bool>)
    requires Successes(wakes) >= 9
    ensures var light, end := Brighter(als, white), RunWakes(m, als, white, wakes);
      && end.currentBand < BAND_COUNT && Settled(light, end.currentBand)
      && SelectBand(RunWakes(end, als, white, more)) == end.currentBand
  {
    var light, end := Brighter(als, white), RunWakes(m, als, white, wakes);
    RunIsAfter(m, als, white, wakes);
    RunInitializes(m, als, white, wakes);
    if Next(light, SelectBand(m)) >= SelectBand(m) {
      ClimbSettles(Successes(wakes), light, SelectBand(m));
    } else {
      DescentSettles(Successes(wakes), light, SelectBand(m));
    }
    RunIsAfter(end, als, white, more);
    SettledStays(Successes(more), light, end.currentBand);
  }

  /** A node whose map was never written, or holds no band, starts in the middle and needs five wakes at most. */
  lemma FreshConvergesInFive(m: MapEntry, als: nat, white: nat, wakes: seq<bool>)
    requires (m.initialized == 0 || m.currentBand >= 10) && Successes(wakes) >= 5
    ensures var light, end := Brighter(als, white), RunWakes(m, als, white, wakes);
      end.currentBand < BAND_COUNT && Settled(light, end.currentBand)
  {
    var light := Brighter(als, white);
    RunIsAfter(m, als, white, wakes);
    RunInitializes(m, als, white, wakes);
    if Next(light, 4) >= 4 { ClimbSettles(Successes(wakes), light, 4); } else { DescentSettles(Successes(wakes), light, 4); }
  }

  lemma {:induction false} RunInitializes(m: MapEntry, als: nat, white: nat, wakes: seq<bool>)
    requires Successes(wakes) > 0 || m.initialized == 1
    ensures RunWakes(m, als, white, wakes).initialized == 1
    decreases |wakes|
  {
    if wakes != [] { RunInitializes(if wakes[0] then Wake(m, als, white) else m, als, white, wakes[1..]); }
  }

  // ---- the reported value ----

  lemma LuxNeverOverflows(band: u8, als: u16)
    ensures als * ScaleTenths(band) < 0x1_0000_0000
  {
    assert als * ScaleTenths(band) <= 0xFFFF * 18432;
  }

  /** The reported value is never 0, and otherwise the counted light rounded down to a whole unit. */
  lemma LuxOfCounts(band: u8, als: u16)
    ensures var lux, light := CountsToLux(band, als), als * ScaleTenths(band);
      lux >= 1 && (if light < 10 then lux == 1 else 0 <= light - 10 * lux < 10)
  {
    LuxNeverOverflows(band, als);
  }

  /** In a band whose count is in range the reported lux differs from the light by at most one part in
      16384, and one unit. */
  lemma LuxIsAccurate(light: nat, band: u8)
    requires band < BAND_COUNT && COUNTS_LOW_MAX < Counts(light, band) < COUNTS_HIGH_MIN
    ensures var lux := CountsToLux(band, Counts(light, band));
      0 <= light - 10 * lux <= light / 16384 + 10
  {
    var s, c := ScaleTenths(band), Counts(light, band);
    LuxNeverOverflows(band, c);
    assert c == light / s && light == s * c + light % s;
    assert c * s >= 16384 * s >= 16384 * 36;
    DivMonotone(16384 * s, light, 16384);
    QuotientUnique(16384 * s, 16384, s);
  }
}
