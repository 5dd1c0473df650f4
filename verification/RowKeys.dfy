/** History row keys: reversed timestamps, so that the smallest key is the newest row. */
module RowKeys {
  import opened Numerals

  const U64_MAX: nat := 0xffff_ffff_ffff_ffff

  type u64 = n: int | 0 <= n <= U64_MAX witness 0

  /** What `next_history_row_key` formats: a timestamp, a process sequence number, a process nonce. */
  datatype KeyParts = KeyParts(ts: u64, sequence: u64, nonce: u64)

  function Hex16(n: u64): (s: string)
    ensures |s| == 16
  {
    Digits(n, 16, Hex)
  }

  function Join(field: string, rest: string): string {
    field + (":" + rest)
  }

  function RowKey(k: KeyParts): string {
    Join(Hex16(U64_MAX - k.ts), Join(Hex16(U64_MAX - k.sequence), Hex16(k.nonce)))
  }

  /** The order the format is meant to give: newest first, later sequence first, then the nonce. */
  predicate Before(a: KeyParts, b: KeyParts) {
    || a.ts > b.ts
    || (a.ts == b.ts && a.sequence > b.sequence)
    || (a.ts == b.ts && a.sequence == b.sequence && a.nonce < b.nonce)
  }

  lemma HexPower()
    ensures Pow(Hex, 16) == U64_MAX + 1
  {
    assert Pow(Hex, 4) == 16 * Pow(Hex, 3) == 256 * Pow(Hex, 2) == 4096 * Pow(Hex, 1) == 65536;
    assert Pow(Hex, 8) == 16 * Pow(Hex, 7) == 256 * Pow(Hex, 6) == 4096 * Pow(Hex, 5) == 65536 * Pow(Hex, 4);
    assert Pow(Hex, 12) == 16 * Pow(Hex, 11) == 256 * Pow(Hex, 10) == 4096 * Pow(Hex, 9) == 65536 * Pow(Hex, 8);
    assert Pow(Hex, 16) == 16 * Pow(Hex, 15) == 256 * Pow(Hex, 14) == 4096 * Pow(Hex, 13) == 65536 * Pow(Hex, 12);
  }

  lemma Hex16Order(n: u64, m: u64)
    ensures LexLess(Hex16(n), Hex16(m)) <==> n < m
    ensures Hex16(n) == Hex16(m) <==> n == m
  {
    HexPower();
    DigitsOrder(n, m, 16, Hex);
  }

  /** String order of row keys is (timestamp descending, sequence descending, nonce ascending). */
  lemma RowKeyOrder(a: KeyParts, b: KeyParts)
    ensures LexLess(RowKey(a), RowKey(b)) <==> Before(a, b)
    ensures RowKey(a) == RowKey(b) <==> a == b
  {
    hide LexLess, Hex16, Join;
    Hex16Order(U64_MAX - a.ts, U64_MAX - b.ts);
    Hex16Order(U64_MAX - a.sequence, U64_MAX - b.sequence);
    Hex16Order(a.nonce, b.nonce);
    JoinOrder(Hex16(U64_MAX - a.sequence), Hex16(U64_MAX - b.sequence), Hex16(a.nonce), Hex16(b.nonce));
    JoinOrder(Hex16(U64_MAX - a.ts), Hex16(U64_MAX - b.ts),
              Join(Hex16(U64_MAX - a.sequence), Hex16(a.nonce)), Join(Hex16(U64_MAX - b.sequence), Hex16(b.nonce)));
  }

  /** Fields of equal width joined by ':' are compared first; only a tie lets the rest decide. */
  lemma JoinOrder(a: string, b: string, x: string, y: string)
    requires |a| == |b|
    ensures LexLess(Join(a, x), Join(b, y)) <==> LexLess(a, b) || (a == b && LexLess(x, y))
    ensures Join(a, x) == Join(b, y) <==> a == b && x == y
  {
    Tie(a, b, ":" + x, ":" + y);
    Tie(":", ":", x, y);
    LexIrreflexive(":");
  }

  lemma Tie(a: string, b: string, x: string, y: string)
    requires |a| == |b|
    ensures LexLess(a + x, b + y) <==> LexLess(a, b) || (a == b && LexLess(x, y))
    ensures a + x == b + y <==> a == b && x == y
  {
    LexConcat(a, b, x, y);
    assert (a + x)[..|a|] == a && (b + y)[..|b|] == b && (a + x)[|a|..] == x && (b + y)[|b|..] == y;
  }

  // ---- the table filter the web client builds ----

  /** The range of a JavaScript Date, in milliseconds. */
  const DATE_LIMIT: nat := 8_640_000_000_000_000

  type DateMs = n: int | -(DATE_LIMIT as int) <= n <= DATE_LIMIT witness 0

  /** `reverseTimestampHex`: minimal hex of a BigInt, padded to 16 digits. */
  function ReverseTimestampHex(ms: DateMs): string {
    PadStart(MinDigits(U64_MAX - ms, Hex), 16)
  }

  /** `RowKey ge '..' and RowKey le '..~'`. */
  predicate Selected(key: string, startMs: DateMs, endMs: DateMs) {
    && !LexLess(key, ReverseTimestampHex(endMs))
    && !LexLess(ReverseTimestampHex(startMs) + "~", key)
  }

  lemma ReverseHexIsFixedWidth(ms: DateMs)
    requires ms >= 0
    ensures ReverseTimestampHex(ms) == Hex16(U64_MAX - ms)
  {
    HexPower();
    PadMinDigits(U64_MAX - ms, 16, Hex);
  }

  lemma {:induction false} LeadingOne(n: nat, k: nat)
    requires Pow(Hex, k) <= n < 2 * Pow(Hex, k)
    ensures |MinDigits(n, Hex)| == k + 1
  {
    if k > 0 { LeadingOne(n / 16, k - 1); }
  }

  /** Before 1970 the reversed time needs a 17th digit. */
  lemma NegativeHex(ms: DateMs)
    requires ms < 0
    ensures var n := U64_MAX - ms;
      n / 16 <= U64_MAX && ReverseTimestampHex(ms) == Hex16(n / 16) + [DigitChar(n % 16)]
  {
    HexPower();
    var n: nat := U64_MAX - ms;
    assert Pow(Hex, 16) == 16 * Pow(Hex, 15);
    LeadingOne(n / 16, 15);
    PadMinDigits(n / 16, 16, Hex);
    assert PadStart(MinDigits(n / 16, Hex), 16) == MinDigits(n / 16, Hex);
    assert MinDigits(n, Hex) == MinDigits(n / 16, Hex) + [DigitChar(n % 16)];
  }

  /** What a key looks like behind its timestamp. */
  function Suffix(k: KeyParts): (s: string)
    ensures |s| >= 1 && s[0] == ':'
  {
    ":" + Join(Hex16(U64_MAX - k.sequence), Hex16(k.nonce))
  }

  /** Bounds of 16 digits: the key's timestamp decides. */
  lemma KeyBelowBound(k: KeyParts, endMs: DateMs)
    requires endMs >= 0
    ensures LexLess(RowKey(k), ReverseTimestampHex(endMs)) <==> k.ts > endMs
  {
    ReverseHexIsFixedWidth(endMs);
    Hex16Order(U64_MAX - k.ts, U64_MAX - endMs);
    LexConcat(Hex16(U64_MAX - k.ts), Hex16(U64_MAX - endMs), Suffix(k), "");
    assert Hex16(U64_MAX - endMs) + "" == Hex16(U64_MAX - endMs);
  }

  lemma BoundBelowKey(k: KeyParts, startMs: DateMs)
    requires startMs >= 0
    ensures LexLess(ReverseTimestampHex(startMs) + "~", RowKey(k)) <==> k.ts < startMs
  {
    ReverseHexIsFixedWidth(startMs);
    Hex16Order(U64_MAX - startMs, U64_MAX - k.ts);
    LexConcat(Hex16(U64_MAX - startMs), Hex16(U64_MAX - k.ts), "~", Suffix(k));
  }

  /** The timestamp at which a bound before 1970 cuts the keys: its first sixteen digits are compared
      with the key's, and its last digit with the key's colon. */
  function Cut(ms: DateMs): (ts: u64)
    requires ms < 0
    ensures ts > DATE_LIMIT
  {
    U64_MAX - (U64_MAX - ms + 6) / 16
  }

  /** A colon sorts between the digits '9' and 'a'. */
  lemma ColonAndDigit(d: nat, x: string, y: string)
    requires d < 16 && |x| >= 1 && x[0] == ':'
    ensures LexLess(x, [DigitChar(d)] + y) <==> d >= 10
    ensures LexLess([DigitChar(d)] + y, x) <==> d < 10
  {}

  lemma KeyBelowNegative(k: KeyParts, endMs: DateMs)
    requires endMs < 0
    ensures LexLess(RowKey(k), ReverseTimestampHex(endMs)) <==> k.ts > Cut(endMs)
  {
    hide LexLess, Hex16;
    var n: nat := U64_MAX - endMs;
    NegativeHex(endMs);
    Hex16Order(U64_MAX - k.ts, n / 16);
    LexConcat(Hex16(U64_MAX - k.ts), Hex16(n / 16), Suffix(k), [DigitChar(n % 16)]);
    ColonAndDigit(n % 16, Suffix(k), "");
    assert [DigitChar(n % 16)] + "" == [DigitChar(n % 16)];
  }

  lemma NegativeBelowKey(k: KeyParts, startMs: DateMs)
    requires startMs < 0
    ensures LexLess(ReverseTimestampHex(startMs) + "~", RowKey(k)) <==> k.ts <= Cut(startMs)
  {
    hide LexLess, Hex16;
    var n: nat := U64_MAX - startMs;
    NegativeHex(startMs);
    Hex16Order(n / 16, U64_MAX - k.ts);
    LexConcat(Hex16(n / 16), Hex16(U64_MAX - k.ts), [DigitChar(n % 16)] + "~", Suffix(k));
    assert Hex16(n / 16) + [DigitChar(n % 16)] + "~" == Hex16(n / 16) + ([DigitChar(n % 16)] + "~");
    ColonAndDigit(n % 16, Suffix(k), "~");
  }

  function FirstSelected(startMs: DateMs): int {
    if startMs >= 0 then startMs else Cut(startMs) + 1
  }

  function LastSelected(endMs: DateMs): int {
    if endMs >= 0 then endMs else Cut(endMs)
  }

  /** What the filter selects, for every pair of bounds. */
  lemma FilterSelects(k: KeyParts, startMs: DateMs, endMs: DateMs)
    ensures Selected(RowKey(k), startMs, endMs) <==> FirstSelected(startMs) <= k.ts <= LastSelected(endMs)
  {
    hide LexLess, ReverseTimestampHex, RowKey;
    if endMs >= 0 { KeyBelowBound(k, endMs); } else { KeyBelowNegative(k, endMs); }
    if startMs >= 0 { BoundBelowKey(k, startMs); } else { NegativeBelowKey(k, startMs); }
  }

  /** For non-negative bounds the filter is exactly the timestamp range. */
  lemma FilterIsTimestampRange(k: KeyParts, startMs: DateMs, endMs: DateMs)
    requires 0 <= startMs && 0 <= endMs
    ensures Selected(RowKey(k), startMs, endMs) <==> startMs <= k.ts <= endMs
  {
    FilterSelects(k, startMs, endMs);
  }

  /** A range that begins before 1970 and ends after selects nothing at all. */
  lemma StraddlingSelectsNothing(k: KeyParts, startMs: DateMs, endMs: DateMs)
    requires startMs < 0 <= endMs
    ensures !Selected(RowKey(k), startMs, endMs)
  {
    FilterSelects(k, startMs, endMs);
  }

  /** Both bounds from 1970 on; or both before, and no key between their cuts. */
  predicate BoundsAgree(startMs: DateMs, endMs: DateMs) {
    || (0 <= startMs && 0 <= endMs)
    || (startMs < 0 && endMs < 0 && Cut(endMs) <= Cut(startMs))
  }

  /** The filter selects exactly the keys of the timestamp range, for every pair of bounds, if and only
      if the bounds agree. */
  lemma FilterExactIff(startMs: DateMs, endMs: DateMs)
    ensures (forall k: KeyParts :: Selected(RowKey(k), startMs, endMs) <==> startMs <= k.ts <= endMs)
       <==> BoundsAgree(startMs, endMs)
  {
    hide Selected, RowKey, Cut;
    forall k: KeyParts
      ensures Selected(RowKey(k), startMs, endMs) <==> FirstSelected(startMs) <= k.ts <= LastSelected(endMs)
    {
      FilterSelects(k, startMs, endMs);
    }
    if !BoundsAgree(startMs, endMs) {
      // The first timestamp selected, or the first that should be.
      var k := KeyParts(if startMs >= 0 then startMs else if endMs >= 0 then 0 else Cut(endMs), 0, 0);
      assert !(Selected(RowKey(k), startMs, endMs) <==> startMs <= k.ts <= endMs);
    }
  }
}
