/** The CBOR subset a Python data handler speaks: integers, byte strings, text and maps
(section 3 of RFC 8949), with the shortest heads of section 4.1.

The decoder slices its input the way Python does: a slice that runs past the end is
silently shortened, and only indexing a single byte fails. */
module Cbor {
  import opened BigEndian

  /** `Text` holds the UTF-8 bytes of a string; `Map` a dict in insertion order. */
  datatype Value = Int(i: int) | Bytes(bytes: seq<byte>) | Text(utf8: seq<byte>) | Map(entries: seq<Entry>)
  datatype Entry = Entry(key: Value, val: Value)

  datatype Error = IndexError | ValueError | UnicodeDecodeError | TypeError | OverflowError
  datatype Result<+T> = Ok(value: T) | Err(error: Error)

  predicate Between(x: byte, lo: int, hi: int) {
    lo <= x <= hi
  }

  /** Well-formed UTF-8, as `bytes.decode("utf-8")` demands it. */
  predicate IsUtf8(s: seq<byte>) {
    if s == [] then true
    else if s[0] <= 0x7F then IsUtf8(s[1..])
    else if Between(s[0], 0xC2, 0xDF) then |s| >= 2 && Between(s[1], 0x80, 0xBF) && IsUtf8(s[2..])
    else if Between(s[0], 0xE0, 0xEF) then
      && |s| >= 3
      && Between(s[1], if s[0] == 0xE0 then 0xA0 else 0x80, if s[0] == 0xED then 0x9F else 0xBF)
      && Between(s[2], 0x80, 0xBF) && IsUtf8(s[3..])
    else
      && Between(s[0], 0xF0, 0xF4) && |s| >= 4
      && Between(s[1], if s[0] == 0xF0 then 0x90 else 0x80, if s[0] == 0xF4 then 0x8F else 0xBF)
      && Between(s[2], 0x80, 0xBF) && Between(s[3], 0x80, 0xBF) && IsUtf8(s[4..])
  }

  // ---- encoding ----

  function EncodeUint(major: nat, value: nat): (s: seq<byte>)
    requires major < 8 && value < TWO_64
    ensures |s| >= 1 && s[0] / 32 == major
  {
    if value < 24 then [major * 32 + value]
    else if value <= 0xFF then [major * 32 + 24, value]
    else if value <= 0xFFFF then [major * 32 + 25] + ToBytes(value, 2)
    else if value <= 0xFFFF_FFFF then [major * 32 + 26] + ToBytes(value, 4)
    else [major * 32 + 27] + ToBytes(value, 8)
  }

  /** The values the encoder accepts. */
  predicate WellFormed(v: Value)
    decreases v, 1
  {
    match v
    case Int(i) => -TWO_64 <= i < TWO_64
    case Bytes(b) => |b| < TWO_64
    case Text(u) => |u| < TWO_64 && IsUtf8(u)
    case Map(es) => |es| < TWO_64 && DistinctKeys(es) && WellFormedEntries(es)
  }

  predicate WellFormedEntries(es: seq<Entry>)
    decreases es, 0
  {
    forall i :: 0 <= i < |es| ==> WellFormedEntry(es[i])
  }

  predicate WellFormedEntry(e: Entry)
    decreases e, 0
  {
    !e.key.Map? && WellFormed(e.key) && WellFormed(e.val)
  }

  predicate DistinctKeys(es: seq<Entry>) {
    forall i, j :: 0 <= i < j < |es| ==> es[i].key != es[j].key
  }

  /** The values Python can hold: text is Unicode, dict keys are distinct and no dicts. */
  predicate Possible(v: Value)
    decreases v, 1
  {
    match v
    case Int(_) => true
    case Bytes(_) => true
    case Text(u) => IsUtf8(u)
    case Map(es) => DistinctKeys(es) && forall i :: 0 <= i < |es| ==> PossibleEntry(es[i])
  }

  predicate PossibleEntry(e: Entry)
    decreases e, 0
  {
    !e.key.Map? && Possible(e.key) && Possible(e.val)
  }

  function EncodeItem(v: Value): (s: seq<byte>)
    requires WellFormed(v)
    ensures |s| >= 1
    decreases v, 1
  {
    match v
    case Int(i) => if i < 0 then EncodeUint(1, -1 - i) else EncodeUint(0, i)
    case Bytes(b) => EncodeUint(2, |b|) + b
    case Text(u) => EncodeUint(3, |u|) + u
    case Map(es) => EncodeUint(5, |es|) + EncodeEntries(es)
  }

  function EncodeEntries(es: seq<Entry>): seq<byte>
    requires WellFormedEntries(es)
    decreases es, 0
  {
    if es == [] then []
    else EncodeEntry(es[0]) + EncodeEntries(es[1..])
  }

  function EncodeEntry(e: Entry): seq<byte>
    requires WellFormedEntry(e)
    decreases e, 0
  {
    EncodeItem(e.key) + EncodeItem(e.val)
  }

  // ---- decoding ----

  /** `data[i:j]`; with `checked`, a slice that does not lie within the data is an error instead. */
  function Slice(checked: bool, data: seq<byte>, i: nat, j: nat): Result<seq<byte>>
    requires i <= j
  {
    if checked && j > |data| then Err(IndexError)
    else Ok(if i >= |data| then [] else if j > |data| then data[i..] else data[i..j])
  }

  function DecodeUint(checked: bool, info: nat, data: seq<byte>, index: nat): (r: Result<(nat, nat)>)
    ensures r.Ok? ==> r.value.1 >= index
  {
    if info < 24 then Ok((info, index))
    else if info == 24 then if index < |data| then Ok((data[index], index + 1)) else Err(IndexError)
    else if info == 25 then Wide(checked, data, index, 2)
    else if info == 26 then Wide(checked, data, index, 4)
    else if info == 27 then Wide(checked, data, index, 8)
    else Err(ValueError)
  }

  function Wide(checked: bool, data: seq<byte>, index: nat, w: nat): (r: Result<(nat, nat)>)
    ensures r.Ok? ==> r.value.1 == index + w
  {
    match Slice(checked, data, index, index + w)
    case Err(e) => Err(e)
    case Ok(s) => Ok((FromBytes(s), index + w))
  }

  function Remaining(data: seq<byte>, index: nat): nat {
    if index < |data| then |data| - index else 0
  }

  /** `value[key] = item`: a key already present keeps its place. */
  function Put(es: seq<Entry>, key: Value, val: Value): seq<Entry> {
    if es == [] then [Entry(key, val)]
    else if es[0].key == key then [Entry(key, val)] + es[1..]
    else [es[0]] + Put(es[1..], key, val)
  }

  /** The value a dict holds for a key. */
  function Get(es: seq<Entry>, key: Value): Result<Value> {
    if es == [] then Err(ValueError)
    else if es[0].key == key then Ok(es[0].val)
    else Get(es[1..], key)
  }

  /** The last assignment to a key counts, and no other key is touched. */
  lemma {:induction false} PutThenGet(es: seq<Entry>, key: Value, val: Value, other: Value)
    ensures Get(Put(es, key, val), other) == if other == key then Ok(val) else Get(es, other)
  {
    if es != [] {
      var p := Put(es, key, val);
      if es[0].key == key { assert p[1..] == es[1..]; } else { assert p[1..] == Put(es[1..], key, val); PutThenGet(es[1..], key, val, other); }
    } else {
      assert Put(es, key, val)[1..] == [];
    }
  }

  function DecodeItem(checked: bool, data: seq<byte>, index: nat): (r: Result<(Value, nat)>)
    ensures r.Ok? ==> r.value.1 > index && index < |data|
    decreases Remaining(data, index), 0
  {
    if index >= |data| then Err(IndexError) else
    var major, info := data[index] / 32, data[index] % 32;
    if major == 4 || major > 5 then Err(ValueError) else
    match DecodeUint(checked, info, data, index + 1)
    case Err(e) => Err(e)
    case Ok((n, next)) =>
      if major == 0 then Ok((Int(n), next))
      else if major == 1 then Ok((Int(-1 - n), next))
      else if major == 5 then DecodePairs(checked, data, next, n, [])
      else
        match Slice(checked, data, next, next + n)
        case Err(e) => Err(e)
        case Ok(s) =>
          if major == 2 then Ok((Bytes(s), next + n))
          else if IsUtf8(s) then Ok((Text(s), next + n))
          else Err(UnicodeDecodeError)
  }

  function DecodePairs(checked: bool, data: seq<byte>, index: nat, count: nat, done: seq<Entry>): (r: Result<(Value, nat)>)
    ensures r.Ok? ==> r.value.1 >= index && r.value.0.Map?
    decreases Remaining(data, index), 1
  {
    if count == 0 then Ok((Map(done), index)) else
    match DecodeItem(checked, data, index)
    case Err(e) => Err(e)
    case Ok((key, i)) =>
      match DecodeItem(checked, data, i)
      case Err(e) => Err(e)
      case Ok((val, j)) =>
        if key.Map? then Err(TypeError)  // a dict is not hashable
        else DecodePairs(checked, data, j, count - 1, Put(done, key, val))
  }

  function DecodeMap(checked: bool, data: seq<byte>): Result<Value> {
    match DecodeItem(checked, data, 0)
    case Err(e) => Err(e)
    case Ok((v, index)) => if v.Map? && index == |data| then Ok(v) else Err(ValueError)
  }

  // ---- unchecked slices are harmless ----

  lemma UncheckedUint(info: nat, data: seq<byte>, index: nat)
    ensures var c, u := DecodeUint(true, info, data, index), DecodeUint(false, info, data, index);
      && (c.Ok? ==> u == c && (index <= |data| ==> c.value.1 <= |data|))
      && (u.Ok? && u.value.1 <= |data| ==> c == u)
  {}

  /** Indices never go back, so an item that ends within the data was read within the data. */
  lemma {:induction false} UncheckedItem(data: seq<byte>, index: nat)
    ensures var c, u := DecodeItem(true, data, index), DecodeItem(false, data, index);
      && (c.Ok? ==> u == c && c.value.1 <= |data|)
      && (u.Ok? && u.value.1 <= |data| ==> c == u)
    decreases Remaining(data, index), 0
  {
    hide DecodePairs, DecodeUint, IsUtf8;
    if index < |data| {
      UncheckedUint(data[index] % 32, data, index + 1);
      var u := DecodeUint(false, data[index] % 32, data, index + 1);
      if data[index] / 32 == 5 && u.Ok? { UncheckedPairs(data, u.value.1, u.value.0, []); }
    }
  }

  lemma {:induction false} UncheckedPairs(data: seq<byte>, index: nat, count: nat, done: seq<Entry>)
    ensures var c, u := DecodePairs(true, data, index, count, done), DecodePairs(false, data, index, count, done);
      && (c.Ok? ==> u == c && (index <= |data| ==> c.value.1 <= |data|))
      && (u.Ok? && u.value.1 <= |data| ==> c == u)
    decreases Remaining(data, index), 1
  {
    hide DecodeItem, Put;
    if count > 0 {
      UncheckedItem(data, index);
      var k := DecodeItem(false, data, index);
      if k.Ok? {
        UncheckedItem(data, k.value.1);
        var v := DecodeItem(false, data, k.value.1);
        if v.Ok? && !k.value.0.Map? {
          UncheckedPairs(data, v.value.1, count - 1, Put(done, k.value.0, v.value.0));
        }
      }
    }
  }

  /** The one final length check suffices: exactly the payloads a fully bounds-checked decoder accepts
      are accepted, with the same value. */
  lemma AcceptedIffInBounds(data: seq<byte>, v: Value)
    ensures DecodeMap(false, data) == Ok(v) <==> DecodeMap(true, data) == Ok(v)
  {
    UncheckedItem(data, 0);
  }

  /** A map of `count` pairs takes at least two bytes a pair, whatever count its head claims. */
  lemma {:induction false} PairsTakeBytes(checked: bool, data: seq<byte>, index: nat, count: nat, done: seq<Entry>)
    requires DecodePairs(checked, data, index, count, done).Ok?
    ensures DecodePairs(checked, data, index, count, done).value.1 >= index + 2 * count
    decreases Remaining(data, index)
  {
    if count > 0 {
      var k := DecodeItem(checked, data, index).value;
      var v := DecodeItem(checked, data, k.1).value;
      PairsTakeBytes(checked, data, v.1, count - 1, Put(done, k.0, v.0));
    }
  }

  // ---- what escapes the handler ----

  /** Decoding the item at `index`, the decoder comes to a pair whose key begins at `at`. */
  predicate Reaches(data: seq<byte>, index: nat, at: nat)
    decreases Remaining(data, index), 0
  {
    && index < |data| && data[index] / 32 == 5
    && var head := DecodeUint(false, data[index] % 32, data, index + 1);
       head.Ok? && ReachesPairs(data, head.value.1, head.value.0, at)
  }

  predicate ReachesPairs(data: seq<byte>, index: nat, count: nat, at: nat)
    decreases Remaining(data, index), 1
  {
    && count > 0
    && (at == index || Reaches(data, index, at) ||
        var key := DecodeItem(false, data, index);
        key.Ok? && (Reaches(data, key.value.1, at) ||
          var val := DecodeItem(false, data, key.value.1);
          val.Ok? && !key.value.0.Map? && ReachesPairs(data, val.value.1, count - 1, at)))
  }

  /** There stands a map as key, and a value behind it. */
  predicate MapAsKey(data: seq<byte>, at: nat) {
    var key := DecodeItem(false, data, at);
    key.Ok? && key.value.0.Map? && DecodeItem(false, data, key.value.1).Ok?
  }

  ghost predicate MeetsMapKey(data: seq<byte>, index: nat) {
    exists at: nat :: Reaches(data, index, at) && MapAsKey(data, at)
  }

  ghost predicate MeetsMapKeyInPairs(data: seq<byte>, index: nat, count: nat) {
    exists at: nat :: ReachesPairs(data, index, count, at) && MapAsKey(data, at)
  }

  lemma {:induction false} TypeErrorIff(data: seq<byte>, index: nat)
    ensures DecodeItem(false, data, index) == Err(TypeError) <==> MeetsMapKey(data, index)
    decreases Remaining(data, index), 0
  {
    hide DecodePairs, DecodeUint, IsUtf8, MapAsKey, ReachesPairs;
    if index < |data| {
      UintErrors(data[index] % 32, data, index + 1);
      var head := DecodeUint(false, data[index] % 32, data, index + 1);
      if data[index] / 32 == 5 && head.Ok? {
        TypeErrorInPairsIff(data, head.value.1, head.value.0, []);
        assert forall at: nat :: Reaches(data, index, at) <==> ReachesPairs(data, head.value.1, head.value.0, at);
      }
    }
  }

  lemma UintErrors(info: nat, data: seq<byte>, index: nat)
    ensures DecodeUint(false, info, data, index) != Err(TypeError)
  {}

  lemma {:induction false} TypeErrorInPairsIff(data: seq<byte>, index: nat, count: nat, done: seq<Entry>)
    ensures DecodePairs(false, data, index, count, done) == Err(TypeError) <==> MeetsMapKeyInPairs(data, index, count)
    decreases Remaining(data, index), 1
  {
    hide DecodeItem, Put, Reaches, DecodeUint;
    if count > 0 {
      TypeErrorIff(data, index);
      var key := DecodeItem(false, data, index);
      if key.Ok? {
        TypeErrorIff(data, key.value.1);
        var val := DecodeItem(false, data, key.value.1);
        if val.Ok? && !key.value.0.Map? {
          TypeErrorInPairsIff(data, val.value.1, count - 1, Put(done, key.value.0, val.value.0));
        }
      }
      PairsMeet(data, index, count);
    }
  }

  /** One pair: at its own position, inside its key, inside its value, or further on. */
  lemma PairsMeet(data: seq<byte>, index: nat, count: nat)
    requires count > 0
    ensures var key := DecodeItem(false, data, index);
      MeetsMapKeyInPairs(data, index, count) <==>
        || MapAsKey(data, index)
        || MeetsMapKey(data, index)
        || (key.Ok? && MeetsMapKey(data, key.value.1))
        || (key.Ok? && !key.value.0.Map? && DecodeItem(false, data, key.value.1).Ok?
            && MeetsMapKeyInPairs(data, DecodeItem(false, data, key.value.1).value.1, count - 1))
  {
    hide DecodeItem, Reaches, MapAsKey;
    var key := DecodeItem(false, data, index);
    if MapAsKey(data, index) { assert ReachesPairs(data, index, count, index); }
    if at: nat :| Reaches(data, index, at) && MapAsKey(data, at) { assert ReachesPairs(data, index, count, at); }
    if key.Ok? {
      if at: nat :| Reaches(data, key.value.1, at) && MapAsKey(data, at) { assert ReachesPairs(data, index, count, at); }
      var val := DecodeItem(false, data, key.value.1);
      if val.Ok? && !key.value.0.Map? {
        if at: nat :| ReachesPairs(data, val.value.1, count - 1, at) && MapAsKey(data, at) {
          assert ReachesPairs(data, index, count, at);
        }
      }
    }
  }

  datatype Handled = Message(value: Value) | Invalid | Raised(error: Error)

  /** The end of `read_message`: some errors become an invalid message, the others are not caught. */
  function ReadPayload(data: seq<byte>): Handled {
    match DecodeMap(false, data)
    case Ok(v) => Message(v)
    case Err(e) => if e.ValueError? || e.IndexError? || e.UnicodeDecodeError? then Invalid else Raised(e)
  }

  /** An error escapes the handler exactly when the decoder comes to a map used as a key, and it is a
      TypeError then. */
  lemma EscapesIff(data: seq<byte>)
    ensures ReadPayload(data).Raised? <==> MeetsMapKey(data, 0)
    ensures ReadPayload(data).Raised? ==> ReadPayload(data).error == TypeError
  {
    hide DecodeItem, MeetsMapKey;
    TypeErrorIff(data, 0);
    DecodeErrors(data, 0);
  }

  lemma {:induction false} DecodeErrors(data: seq<byte>, index: nat)
    ensures DecodeItem(false, data, index) != Err(OverflowError)
    decreases Remaining(data, index), 0
  {
    hide DecodePairs, IsUtf8;
    if index < |data| {
      var head := DecodeUint(false, data[index] % 32, data, index + 1);
      if head.Ok? { PairErrors(data, head.value.1, head.value.0, []); }
    }
  }

  lemma {:induction false} PairErrors(data: seq<byte>, index: nat, count: nat, done: seq<Entry>)
    ensures DecodePairs(false, data, index, count, done) != Err(OverflowError)
    decreases Remaining(data, index), 1
  {
    hide DecodeItem, Put;
    if count > 0 {
      DecodeErrors(data, index);
      var key := DecodeItem(false, data, index);
      if key.Ok? {
        DecodeErrors(data, key.value.1);
        var val := DecodeItem(false, data, key.value.1);
        if val.Ok? && !key.value.0.Map? {
          PairErrors(data, val.value.1, count - 1, Put(done, key.value.0, val.value.0));
        }
      }
    }
  }

  /** Three bytes that do: a map from the empty map to 0. */
  lemma EscapingPayload()
    ensures ReadPayload([0xA1, 0xA0, 0x00]) == Raised(TypeError)
  {
    var data: seq<byte> := [0xA1, 0xA0, 0x00];
    assert DecodeItem(false, data, 1) == DecodePairs(false, data, 2, 0, []) == Ok((Map([]), 2));
    assert DecodeItem(false, data, 2) == Ok((Int(0), 3));
    assert DecodeItem(false, data, 0) == DecodePairs(false, data, 1, 1, []);
  }

  // ---- round trip ----

  predicate At(data: seq<byte>, index: nat, s: seq<byte>) {
    index + |s| <= |data| && data[index..index + |s|] == s
  }

  lemma AtSplit(data: seq<byte>, index: nat, a: seq<byte>, b: seq<byte>)
    requires At(data, index, a + b)
    ensures At(data, index, a) && At(data, index + |a|, b)
  {
    var s := data[index..index + |a + b|];
    assert s[..|a|] == a && s[|a|..] == b;
    assert data[index..index + |a|] == s[..|a|] && data[index + |a|..index + |a| + |b|] == s[|a|..];
  }

  lemma WideRoundTrip(checked: bool, data: seq<byte>, index: nat, n: nat, w: nat)
    requires n < Pow256(w) && At(data, index, ToBytes(n, w))
    ensures Wide(checked, data, index, w) == Ok((n, index + w))
  {
    ToBytesRoundTrip(n, w);
    if w == 0 { assert ToBytes(n, 0) == []; } else { assert Slice(checked, data, index, index + w) == Ok(ToBytes(n, w)); }
  }

  lemma WideHead(checked: bool, data: seq<byte>, index: nat, first: byte, n: nat, w: nat)
    requires n < Pow256(w) && At(data, index, [first] + ToBytes(n, w))
    ensures index < |data| && data[index] == first && Wide(checked, data, index + 1, w) == Ok((n, index + 1 + w))
  {
    hide ToBytes, FromBytes, Pow256;
    AtSplit(data, index, [first], ToBytes(n, w));
    assert data[index] == data[index..index + 1][0];
    WideRoundTrip(checked, data, index + 1, n, w);
  }

  lemma ShortHead(data: seq<byte>, index: nat, s: seq<byte>)
    requires 1 <= |s| <= 2 && At(data, index, s)
    ensures index + |s| <= |data| && data[index] == s[0] && (|s| == 2 ==> data[index + 1] == s[1])
  {
    var t := data[index..index + |s|];
    assert t[0] == data[index] && (|s| == 2 ==> t[1] == data[index + 1]);
  }

  lemma HeadRoundTrip(checked: bool, data: seq<byte>, index: nat, major: nat, n: nat)
    requires major < 8 && n < TWO_64 && At(data, index, EncodeUint(major, n))
    ensures index < |data| && data[index] / 32 == major
    ensures DecodeUint(checked, data[index] % 32, data, index + 1) == Ok((n, index + |EncodeUint(major, n)|))
  {
    hide At, Wide, Pow256;
    Widths();
    if n <= 0xFF {
      ShortHead(data, index, EncodeUint(major, n));
    } else {
      var w := if n <= 0xFFFF then 2 else if n <= 0xFFFF_FFFF then 4 else 8;
      WideHead(checked, data, index, EncodeUint(major, n)[0], n, w);
    }
  }

  lemma SliceAt(checked: bool, data: seq<byte>, index: nat, s: seq<byte>)
    requires At(data, index, s)
    ensures Slice(checked, data, index, index + |s|) == Ok(s)
  {}

  /** Decoding the encoding of any value, wherever it stands in the data, gives that value back and
      stops right behind it. */
  lemma {:induction false} RoundTripAt(checked: bool, data: seq<byte>, index: nat, v: Value)
    requires WellFormed(v) && At(data, index, EncodeItem(v))
    ensures DecodeItem(checked, data, index) == Ok((v, index + |EncodeItem(v)|))
    decreases v, 1
  {
    hide EncodeUint, DecodeUint, IsUtf8, At, Slice, EncodeEntries, DecodePairs;
    match v
    case Int(i) =>
      HeadRoundTrip(checked, data, index, if i < 0 then 1 else 0, if i < 0 then -1 - i else i);
    case Bytes(b) =>
      AtSplit(data, index, EncodeUint(2, |b|), b);
      HeadRoundTrip(checked, data, index, 2, |b|);
      SliceAt(checked, data, index + |EncodeUint(2, |b|)|, b);
    case Text(u) =>
      AtSplit(data, index, EncodeUint(3, |u|), u);
      HeadRoundTrip(checked, data, index, 3, |u|);
      SliceAt(checked, data, index + |EncodeUint(3, |u|)|, u);
    case Map(es) =>
      AtSplit(data, index, EncodeUint(5, |es|), EncodeEntries(es));
      HeadRoundTrip(checked, data, index, 5, |es|);
      EntriesRoundTrip(checked, data, index + |EncodeUint(5, |es|)|, es, []);
      assert [] + es == es;
  }

  lemma {:induction false} EntriesRoundTrip(checked: bool, data: seq<byte>, index: nat, es: seq<Entry>, done: seq<Entry>)
    requires WellFormedEntries(es) && DistinctKeys(done + es) && At(data, index, EncodeEntries(es))
    ensures DecodePairs(checked, data, index, |es|, done) == Ok((Map(done + es), index + |EncodeEntries(es)|))
    decreases es, 0
  {
    hide EncodeItem, DecodeItem, EncodeEntry, At, WellFormed;
    if es == [] {
      assert done + es == done;
    } else {
      AtSplit(data, index, EncodeEntry(es[0]), EncodeEntries(es[1..]));
      EntryRoundTrip(checked, data, index, es[0]);
      PutFresh(done, es);
      assert (done + [es[0]]) + es[1..] == done + es;
      EntriesRoundTrip(checked, data, index + |EncodeEntry(es[0])|, es[1..], done + [es[0]]);
    }
  }

  lemma {:induction false} EntryRoundTrip(checked: bool, data: seq<byte>, index: nat, e: Entry)
    requires WellFormedEntry(e) && At(data, index, EncodeEntry(e))
    ensures DecodeItem(checked, data, index) == Ok((e.key, index + |EncodeItem(e.key)|))
    ensures DecodeItem(checked, data, index + |EncodeItem(e.key)|) == Ok((e.val, index + |EncodeEntry(e)|))
    decreases e, 0
  {
    hide EncodeItem, DecodeItem, At, WellFormed;
    AtSplit(data, index, EncodeItem(e.key), EncodeItem(e.val));
    RoundTripAt(checked, data, index, e.key);
    RoundTripAt(checked, data, index + |EncodeItem(e.key)|, e.val);
  }

  lemma {:induction false} PutFresh(done: seq<Entry>, es: seq<Entry>)
    requires es != [] && DistinctKeys(done + es)
    ensures Put(done, es[0].key, es[0].val) == done + [es[0]]
  {
    if done != [] {
      assert (done + es)[0] == done[0] && (done + es)[|done|] == es[0];
      assert (done + es)[1..] == done[1..] + es;
      PutFresh(done[1..], es);
    }
  }

  /** The decoder inverts the encoder and leaves any following bytes unread. */
  lemma RoundTrip(v: Value, rest: seq<byte>)
    requires WellFormed(v)
    ensures DecodeItem(false, EncodeItem(v) + rest, 0) == Ok((v, |EncodeItem(v)|))
  {
    RoundTripAt(false, EncodeItem(v) + rest, 0, v);
  }

  /** No encoding is a proper prefix of another. */
  lemma PrefixFree(v: Value, w: Value)
    requires WellFormed(v) && WellFormed(w) && EncodeItem(v) <= EncodeItem(w)
    ensures v == w
  {
    var rest := EncodeItem(w)[|EncodeItem(v)|..];
    assert EncodeItem(v) + rest == EncodeItem(w) && EncodeItem(w) + [] == EncodeItem(w);
    RoundTrip(v, rest);
    RoundTrip(w, []);
  }

  // ---- canonical length ----

  /** No head that decodes to the same number is shorter than the encoder's. */
  lemma ShortestHead(data: seq<byte>, index: nat, major: nat)
    requires index < |data| && major < 8
    requires DecodeUint(true, data[index] % 32, data, index + 1).Ok?
    ensures var r := DecodeUint(true, data[index] % 32, data, index + 1).value;
      r.0 < TWO_64 && |EncodeUint(major, r.0)| <= r.1 - index
  {
    Widths();
    var info := data[index] % 32;
    if 25 <= info <= 27 {
      var w := if info == 25 then 2 else if info == 26 then 4 else 8;
      FromBytesBound(data[index + 1..index + 1 + w]);
    }
  }

  lemma HeadGrows(major: nat, a: nat, b: nat)
    requires major < 8 && a <= b < TWO_64
    ensures |EncodeUint(major, a)| <= |EncodeUint(major, b)|
  {}

  /** Assigning to a dict keeps its keys distinct and adds at most one encoded entry. */
  lemma {:induction false} PutCost(es: seq<Entry>, key: Value, val: Value)
    requires WellFormedEntries(es) && DistinctKeys(es) && WellFormedEntry(Entry(key, val))
    ensures var p := Put(es, key, val);
      && WellFormedEntries(p) && DistinctKeys(p) && |p| <= |es| + 1
      && |EncodeEntries(p)| <= |EncodeEntries(es)| + |EncodeEntry(Entry(key, val))|
    ensures forall e :: e in Put(es, key, val) ==> e.key == key || e in es
  {
    hide EncodeItem, WellFormed;
    if es == [] {
      assert EncodeEntries([Entry(key, val)]) == EncodeEntry(Entry(key, val)) + EncodeEntries([]);
    } else if es[0].key == key {
      var p := Put(es, key, val);
      assert p[1..] == es[1..] && forall i :: 1 <= i < |p| ==> p[i] == es[i];
    } else {
      var p := Put(es, key, val);
      PutCost(es[1..], key, val);
      assert p[1..] == Put(es[1..], key, val);
      forall j | 1 <= j < |p| ensures p[0].key != p[j].key { assert p[j] == p[1..][j - 1] && p[j] in p[1..]; }
      forall i, j | 1 <= i < j < |p| ensures p[i].key != p[j].key {
        assert p[i] == p[1..][i - 1] && p[j] == p[1..][j - 1];
      }
    }
  }

  /** Whatever decodes is well formed, and its own encoding is no longer than what was read. */
  lemma {:induction false} DecodedItem(data: seq<byte>, index: nat)
    requires DecodeItem(true, data, index).Ok?
    ensures var r := DecodeItem(true, data, index).value;
      WellFormed(r.0) && |EncodeItem(r.0)| <= r.1 - index
    decreases Remaining(data, index), 0
  {
    hide EncodeUint, DecodeUint, IsUtf8;
    ShortestHead(data, index, data[index] / 32);
    var (n, next) := DecodeUint(true, data[index] % 32, data, index + 1).value;
    if data[index] / 32 == 5 {
      DecodedPairs(data, next, n, []);
      var es := DecodeItem(true, data, index).value.0.entries;
      HeadGrows(5, |es|, n);
    }
  }

  lemma {:induction false} DecodedPairs(data: seq<byte>, index: nat, count: nat, done: seq<Entry>)
    requires WellFormedEntries(done) && DistinctKeys(done)
    requires DecodePairs(true, data, index, count, done).Ok?
    ensures var (m, next) := DecodePairs(true, data, index, count, done).value;
      && WellFormedEntries(m.entries) && DistinctKeys(m.entries) && |m.entries| <= |done| + count
      && |EncodeEntries(m.entries)| <= |EncodeEntries(done)| + next - index
    decreases Remaining(data, index), 1
  {
    hide EncodeItem, DecodeItem, WellFormed, EncodeEntries, DistinctKeys, WellFormedEntries;
    if count > 0 {
      DecodedItem(data, index);
      var (key, i) := DecodeItem(true, data, index).value;
      DecodedItem(data, i);
      var (val, j) := DecodeItem(true, data, i).value;
      PutCost(done, key, val);
      DecodedPairs(data, j, count - 1, Put(done, key, val));
    }
  }

  /** Re-encoding an accepted payload gives an accepted payload of the same value, no longer than before. */
  lemma ReencodeIsCanonical(data: seq<byte>)
    requires DecodeMap(false, data).Ok?
    ensures var v := DecodeMap(false, data).value;
      WellFormed(v) && |EncodeItem(v)| <= |data| && DecodeMap(false, EncodeItem(v)) == Ok(v)
  {
    var v := DecodeMap(false, data).value;
    AcceptedIffInBounds(data, v);
    DecodedItem(data, 0);
    RoundTrip(v, []);
    assert EncodeItem(v) + [] == EncodeItem(v);
  }

  // ---- the wire format ----

  /** The major types of section 3.1 of RFC 8949. */
  lemma MajorTypes(v: Value)
    requires WellFormed(v)
    ensures EncodeItem(v)[0] / 32 ==
      match v
      case Int(i) => (if i < 0 then 1 else 0)
      case Bytes(_) => 2
      case Text(_) => 3
      case Map(_) => 5
  {
    hide EncodeUint;
  }

  /** Examples of appendix A of RFC 8949. */
  lemma StandardExamples()
    ensures EncodeUint(0, 23) == [0x17] && EncodeUint(0, 24) == [0x18, 0x18] && EncodeUint(0, 1000) == [0x19, 0x03, 0xE8]
    ensures EncodeItem(Int(-1)) == [0x20] && EncodeItem(Int(-1000)) == [0x39, 0x03, 0xE7]
    ensures EncodeItem(Bytes([1, 2, 3, 4])) == [0x44, 1, 2, 3, 4]
    ensures EncodeItem(Map([])) == [0xA0]
  {
    hide ToBytes;
    TwoBytes(0x03, 0xE8);
    TwoBytes(0x03, 0xE7);
    assert EncodeEntries([]) == [];
  }

  lemma StandardLargeExamples()
    ensures EncodeUint(0, 1000000) == [0x1A, 0x00, 0x0F, 0x42, 0x40]
    ensures EncodeUint(0, 1000000000000) == [0x1B, 0x00, 0x00, 0x00, 0xE8, 0xD4, 0xA5, 0x10, 0x00]
  {
    hide ToBytes;
    FourBytes(0x000F, 0x4240);
    TwoBytes(0x00, 0x0F);
    TwoBytes(0x42, 0x40);
    EightBytes(0xE8, 0xD4A51000);
    FourBytes(0x0000, 0x00E8);
    TwoBytes(0x00, 0x00);
    TwoBytes(0x00, 0xE8);
    FourBytes(0xD4A5, 0x1000);
    TwoBytes(0xD4, 0xA5);
    TwoBytes(0x10, 0x00);
  }

  lemma TwoBytes(hi: byte, lo: byte)
    ensures ToBytes(hi * 256 + lo, 2) == [hi, lo]
  {
    assert ToBytes(hi, 1) == ToBytes(0, 0) + [hi];
  }

  lemma FourBytes(hi: nat, lo: nat)
    requires hi < 0x1_0000 && lo < 0x1_0000
    ensures ToBytes(hi * 0x1_0000 + lo, 4) == ToBytes(hi, 2) + ToBytes(lo, 2)
  {
    hide ToBytes;
    Widths();
    LowBytes(hi, lo, 2, 2);
  }

  lemma EightBytes(hi: nat, lo: nat)
    requires hi < 0x1_0000_0000 && lo < 0x1_0000_0000
    ensures ToBytes(hi * 0x1_0000_0000 + lo, 8) == ToBytes(hi, 4) + ToBytes(lo, 4)
  {
    hide ToBytes;
    Widths();
    LowBytes(hi, lo, 4, 4);
  }

  lemma {:induction false} LowBytes(hi: nat, lo: nat, k: nat, w: nat)
    requires lo < Pow256(w)
    ensures ToBytes(hi * Pow256(w) + lo, k + w) == ToBytes(hi, k) + ToBytes(lo, w)
  {
    if w > 0 {
      var n := hi * Pow256(w) + lo;
      Shifted(hi, Pow256(w - 1), lo);
      LowBytes(hi, lo / 256, k, w - 1);
    } else {
      assert lo == 0 && ToBytes(lo, 0) == [] && hi * 1 + lo == hi;
    }
  }

  lemma Shifted(hi: nat, p: nat, lo: nat)
    ensures (hi * (256 * p) + lo) / 256 == hi * p + lo / 256 && (hi * (256 * p) + lo) % 256 == lo % 256
  {
    assert hi * (256 * p) == 256 * (hi * p);
  }

  // ---- the loops of the program ----

  lemma {:induction false} EncodeEntriesSnoc(es: seq<Entry>, e: Entry)
    requires WellFormedEntries(es) && WellFormedEntry(e)
    ensures WellFormedEntries(es + [e])
    ensures EncodeEntries(es + [e]) == EncodeEntries(es) + EncodeEntry(e)
  {
    hide EncodeEntry, WellFormedEntry;
    if es == [] {
      assert es + [e] == [e] && EncodeEntries([e]) == EncodeEntry(e) + EncodeEntries([]);
    } else {
      EncodeEntriesSnoc(es[1..], e);
      assert (es + [e])[1..] == es[1..] + [e];
    }
  }

  /** `encode_uint`: `to_bytes` refuses a number that needs more than eight bytes. */
  function EncodeHead(major: nat, value: nat): Result<seq<byte>>
    requires major < 8
  {
    if value < TWO_64 then Ok(EncodeUint(major, value)) else Err(OverflowError)
  }

  /** `encode_item`, which appends to its output for a dict. It fails exactly on a number, or a length,
      of 2^64 or more (below -2^64 for a negative number), however deep inside the value. */
  method EncodeValue(v: Value) returns (r: Result<seq<byte>>)
    requires Possible(v)
    ensures r == if WellFormed(v) then Ok(EncodeItem(v)) else Err(OverflowError)
    decreases v
  {
    match v
    case Int(i) => r := if i < 0 then EncodeHead(1, -1 - i) else EncodeHead(0, i);
    case Bytes(b) =>
      var head := EncodeHead(2, |b|);
      r := if head.Ok? then Ok(head.value + b) else head;
    case Text(u) =>
      var head := EncodeHead(3, |u|);
      r := if head.Ok? then Ok(head.value + u) else head;
    case Map(es) => r := EncodeDict(es);
  }

  method EncodeDict(es: seq<Entry>) returns (r: Result<seq<byte>>)
    requires Possible(Map(es))
    ensures r == if WellFormed(Map(es)) then Ok(EncodeItem(Map(es))) else Err(OverflowError)
    decreases es
  {
    hide EncodeUint, IsUtf8, EncodeItem;
    r := EncodeHead(5, |es|);
    if r.Err? { return; }
    var output := r.value;
    assert es[..0] == [];
    for i := 0 to |es|
      invariant WellFormedEntries(es[..i])
      invariant output == EncodeUint(5, |es|) + EncodeEntries(es[..i])
    {
      var e := es[i];
      assert PossibleEntry(e) && e in es;
      var key := EncodeValue(e.key);
      if key.Err? { assert !WellFormedEntry(es[i]); return key; }
      output := output + key.value;
      var val := EncodeValue(e.val);
      if val.Err? { assert !WellFormedEntry(es[i]); return val; }
      output := output + val.value;
      EncodeEntriesSnoc(es[..i], e);
      assert es[..i + 1] == es[..i] + [e];
    }
    assert es[..|es|] == es;
    DictEncoding(es);
    r := Ok(output);
  }

  lemma DictEncoding(es: seq<Entry>)
    requires WellFormed(Map(es))
    ensures EncodeItem(Map(es)) == EncodeUint(5, |es|) + EncodeEntries(es)
  {}

  /** `decode_item`, which loops over the claimed number of pairs and fills a dict. */
  method DecodeValue(data: seq<byte>, start: nat) returns (r: Result<(Value, nat)>)
    ensures r == DecodeItem(false, data, start)
    decreases Remaining(data, start)
  {
    hide IsUtf8, DecodeUint, Put;
    if start >= |data| { return Err(IndexError); }
    var major, info := data[start] / 32, data[start] % 32;
    if major == 4 || major > 5 { return Err(ValueError); }
    var head := DecodeUint(false, info, data, start + 1);
    if head.Err? { return Err(head.error); }
    var (n, index) := head.value;
    if major == 0 { return Ok((Int(n), index)); }
    if major == 1 { return Ok((Int(-1 - (n as int)), index)); }
    if major != 5 {
      var s := Slice(false, data, index, index + n).value;
      if major == 2 { return Ok((Bytes(s), index + n)); }
      return if IsUtf8(s) then Ok((Text(s), index + n)) else Err(UnicodeDecodeError);
    }
    var dict: seq<Entry>, i := [], 0;
    while i < n
      invariant start < index && i <= n
      invariant DecodeItem(false, data, start) == DecodePairs(false, data, index, n - i, dict)
    {
      var k := DecodeValue(data, index);
      if k.Err? { return Err(k.error); }
      var v := DecodeValue(data, k.value.1);
      if v.Err? { return Err(v.error); }
      if k.value.0.Map? { return Err(TypeError); }
      dict, index, i := Put(dict, k.value.0, v.value.0), v.value.1, i + 1;
    }
    r := Ok((Map(dict), index));
  }
}
