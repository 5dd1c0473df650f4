/** Length-prefixed frames on the connector stream. */
module Frames {
  import opened BigEndian

  const MAX_FRAME_LENGTH: nat := 1_048_576

  type Payload = seq<byte>

  predicate Fits(p: Payload) {
    |p| <= MAX_FRAME_LENGTH
  }

  predicate AllFit(ps: seq<Payload>) {
    forall i :: 0 <= i < |ps| ==> Fits(ps[i])
  }

  /** What `write_framed` puts on the stream. */
  function FrameOf(p: Payload): seq<byte> {
    ToBytes(|p|, 4) + p
  }

  function FramesOf(ps: seq<Payload>): seq<byte> {
    if ps == [] then [] else FrameOf(ps[0]) + FramesOf(ps[1..])
  }

  datatype Item = Frame(payload: Payload) | Eof | EofInPrefix | EofInPayload | Oversize

  /** What a reader finds at the front of the remaining stream. */
  function Next(s: seq<byte>): (r: Item)
    ensures r.Frame? ==> 4 + |r.payload| <= |s|
  {
    if s == [] then Eof
    else if |s| < 4 then EofInPrefix
    else
      var n := FromBytes(s[..4]);
      if n > MAX_FRAME_LENGTH then Oversize
      else if |s| < 4 + n then EofInPayload
      else Frame(s[4..4 + n])
  }

  /** All frames of a stream, and how it ends. */
  function Parse(s: seq<byte>): (seq<Payload>, Item)
    decreases |s|
  {
    var item := Next(s);
    if !item.Frame? then ([], item)
    else
      var (rest, end) := Parse(s[4 + |item.payload|..]);
      ([item.payload] + rest, end)
  }

  lemma PrefixBytes(p: Payload)
    requires Fits(p)
    ensures FromBytes(ToBytes(|p|, 4)) == |p|
  {
    Widths();
    ToBytesRoundTrip(|p|, 4);
  }

  /** A whole frame in front is read back, and only it. */
  lemma NextReadsFrame(p: Payload, rest: seq<byte>)
    requires Fits(p)
    ensures Next(FrameOf(p) + rest) == Frame(p)
    ensures (FrameOf(p) + rest)[4 + |p|..] == rest
  {
    var s := FrameOf(p) + rest;
    PrefixBytes(p);
    assert s[..4] == ToBytes(|p|, 4) && s[4..4 + |p|] == p;
  }

  /** A cut frame is an end of stream: clean before its first byte, an error after. */
  lemma NextReadsCut(p: Payload, n: nat)
    requires Fits(p) && n < |FrameOf(p)|
    ensures Next(FrameOf(p)[..n]) == if n == 0 then Eof else if n < 4 then EofInPrefix else EofInPayload
  {
    if n >= 4 {
      PrefixBytes(p);
      assert FrameOf(p)[..n][..4] == ToBytes(|p|, 4);
    }
  }

  /** A whole frame in front comes first, then what the rest of the stream holds. */
  lemma FrontOfParse(s: seq<byte>)
    requires Next(s).Frame?
    ensures var p := Next(s).payload;
      Parse(s) == ([p] + Parse(s[4 + |p|..]).0, Parse(s[4 + |p|..]).1)
  {}

  lemma ParseFrame(p: Payload, rest: seq<byte>)
    requires Fits(p)
    ensures Parse(FrameOf(p) + rest) == ([p] + Parse(rest).0, Parse(rest).1)
  {
    NextReadsFrame(p, rest);
  }

  /** However the stream is cut after `n` bytes, the reader gets whole frames from the front of what was
      written and then notices whether the cut fell on a frame boundary. */
  lemma {:induction false} CutStream(ps: seq<Payload>, n: nat) returns (k: nat)
    requires AllFit(ps) && n <= |FramesOf(ps)|
    ensures k <= |ps| && Parse(FramesOf(ps)[..n]).0 == ps[..k]
    ensures |FramesOf(ps[..k])| <= n && (k < |ps| ==> n < |FramesOf(ps[..k])| + |FrameOf(ps[k])|)
    ensures var cut := n - |FramesOf(ps[..k])|;
      Parse(FramesOf(ps)[..n]).1 == if cut == 0 then Eof else if cut < 4 then EofInPrefix else EofInPayload
  {
    hide FrameOf, FromBytes, ToBytes, Parse;
    if ps == [] {
      k := 0;
      EndOfParse([]);
    } else {
      var f, rest := FrameOf(ps[0]), FramesOf(ps[1..]);
      if n < |f| {
        k := 0;
        assert FramesOf(ps)[..n] == f[..n];
        NextReadsCut(ps[0], n);
        EndOfParse(f[..n]);
      } else {
        assert FramesOf(ps)[..n] == f + rest[..n - |f|];
        ParseFrame(ps[0], rest[..n - |f|]);
        var j := CutStream(ps[1..], n - |f|);
        k := j + 1;
        LongerCut(ps, j);
      }
    }
  }

  /** Nothing is read from a stream without a whole frame in front. */
  lemma EndOfParse(s: seq<byte>)
    requires !Next(s).Frame?
    ensures Parse(s) == ([], Next(s))
  {}

  lemma LongerCut(ps: seq<Payload>, j: nat)
    requires j < |ps|
    ensures ps[..j + 1] == [ps[0]] + ps[1..][..j]
    ensures FramesOf(ps[..j + 1]) == FrameOf(ps[0]) + FramesOf(ps[1..][..j])
  {
    assert ps[..j + 1][1..] == ps[1..][..j];
  }

  /** Reading inverts writing. */
  lemma ParseInvertsFrames(ps: seq<Payload>)
    requires AllFit(ps)
    ensures Parse(FramesOf(ps)) == (ps, Eof)
  {
    var n := |FramesOf(ps)|;
    var k := CutStream(ps, n);
    assert FramesOf(ps)[..n] == FramesOf(ps);
    if k < |ps| { FramesSplit(ps, k); }
    assert ps[..|ps|] == ps;
  }

  lemma {:induction false} FramesSplit(ps: seq<Payload>, k: nat)
    requires k <= |ps|
    ensures FramesOf(ps) == FramesOf(ps[..k]) + FramesOf(ps[k..])
    ensures k < |ps| ==> |FramesOf(ps[k..])| >= |FrameOf(ps[k])|
  {
    if k == 0 {
      assert ps[..0] == [] && ps[0..] == ps;
    } else {
      FramesSplit(ps[1..], k - 1);
      assert ps[..k][1..] == ps[1..][..k - 1] && ps[1..][k - 1..] == ps[k..];
    }
  }

  lemma FramesSnoc(ps: seq<Payload>, p: Payload)
    ensures FramesOf(ps + [p]) == FramesOf(ps) + FrameOf(p)
  {
    FramesSplit(ps + [p], |ps|);
    assert (ps + [p])[..|ps|] == ps && (ps + [p])[|ps|..] == [p];
    assert FramesOf([p]) == FrameOf(p) + FramesOf([]);
  }
}
