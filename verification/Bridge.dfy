/** The companion's bridge between the connector stream and two storage queues.

Every `await` may fail, and the whole downstream pump may be dropped at any `await` when
the upstream side ends or a shutdown is requested; a dropped pump simply stops there.
Such choices are left open with `*`, so each contract speaks of every run; `faults` counts
them, so that a contract can say what happens without any. What the queue holds is a
parameter. */
module Bridge {
  import opened BigEndian
  import opened Frames
  import opened Wrappers

  // ---- upstream: stream to queue ----

  /** The read half: `Read` hands out the stream in chunks of any size. */
  class Reader {
    const stream: seq<byte>
    var pos: nat
    ghost var faults: nat

    ghost predicate Valid()
      reads this
    {
      pos <= |stream|
    }

    ghost function Rest(): seq<byte>
      requires Valid()
      reads this
    {
      stream[pos..]
    }

    constructor (stream: seq<byte>)
      ensures Valid() && this.stream == stream && pos == 0
    {
      this.stream := stream;
      pos, faults := 0, 0;
    }

    method Read(max: nat) returns (ok: bool, chunk: seq<byte>)
      requires Valid() && max > 0
      modifies this`pos, this`faults
      ensures faults >= old(faults) && (ok <==> faults == old(faults))
      ensures Valid() && pos == old(pos) + |chunk| && |chunk| <= max && chunk == stream[old(pos)..pos]
      ensures ok ==> (chunk == [] <==> old(Rest()) == [])
      ensures !ok ==> chunk == []
    {
      ok := *;
      if !ok { faults := faults + 1; }
      var n := 0;
      if ok && pos < |stream| {
        n :| 1 <= n <= max && n <= |stream| - pos;
      }
      chunk := stream[pos..pos + n];
      pos := pos + n;
    }
  }

  datatype ReadResult = Read(item: Item) | IoError

  /** `read_framed`: whatever the chunking, it returns what stands in front of the stream. */
  method ReadFramed(reader: Reader) returns (r: ReadResult)
    requires reader.Valid()
    modifies reader`pos, reader`faults
    ensures reader.Valid() && reader.pos >= old(reader.pos)
    ensures reader.faults >= old(reader.faults) && (r.Read? <==> reader.faults == old(reader.faults))
    ensures r.Read? ==> r.item == Next(old(reader.Rest()))
    ensures r.Read? && r.item.Frame? ==> reader.pos == old(reader.pos) + 4 + |r.item.payload|
  {
    ghost var start := reader.pos;
    var len: seq<byte> := [];
    while |len| < 4
      invariant reader.Valid() && |len| <= 4 && reader.pos == start + |len| && reader.faults == old(reader.faults)
      invariant len == reader.stream[start..reader.pos]
    {
      var ok, chunk := reader.Read(4 - |len|);
      if !ok { return IoError; }
      if chunk == [] { return Read(if len == [] then Eof else EofInPrefix); }
      len := len + chunk;
    }
    var n := FromBytes(len);
    assert reader.stream[start..][..4] == len;
    if n > MAX_FRAME_LENGTH { return Read(Oversize); }
    var payload: seq<byte> := [];
    while |payload| < n
      invariant reader.Valid() && |payload| <= n && reader.pos == start + 4 + |payload| && reader.faults == old(reader.faults)
      invariant payload == reader.stream[start + 4..reader.pos]
    {
      var ok, chunk := reader.Read(n - |payload|);
      if !ok { return IoError; }
      if chunk == [] { return Read(EofInPayload); }
      payload := payload + chunk;
    }
    assert reader.stream[start..][4..4 + n] == payload;
    r := Read(Frame(payload));
  }

  /** The upstream queue. A publish that fails may still have reached it. */
  class Publisher {
    var queue: seq<Payload>
    ghost var faults: nat

    constructor ()
      ensures queue == []
    {
      queue, faults := [], 0;
    }

    method Publish(payload: Payload) returns (ok: bool)
      modifies this
      ensures faults >= old(faults) && (ok <==> faults == old(faults))
      ensures queue == old(queue) + [payload] || (!ok && queue == old(queue))
    {
      ok := *;
      var stored: bool := *;
      if !ok { faults := faults + 1; }
      if ok || stored { queue := queue + [payload]; }
    }
  }

  datatype UpstreamEnd = CleanEof | Broken(item: Item) | StreamError | PublishError

  /** The upstream future: frames are published in order until the stream ends or something fails. Without a
      fault all frames of the stream are published, and the end is the stream's own. */
  method PumpUpstream(reader: Reader, publisher: Publisher) returns (end: UpstreamEnd)
    requires reader.Valid()
    modifies reader`pos, reader`faults, publisher
    ensures old(publisher.queue) <= publisher.queue && publisher.queue[|old(publisher.queue)|..] <= Parse(old(reader.Rest())).0
    ensures var whole := Parse(old(reader.Rest()));
      reader.faults == old(reader.faults) && publisher.faults == old(publisher.faults) ==>
        publisher.queue == old(publisher.queue) + whole.0 && end == if whole.1.Eof? then CleanEof else Broken(whole.1)
    ensures end.CleanEof? || end.Broken? ==> reader.faults == old(reader.faults) && publisher.faults == old(publisher.faults)
  {
    hide Parse, Next;
    ghost var whole, before := Parse(reader.Rest()), publisher.queue;
    ghost var done: seq<Payload> := [];
    while true
      invariant reader.Valid() && publisher.queue == before + done
      invariant reader.faults == old(reader.faults) && publisher.faults == old(publisher.faults)
      invariant whole.0 == done + Parse(reader.Rest()).0 && whole.1 == Parse(reader.Rest()).1
      decreases |reader.stream| - reader.pos
    {
      ghost var rest := reader.Rest();
      var r := ReadFramed(reader);
      if r.IoError? { return StreamError; }
      if !r.item.Frame? {
        EndOfParse(rest);
        assert done + [] == done;
        return if r.item.Eof? then CleanEof else Broken(r.item);
      }
      FrontOfParse(rest);
      assert reader.Rest() == rest[4 + |r.item.payload|..];
      var ok := publisher.Publish(r.item.payload);
      if !ok { return PublishError; }
      done := done + [r.item.payload];
    }
  }

  /** If the gateway wrote frames and the stream was cut anywhere, the published payloads are the first
      of those frames in order; all of them and no error exactly when nothing was cut off. */
  lemma UpstreamLossless(ps: seq<Payload>, n: nat, published: seq<Payload>)
    requires AllFit(ps) && n <= |FramesOf(ps)| && published <= Parse(FramesOf(ps)[..n]).0
    ensures published <= ps
    ensures n == |FramesOf(ps)| ==> Parse(FramesOf(ps)[..n]) == (ps, Eof)
    ensures Parse(FramesOf(ps)[..n]).1 == Eof <==> exists k :: 0 <= k <= |ps| && n == |FramesOf(ps[..k])|
    ensures !Parse(FramesOf(ps)[..n]).1.Oversize?
  {
    var k := CutStream(ps, n);
    ParseInvertsFrames(ps);
    if n == |FramesOf(ps)| { assert FramesOf(ps)[..n] == FramesOf(ps); }
    forall j | 0 <= j <= |ps| && n == |FramesOf(ps[..j])| ensures Parse(FramesOf(ps)[..n]).1 == Eof {
      FramesSplit(ps, j);
      assert FramesOf(ps)[..n] == FramesOf(ps[..j]);
      ParseInvertsFrames(ps[..j]);
    }
  }

  // ---- downstream: queue to stream ----

  datatype Message = Message(id: string, body: Payload)

  function Bodies(ms: seq<Message>): seq<Payload> {
    seq(|ms|, i requires 0 <= i < |ms| => ms[i].body)
  }

  datatype Fault = StillInflight | NothingInflight | TooLarge | QueueError | WriteError

  /** How an async operation ends; `Dropped` means its future was dropped at an await. */
  datatype Outcome = Done | Failed(fault: Fault) | Dropped

  datatype Received = Got(payload: Payload) | Empty | NotReceived(outcome: Outcome)

  /** The first bytes of a frame that fits, or none at all. */
  predicate Begun(body: Payload, partial: seq<byte>) {
    partial <= FrameOf(body) && (partial != [] ==> Fits(body))
  }

  lemma OneMoreFrame(ms: seq<Message>, m: Message)
    requires AllFit(Bodies(ms)) && Fits(m.body)
    ensures AllFit(Bodies(ms + [m])) && FramesOf(Bodies(ms + [m])) == FramesOf(Bodies(ms)) + FrameOf(m.body)
  {
    assert Bodies(ms + [m]) == Bodies(ms) + [m.body];
    FramesSnoc(Bodies(ms), m.body);
  }

  class Downstream {
    /** The consumer's field, and the bytes the write half has taken. */
    var inflight: Option<Message>
    var wire: seq<byte>

    /** What happened so far: messages handed out, frames written and flushed whole, DELETE requests. */
    ghost var received: seq<Message>
    ghost var delivered: seq<Message>
    ghost var deletes: seq<Message>
    /** Messages asked to be made visible in the queue again. */
    ghost var returned: seq<Message>
    /** Bytes of a frame not (yet) flushed whole. */
    ghost var partial: seq<byte>
    /** Awaits that failed or were where a future was dropped. */
    ghost var faults: nat

    /** Bytes are whole frames of the received messages in order plus at most one unfinished frame. DELETE
        requests are for the messages flushed whole, one each and in the same order, at most the last
        one still missing; so each was issued after its own flush, also for a message handed out twice. */
    ghost predicate Valid()
      reads this
    {
      && AllFit(Bodies(delivered))
      && wire == FramesOf(Bodies(delivered)) + partial
      && deletes <= delivered && |delivered| <= |deletes| + 1
      && (inflight.Some? ==> received != [] && inflight.value == received[|received| - 1])
      && ( || (received == delivered && partial == [])
           || (|received| == |delivered| + 1 && delivered == received[..|delivered|]
               && Begun(received[|delivered|].body, partial)))
    }

    /** Nothing in flight and no frame begun. */
    ghost predicate AtLoopHead()
      reads this
    {
      Valid() && inflight.None? && received == delivered == deletes
    }

    constructor ()
      ensures AtLoopHead() && received == [] && deletes == [] && wire == []
    {
      inflight, wire, received, delivered, deletes, returned, partial, faults := None, [], [], [], [], [], [], 0;
    }

    /** An await that goes through, fails, or is where the future is dropped. */
    method Await() returns (r: Outcome)
      modifies this`faults
      ensures r == Done || r == Failed(QueueError) || r == Dropped
      ensures faults >= old(faults) && (r.Done? <==> faults == old(faults))
    {
      var a, b: bool := *, *;
      r := if a then Done else if b then Failed(QueueError) else Dropped;
      if !a { faults := faults + 1; }
    }

    /** The consumer's `receive`; `queued` is the message the queue would hand out. */
    method Receive(queued: Option<Message>) returns (r: Received)
      requires Valid() && (inflight.None? ==> AtLoopHead())
      modifies this`inflight, this`received, this`returned, this`faults
      ensures old(inflight).Some? ==> r == NotReceived(Failed(StillInflight)) && faults == old(faults)
      ensures !r.Got? ==> inflight == old(inflight) && received == old(received)
      ensures r.Got? ==> Valid() && queued.Some? && Fits(queued.value.body) && r.payload == queued.value.body
      ensures r.Got? ==> inflight == queued && received == old(received) + [queued.value]
      ensures old(inflight).None? ==> r != NotReceived(Failed(StillInflight))
      ensures faults >= old(faults) && (r.Got? ==> faults == old(faults))
      ensures returned == old(returned) || (Refused(queued) && returned == old(returned) + [queued.value])
      ensures old(inflight).None? && faults == old(faults) && Refused(queued) ==> returned == old(returned) + [queued.value]
      ensures old(inflight).None? && faults == old(faults) ==>
                r == if queued.None? then Empty else if Fits(queued.value.body) then Got(queued.value.body) else NotReceived(Failed(TooLarge))
    {
      if inflight.Some? { return NotReceived(Failed(StillInflight)); }
      var asked := Await();
      if !asked.Done? { return NotReceived(asked); }
      if queued.None? {
        // An empty queue is waited out before the next poll.
        var slept := Await();
        return if slept.Dropped? then NotReceived(Dropped) else Empty;
      }
      var m := queued.value;
      if !Fits(m.body) {
        // The message is handed back; whether that works is only logged.
        returned := returned + [m];
        var handedBack := Await();
        return NotReceived(if handedBack.Dropped? then Dropped else Failed(TooLarge));
      }
      inflight := Some(m);
      received := received + [m];
      r := Got(m.body);
    }

    /** `write_framed`: any number of bytes may have gone out when it fails or is dropped. */
    method WriteFramed(payload: Payload) returns (r: Outcome)
      requires Valid() && received != [] && payload == received[|received| - 1].body
      requires |received| == |delivered| + 1 && partial == [] && deletes == delivered
      modifies this`wire, this`partial, this`delivered, this`faults
      ensures Valid() && r != Failed(StillInflight)
      ensures r.Done? ==> delivered == received && partial == [] && wire == old(wire) + FrameOf(payload)
      ensures faults >= old(faults) && (r.Done? ==> faults == old(faults))
      ensures faults == old(faults) ==> r == if Fits(payload) then Done else Failed(TooLarge)
      ensures !r.Done? ==> delivered == old(delivered)
    {
      hide FramesOf, FrameOf, AllFit, Bodies;
      if !Fits(payload) { return Failed(TooLarge); }
      var frame := FrameOf(payload);
      var taken: nat :| taken <= |frame|;
      wire := wire + frame[..taken];
      partial := frame[..taken];
      if taken < |frame| {
        var why: bool := *;
        faults := faults + 1;
        return if why then Dropped else Failed(WriteError);
      }
      var flushed := Await();
      if !flushed.Done? { return if flushed.Dropped? then Dropped else Failed(WriteError); }
      assert frame[..taken] == frame;
      delivered, partial := delivered + [received[|received| - 1]], [];
      OneMoreFrame(old(delivered), received[|received| - 1]);
      r := Done;
    }

    /** The consumer's `complete`: one DELETE, then the field is cleared. */
    method Complete() returns (r: Outcome)
      requires Valid() && inflight.Some? && received == delivered == deletes + [inflight.value]
      modifies this`inflight, this`deletes, this`faults
      ensures Valid() && r != Failed(StillInflight)
      ensures faults >= old(faults) && (r.Done? <==> faults == old(faults))
      ensures r.Done? ==> inflight.None? && deletes == old(deletes) + [old(inflight).value]
      ensures !r.Done? ==> inflight == old(inflight) && (deletes == old(deletes) || deletes == old(deletes) + [inflight.value])
    {
      var token := Await();
      if !token.Done? { return token; }
      deletes := deletes + [inflight.value];
      var reply := Await();
      if !reply.Done? { return reply; }
      inflight := None;
      r := Done;
    }

    /** The consumer's `abandon_inflight`. */
    method AbandonInflight() returns (r: Outcome)
      requires Valid()
      modifies this`inflight, this`returned, this`faults
      ensures Valid() && (inflight == old(inflight) || inflight.None?)
      ensures r == Done ==> inflight.None?
      ensures returned == if old(inflight).Some? then old(returned) + [old(inflight).value] else old(returned)
      ensures faults >= old(faults) && (faults == old(faults) ==> r == Done || old(inflight).None?)
    {
      if inflight.None? { return Done; }
      r := Abandon();
    }

    /** The consumer's `abandon`. */
    method Abandon() returns (r: Outcome)
      requires Valid()
      modifies this`inflight, this`returned, this`faults
      ensures Valid() && (inflight == old(inflight) || inflight.None?)
      ensures r == Done ==> inflight.None?
      ensures returned == if old(inflight).Some? then old(returned) + [old(inflight).value] else old(returned)
      ensures faults >= old(faults) && (faults == old(faults) ==> r == Done || old(inflight).None?)
    {
      if inflight.None? { return Failed(NothingInflight); }
      returned := returned + [inflight.value];
      r := Await();
      if r.Done? { inflight := None; }
    }

    /** `pump_downstream_once`. Without a fault a message that fits is written as one frame, flushed and
        deleted, one that does not is refused, and an empty queue changes nothing. */
    method Pump(queued: Option<Message>) returns (r: Outcome)
      requires AtLoopHead()
      modifies this
      ensures Valid() && r != Failed(StillInflight) && faults >= old(faults)
      ensures Grown(old(received), old(delivered), old(deletes))
      ensures r.Done? ==> AtLoopHead() && received[|old(received)|..] == deletes[|old(deletes)|..]
      ensures faults == old(faults) ==> AtLoopHead() && Forwarded(Taken(queued), old(wire), old(received))
      ensures faults == old(faults) ==> r == if Refused(queued) then Failed(TooLarge) else Done
      ensures faults == old(faults) && Refused(queued) ==> returned == old(returned) + [queued.value]
      ensures inflight.None? && received != deletes ==> AskedBack()
      ensures r.Failed? ==> received == deletes || AskedBack()
    {
      hide FramesOf, AllFit, Bodies;
      NoFrames();
      var got := Receive(queued);
      if got.Empty? { return Done; }
      if got.NotReceived? { return got.outcome; }
      var written := WriteFramed(got.payload);
      if written.Dropped? { return Dropped; }
      if written.Failed? {
        var handedBack := Abandon();
        return if handedBack.Dropped? then Dropped else written;
      }
      var completed := Complete();
      if completed.Failed? {
        var handedBack := Abandon();
        return if handedBack.Dropped? then Dropped else completed;
      }
      r := completed;
      OneFrame(got.payload);
    }

    /** The last message received was asked to be made visible again. */
    ghost predicate AskedBack()
      reads this
    {
      returned != [] && received != [] && returned[|returned| - 1] == received[|received| - 1]
    }

    /** Exactly these messages were received since, and exactly their frames were written. */
    ghost predicate Forwarded(ms: seq<Message>, wire0: seq<byte>, received0: seq<Message>)
      reads this
    {
      received == received0 + ms && wire == wire0 + FramesOf(Bodies(ms))
    }

    /** History is only added to. */
    ghost predicate Grown(received0: seq<Message>, delivered0: seq<Message>, deletes0: seq<Message>)
      reads this
    {
      received0 <= received && delivered0 <= delivered && deletes0 <= deletes
    }

    /** `bridge_runtime_with_shutdown`, over any number of polls of the queue: a pump that is dropped or fails
        ends the bridge, so each round begins with nothing in flight. Without a fault, all messages up to
        the first that is too large are written and deleted in order, and that one ends the bridge.
        However it ends, the deleted payloads are the first ones readable on the wire. */
    method RunBridge(polls: seq<Option<Message>>) returns (r: Outcome)
      requires AtLoopHead()
      modifies this
      ensures Valid() && r != Failed(StillInflight)
      ensures Grown(old(received), old(delivered), old(deletes))
      ensures r.Done? ==> AtLoopHead() && received[|old(received)|..] == deletes[|old(deletes)|..]
      ensures Bodies(deletes) <= Bodies(delivered) <= Parse(wire).0 <= Bodies(received)
      // A message that was not deleted was asked to be made visible again.
      ensures received == deletes || AskedBack()
      ensures faults == old(faults) ==> AtLoopHead() && Forwarded(Expected(polls), old(wire), old(received))
      ensures faults == old(faults) ==> r == if forall i :: 0 <= i < |polls| ==> !Refused(polls[i]) then Done else Failed(TooLarge)
    {
      hide Parse, FramesOf, FrameOf, AllFit, Bodies, Begun, Refused, Taken, Expected;
      NothingExpected(polls);
      for i := 0 to |polls|
        invariant AtLoopHead() && Grown(old(received), old(delivered), old(deletes)) && faults >= old(faults)
        invariant received[|old(received)|..] == deletes[|old(deletes)|..]
        invariant faults == old(faults) ==> Forwarded(Expected(polls[..i]), old(wire), old(received))
        invariant faults == old(faults) ==> forall k :: 0 <= k < i ==> !Refused(polls[k])
      {
        ghost var r0, d0 := received, deletes;
        r := Pump(polls[i]);
        if faults == old(faults) { NextExpected(polls, i); MoreForwarded(old(wire), old(received), Expected(polls[..i]), Taken(polls[i])); }
        if !r.Done? {
          var handedBack := AbandonInflight();
          DeletedIsReadable(received, delivered, deletes, partial);
          return;
        }
        assert received[|old(received)|..] == r0[|old(received)|..] + received[|r0|..];
        assert deletes[|old(deletes)|..] == d0[|old(deletes)|..] + deletes[|d0|..];
      }
      assert polls[..|polls|] == polls;
      DeletedIsReadable(received, delivered, deletes, partial);
      r := Done;
    }
  }

  /** A message the connector cannot carry. */
  predicate Refused(queued: Option<Message>) {
    queued.Some? && !Fits(queued.value.body)
  }

  /** What a poll without a fault takes from the queue. */
  function Taken(queued: Option<Message>): seq<Message> {
    if queued.Some? && Fits(queued.value.body) then [queued.value] else []
  }

  /** The messages up to the first that is refused. */
  function Expected(polls: seq<Option<Message>>): seq<Message> {
    if polls == [] || Refused(polls[0]) then [] else Taken(polls[0]) + Expected(polls[1..])
  }

  lemma NothingExpected(polls: seq<Option<Message>>)
    ensures Expected(polls[..0]) == [] && Bodies([]) == [] && FramesOf([]) == []
  {}

  /** Up to the first refused message one more poll adds what it takes, and a refused one ends the list. */
  lemma {:induction false} NextExpected(polls: seq<Option<Message>>, i: nat)
    requires i < |polls| && forall k :: 0 <= k < i ==> !Refused(polls[k])
    ensures Expected(polls[..i + 1]) == Expected(polls[..i]) + Taken(polls[i])
    ensures Refused(polls[i]) ==> Expected(polls) == Expected(polls[..i]) && Taken(polls[i]) == []
  {
    if i > 0 {
      NextExpected(polls[1..], i - 1);
      assert polls[..i + 1][1..] == polls[1..][..i] && polls[..i][1..] == polls[1..][..i - 1];
    }
  }

  lemma MoreForwarded(wire: seq<byte>, received: seq<Message>, a: seq<Message>, b: seq<Message>)
    ensures received + (a + b) == received + a + b
    ensures wire + FramesOf(Bodies(a + b)) == wire + FramesOf(Bodies(a)) + FramesOf(Bodies(b))
  {
    FramesOfBoth(a, b);
  }

  lemma FramesOfBoth(a: seq<Message>, b: seq<Message>)
    ensures FramesOf(Bodies(a + b)) == FramesOf(Bodies(a)) + FramesOf(Bodies(b))
  {
    var x, y := Bodies(a), Bodies(b);
    assert Bodies(a + b) == x + y;
    FramesSplit(x + y, |x|);
    assert (x + y)[..|x|] == x && (x + y)[|x|..] == y;
  }

  lemma NoFrames()
    ensures FramesOf(Bodies([])) == []
  {}

  lemma OneFrame(p: Payload)
    ensures forall id :: FramesOf(Bodies([Message(id, p)])) == FrameOf(p)
  {
    forall id ensures FramesOf(Bodies([Message(id, p)])) == FrameOf(p) {
      assert Bodies([Message(id, p)]) == [p];
      assert FramesOf([p]) == FrameOf(p) + FramesOf([]);
    }
  }

  lemma LongerPrefix(ps: seq<Payload>, k: nat, d: nat)
    requires k < d <= |ps|
    ensures |FramesOf(ps[..k])| + |FrameOf(ps[k])| <= |FramesOf(ps[..d])|
  {
    FramesSplit(ps[..d], k);
    assert ps[..d][..k] == ps[..k] && ps[..d][k] == ps[k];
  }

  /** Whole frames and a begun one read back as at least the whole ones. */
  lemma WireReadsBack(ps: seq<Payload>, d: nat, partial: seq<byte>)
    requires AllFit(ps) && d <= |ps|
    requires if d == |ps| then partial == [] else partial <= FrameOf(ps[d])
    ensures ps[..d] <= Parse(FramesOf(ps[..d]) + partial).0 <= ps
  {
    var wire := FramesOf(ps[..d]) + partial;
    FramesSplit(ps, d);
    if d < |ps| {
      assert FramesOf(ps[d..]) == FrameOf(ps[d]) + FramesOf(ps[d..][1..]);
    }
    assert wire == FramesOf(ps)[..|wire|];
    var k := CutStream(ps, |wire|);
    if k < d { LongerPrefix(ps, k, d); }
  }

  /** At least once: what can be read back from the bytes on the wire are the delivered payloads, and then
      at most one more, of the received payloads in order. */
  lemma DeletedIsReadable(received: seq<Message>, delivered: seq<Message>, deletes: seq<Message>, partial: seq<byte>)
    requires AllFit(Bodies(delivered)) && deletes <= delivered
    requires || (received == delivered && partial == [])
             || (|received| == |delivered| + 1 && delivered == received[..|delivered|]
                 && Begun(received[|delivered|].body, partial))
    ensures Bodies(deletes) <= Bodies(delivered) <= Parse(FramesOf(Bodies(delivered)) + partial).0 <= Bodies(received)
  {
    hide Parse, FramesOf, FrameOf;
    var d := |delivered|;
    var bodies := if partial == [] then Bodies(delivered) else Bodies(received);
    assert Bodies(delivered) == bodies[..d] && bodies <= Bodies(received);
    assert AllFit(bodies);
    WireReadsBack(bodies, d, partial);
  }
}
