/** When a request is safe: the exact condition, at any moment of a session.

A session is a list of moves of the client and of the service. Played against a table it
is a run of the cache; which fetches are planned does not depend on the table. */
module CacheSafety {
  import opened RowKeys
  import opened HistoryStore
  import opened SensorCache
  import opened Wrappers

  datatype Move =
    | Ask(pks: seq<string>, q: RequestKey)
    | Finish(fetch: Fetch)
    | CutShort(fetch: Fetch)
    | Drop(fetch: Fetch)
    | Switch

  type World = nat -> Table

  predicate Applies(s: State, m: Move) {
    m.Finish? || m.CutShort? || m.Drop? ==> m.fetch in s.pending
  }

  /** A fetch is answered completely, or cut short before its first row. */
  function EventOf(world: World, s: State, m: Move): Event {
    match m
    case Ask(pks, q) => RequestEvent(pks, q)
    case Finish(f) => SettleEvent(f, Query(world(s.generation), f.key.partition, f.key.range), true)
    case CutShort(f) => SettleEvent(f, map[], false)
    case Drop(f) => FailEvent(f)
    case Switch => ClearEvent
  }

  function Step(world: World, s: State, m: Move): State {
    if Applies(s, m) then Do(s, EventOf(world, s, m)) else s
  }

  function Play(world: World, ms: seq<Move>): State {
    if ms == [] then NEW_SESSION else Step(world, Play(world, ms[..|ms| - 1]), ms[|ms| - 1])
  }

  ghost predicate WorldOk(world: World) {
    forall g: nat :: TableOk(world(g))
  }

  lemma PlaySnoc(world: World, ms: seq<Move>, m: Move)
    ensures Play(world, ms + [m]) == Step(world, Play(world, ms), m)
  {
    assert (ms + [m])[..|ms|] == ms;
  }

  /** Every state of a session is reached by a run of the cache. */
  lemma {:induction false} PlayIsRun(world: World, ms: seq<Move>) returns (states: seq<State>, events: seq<Event>)
    requires WorldOk(world)
    ensures Run(world, states, events) && states[|events|] == Play(world, ms)
  {
    hide Do, TableOk, Query;
    if ms == [] {
      states, events := [NEW_SESSION], [];
    } else {
      var n := |ms| - 1;
      states, events := PlayIsRun(world, ms[..n]);
      var s := Play(world, ms[..n]);
      if Applies(s, ms[n]) {
        var e := EventOf(world, s, ms[n]);
        assert Enabled(world, s, e);
        states, events := states + [Do(s, e)], events + [e];
      }
    }
  }

  // ---- what does not depend on the table ----

  /** Alike but for the rows. */
  ghost predicate SameShape(s: State, t: State) {
    && s.generation == t.generation && s.inFlight == t.inFlight && s.pending == t.pending
    && forall pk :: Part(s, pk).coverage == Part(t, pk).coverage && Part(s, pk).exactKeys == Part(t, pk).exactKeys
  }

  lemma SamePlans(s: State, t: State, pks: seq<string>, q: RequestKey)
    requires SameShape(s, t)
    ensures Plans(s, pks, q) == Plans(t, pks, q)
  {
    hide Plans;
    forall f: Fetch ensures f in Plans(s, pks, q) <==> f in Plans(t, pks, q) {
      PlansMember(s, pks, q, f);
      PlansMember(t, pks, q, f);
    }
  }

  lemma RequestSameShape(s: State, t: State, pks: seq<string>, q: RequestKey)
    requires SameShape(s, t)
    ensures SameShape(Request(s, pks, q), Request(t, pks, q))
  {
    hide Plans, Plan;
    SamePlans(s, t, pks, q);
    forall pk ensures Part(Request(s, pks, q), pk) == Part(s, pk) && Part(Request(t, pks, q), pk) == Part(t, pk) {
      RequestKeepsPart(s, pks, q, pk);
      RequestKeepsPart(t, pks, q, pk);
    }
  }

  lemma SettleSameShape(s: State, t: State, f: Fetch, a: Rows, b: Rows, complete: bool)
    requires SameShape(s, t)
    ensures SameShape(Settle(s, f, a, complete), Settle(t, f, b, complete))
  {
    var s1, t1 := Settle(s, f, a, complete), Settle(t, f, b, complete);
    forall pk ensures Part(s1, pk).coverage == Part(t1, pk).coverage && Part(s1, pk).exactKeys == Part(t1, pk).exactKeys {
      assert Part(s, pk).coverage == Part(t, pk).coverage;
    }
  }

  lemma StepSameShape(w: World, v: World, s: State, t: State, m: Move)
    requires SameShape(s, t)
    ensures SameShape(Step(w, s, m), Step(v, t, m))
  {
    hide Request, Settle, Query;
    match m
    case Ask(pks, q) => RequestSameShape(s, t, pks, q);
    case Finish(f) =>
      SettleSameShape(s, t, f, Query(w(s.generation), f.key.partition, f.key.range), Query(v(t.generation), f.key.partition, f.key.range), true);
    case CutShort(f) => SettleSameShape(s, t, f, map[], map[], false);
    case Drop(f) => assert forall pk :: Part(Fail(s, f), pk) == Part(s, pk) && Part(Fail(t, f), pk) == Part(t, pk);
    case Switch =>
  }

  lemma {:induction false} PlaySameShape(w: World, v: World, ms: seq<Move>)
    ensures SameShape(Play(w, ms), Play(v, ms))
  {
    hide Step;
    if ms != [] {
      PlaySameShape(w, v, ms[..|ms| - 1]);
      StepSameShape(w, v, Play(w, ms[..|ms| - 1]), Play(v, ms[..|ms| - 1]), ms[|ms| - 1]);
    }
  }

  /** The session without any rows. */
  function Shape(ms: seq<Move>): State {
    Play((g: nat) => map[], ms)
  }

  lemma ShapeOf(world: World, ms: seq<Move>)
    ensures SameShape(Play(world, ms), Shape(ms))
  {
    hide Play;
    PlaySameShape(world, (g: nat) => map[], ms);
  }

  lemma MayRequestIsShape(world: World, ms: seq<Move>, pk: string, q: RequestKey)
    ensures MayRequest(Play(world, ms), pk, q) <==> MayRequest(Shape(ms), pk, q)
  {
    ShapeOf(world, ms);
    var s, t := Play(world, ms), Shape(ms);
    assert Part(s, pk).coverage == Part(t, pk).coverage;
    assert forall f :: Outstanding(s, pk, f) <==> Outstanding(t, pk, f);
  }

  // ---- careful sessions ----

  /** From move `n` on, and since the last switch, every request for the partition was one its caller may make. */
  ghost predicate CarefulMoves(ms: seq<Move>, n: nat, pk: string) {
    |ms| > n ==>
      var init, last := ms[..|ms| - 1], ms[|ms| - 1];
      last.Switch? || (CarefulMoves(init, n, pk) && (last.Ask? && pk in last.pks ==> MayRequest(Shape(init), pk, last.q)))
  }

  lemma {:induction false} CarefulJoins(ms: seq<Move>, n: nat, pk: string)
    requires n <= |ms| && CarefulMoves(ms[..n], 0, pk) && CarefulMoves(ms, n, pk)
    ensures CarefulMoves(ms, 0, pk)
  {
    if |ms| > n {
      var init := ms[..|ms| - 1];
      assert init[..n] == ms[..n];
      if !ms[|ms| - 1].Switch? { CarefulJoins(init, n, pk); }
    } else {
      assert ms[..n] == ms;
    }
  }

  lemma {:induction false} CarefulIsSound(world: World, ms: seq<Move>, pk: string)
    requires WorldOk(world) && CarefulMoves(ms, 0, pk)
    ensures Inv(world, Play(world, ms), pk)
  {
    hide Inv, MayRequest, Do, Query, TableOk, Shape;
    if ms == [] {
      EmptyIsSound(world, pk);
    } else {
      var init, m := ms[..|ms| - 1], ms[|ms| - 1];
      var s := Play(world, init);
      var e := EventOf(world, s, m);
      if m.Switch? {
        PlayRegistry(world, init);
        ClearMakesSound(world, s, pk);
        ClearStep(s);
      } else {
        CarefulIsSound(world, init, pk);
        if m.Ask? { MayRequestIsShape(world, init, pk, m.q); }
        if Applies(s, m) {
          assert Enabled(world, s, e);
          StepKeepsInv(world, s, e, pk);
        }
      }
    }
  }

  lemma {:induction false} PlayRegistry(world: World, ms: seq<Move>)
    ensures Registry(Play(world, ms))
  {
    hide Do;
    if ms != [] {
      var s := Play(world, ms[..|ms| - 1]);
      PlayRegistry(world, ms[..|ms| - 1]);
      StepKeepsRegistry(s, EventOf(world, s, ms[|ms| - 1]));
    }
  }

  /** Nothing is cached outside what was fetched. */
  predicate NothingBelow(p: PartitionCache) {
    && (p.coverage.None? ==> p.rows == map[])
    && (p.coverage.Some? && p.coverage.value.lo > 0 ==> forall k :: k in p.rows ==> p.rows[k].ts >= p.coverage.value.lo)
  }

  lemma FinishKeepsBelow(t: Table, p: PartitionCache, f: Fetch)
    requires TableOk(t) && NothingBelow(p) && RangeOk(p.coverage, f.key.range)
    ensures NothingBelow(Merge(p, f, Query(t, f.key.partition, f.key.range), true))
  {
    hide Query, TableOk;
    if 0 <= f.key.range.lo { QueryIsSelect(t, f.key.partition, f.key.range); }
  }

  lemma {:induction false} CarefulNothingBelow(world: World, ms: seq<Move>, pk: string)
    requires WorldOk(world) && CarefulMoves(ms, 0, pk)
    ensures NothingBelow(Part(Play(world, ms), pk))
  {
    hide NothingBelow, MayRequest, Query, TableOk, Shape, Plans;
    if ms == [] {
      EmptyBelow();
    } else {
      var init, m := ms[..|ms| - 1], ms[|ms| - 1];
      var s := Play(world, init);
      if m.Switch? {
        EmptyBelow();
      } else {
        CarefulNothingBelow(world, init, pk);
        CarefulIsSound(world, init, pk);
        StepBelow(world, s, m, pk);
      }
    }
  }

  lemma EmptyBelow()
    ensures NothingBelow(EMPTY)
  {}

  lemma StepBelow(world: World, s: State, m: Move, pk: string)
    requires WorldOk(world) && Inv(world, s, pk) && NothingBelow(Part(s, pk)) && !m.Switch?
    ensures NothingBelow(Part(Step(world, s, m), pk))
  {
    hide NothingBelow, Query, TableOk, Plans, PartOk, NoGap, Merge;
    match m
    case Ask(pks, q) => RequestKeepsPart(s, pks, q, pk);
    case Finish(f) =>
      if Applies(s, m) && f.generation == s.generation && f.key.partition == pk {
        assert Outstanding(s, pk, f);
        FinishKeepsBelow(world(s.generation), Part(s, pk), f);
      }
    case CutShort(f) =>
      if Applies(s, m) && f.generation == s.generation && f.key.partition == pk { NoRowsMerge(Part(s, pk), f); }
    case Drop(f) => assert Part(Fail(s, f), pk) == Part(s, pk);
  }

  lemma NoRowsMerge(p: PartitionCache, f: Fetch)
    ensures Merge(p, f, map[], false) == p
  {}

  // ---- a request is safe exactly when its caller may make it ----

  /** Whatever careful moves follow the request, and whatever the tables hold, the cache serves right. */
  ghost predicate Safe(ms: seq<Move>, pks: seq<string>, q: RequestKey, pk: string) {
    forall more: seq<Move>, world: World {:trigger CarefulMoves(ms + [Ask(pks, q)] + more, |ms| + 1, pk), WorldOk(world)} ::
      WorldOk(world) && CarefulMoves(ms + [Ask(pks, q)] + more, |ms| + 1, pk) ==>
        var s := Play(world, ms + [Ask(pks, q)] + more);
        ServesRight(s, world(s.generation), pk)
  }

  lemma AllowedIsSafe(ms: seq<Move>, pks: seq<string>, q: RequestKey, pk: string)
    requires CarefulMoves(ms, 0, pk) && MayRequest(Shape(ms), pk, q)
    ensures Safe(ms, pks, q, pk)
  {
    hide Inv, MayRequest, Play, ServesRight, Shape;
    forall more: seq<Move>, world: World | WorldOk(world) && CarefulMoves(ms + [Ask(pks, q)] + more, |ms| + 1, pk)
      ensures var s := Play(world, ms + [Ask(pks, q)] + more); ServesRight(s, world(s.generation), pk)
    {
      var asked := ms + [Ask(pks, q)];
      assert asked[..|ms|] == ms && (asked + more)[..|asked|] == asked;
      CarefulJoins(asked + more, |asked|, pk);
      CarefulIsSound(world, asked + more, pk);
      InvServesRight(world, Play(world, asked + more), pk);
    }
  }

  lemma InvServesRight(world: World, s: State, pk: string)
    requires WorldOk(world) && Inv(world, s, pk)
    ensures ServesRight(s, world(s.generation), pk)
  {
    hide ServesRight, PartOk, NoGap;
    SoundServesRight(s, world(s.generation), pk);
  }

  /** A request for the gap, or for its first moment, that is served without a row stored there. */
  lemma Spoiled(s: State, t: Table, pk: string, ts: DateMs, o: Options)
    requires 0 <= ts && t == Single(pk, ts) && RowKey(KeyParts(ts, 0, 0)) !in Part(s, pk).rows
    requires Within(Range(ts, ts), Part(s, pk).coverage)
    ensures !ServesRight(s, t, pk)
  {
    hide RowKey, TableOk, Query;
    var q := RequestKey(Range(ts, ts), o);
    SingleOk(pk, ts, q.range);
    assert Served(s, pk, q);
    assert RowKey(KeyParts(ts, 0, 0)) in Query(t, pk, q.range);
  }

  /** A fetch across 1970 brings nothing, and its completion hides what is stored from 1970 on. */
  lemma StraddleSpoils(world: World, s: State, pk: string, f: Fetch)
    requires world(s.generation) == Single(pk, 0) && Outstanding(s, pk, f) && f.key.range.lo < 0 <= f.key.range.hi
    requires RowKey(KeyParts(0, 0, 0)) !in Part(s, pk).rows
    ensures !ServesRight(Step(world, s, Finish(f)), Single(pk, 0), pk)
  {
    hide RowKey, TableOk, Query, ServesRight, Plan;
    SingleOk(pk, 0, f.key.range);
    var t := Step(world, s, Finish(f));
    assert Part(t, pk) == Merge(Part(s, pk), f, map[], true);
    Spoiled(t, Single(pk, 0), pk, 0, f.key.options);
  }

  lemma Starts(s: State, pks: seq<string>, q: RequestKey, pk: string, f: Fetch)
    requires pk in pks && f in Plan(Part(s, pk), pk, q, s.generation) && !Shared(s.inFlight, f)
    ensures Outstanding(Request(s, pks, q), pk, f) && Part(Request(s, pks, q), pk) == Part(s, pk)
    ensures Request(s, pks, q).generation == s.generation
  {
    hide Plans, Plan;
    PlanIsCurrent(Part(s, pk), pk, q, s.generation, f);
    PlansMember(s, pks, q, f);
    RequestKeepsPart(s, pks, q, pk);
  }

  /** No outstanding fetch of a sound cache begins before 1970 unless coverage reaches down to it. */
  lemma NotShared(world: World, s: State, pk: string, f: Fetch)
    requires Inv(world, s, pk) && f.key.partition == pk && f.key.range.lo < 0
    requires Part(s, pk).coverage.Some? ==> Part(s, pk).coverage.value.lo > 0
    ensures !Shared(s.inFlight, f)
  {
    hide PartOk, NoGap;
    forall g | g in s.inFlight ensures g.key != f.key { if g.key.partition == pk { assert Outstanding(s, pk, g); } }
  }

  /** A table of one row, in every generation. */
  function One(pk: string, ts: u64): World {
    (g: nat) => Single(pk, ts)
  }

  lemma OneOk(pk: string, ts: u64)
    ensures WorldOk(One(pk, ts))
  {
    hide RowKey, TableOk;
    SingleOk(pk, ts, Range(0, 0));
  }

  lemma BelowIsNotCached(pk: string, p: PartitionCache)
    requires NothingBelow(p) && (p.coverage.Some? ==> p.coverage.value.lo > 0)
    requires forall k :: k in p.rows ==> k in RowsOf(Single(pk, 0), pk) && p.rows[k] == RowsOf(Single(pk, 0), pk)[k]
    ensures RowKey(KeyParts(0, 0, 0)) !in p.rows
  {
    hide RowKey;
  }

  lemma AnswerIsCareful(ms: seq<Move>, m: Move, n: nat, pk: string)
    requires CarefulMoves(ms, n, pk) && !m.Ask?
    ensures CarefulMoves(ms + [m], n, pk)
  {
    assert (ms + [m])[..|ms|] == ms;
  }

  lemma AskIsCareful(ms: seq<Move>, pks: seq<string>, q: RequestKey, n: nat, pk: string)
    requires CarefulMoves(ms, n, pk) && MayRequest(Shape(ms), pk, q)
    ensures CarefulMoves(ms + [Ask(pks, q)], n, pk)
  {
    assert (ms + [Ask(pks, q)])[..|ms|] == ms;
  }

  lemma Unsafe(ms: seq<Move>, pks: seq<string>, q: RequestKey, pk: string, more: seq<Move>, world: World)
    requires WorldOk(world) && CarefulMoves(ms + [Ask(pks, q)] + more, |ms| + 1, pk)
    requires var s := Play(world, ms + [Ask(pks, q)] + more); !ServesRight(s, world(s.generation), pk)
    ensures !Safe(ms, pks, q, pk)
  {
    hide ServesRight, Play;
  }

  /** What is known of the cache after careful moves over a table with one row. */
  lemma BeforeRequest(ms: seq<Move>, pk: string, ts: u64)
    requires CarefulMoves(ms, 0, pk)
    ensures WorldOk(One(pk, ts)) && Inv(One(pk, ts), Play(One(pk, ts), ms), pk) && NothingBelow(Part(Play(One(pk, ts), ms), pk))
    ensures Part(Play(One(pk, ts), ms), pk).coverage == Part(Shape(ms), pk).coverage
  {
    hide Inv, NothingBelow, Play, WorldOk;
    OneOk(pk, ts);
    CarefulIsSound(One(pk, ts), ms, pk);
    CarefulNothingBelow(One(pk, ts), ms, pk);
    ShapeOf(One(pk, ts), ms);
  }

  /** The fetch a request plans below coverage, or without any. */
  function LowFetch(c: Option<Range>, pk: string, q: RequestKey, generation: nat): Fetch {
    if c.None? then Fetch(FlightKey(pk, q.range, q.options), true, generation)
    else Fetch(FlightKey(pk, Range(q.range.lo, c.value.lo), q.options), false, generation)
  }

  lemma LowIsPlanned(p: PartitionCache, pk: string, q: RequestKey, generation: nat)
    requires forall k :: k in p.exactKeys ==> Within(k.range, p.coverage)
    requires p.coverage.Some? ==> q.range.lo < p.coverage.value.lo
    ensures LowFetch(p.coverage, pk, q, generation) in Plan(p, pk, q, generation)
  {}

  /** The state in which a request from before 1970 on has started its first fetch. */
  lemma LowStarts(ms: seq<Move>, pks: seq<string>, q: RequestKey, pk: string) returns (s: State, f: Fetch)
    requires CarefulMoves(ms, 0, pk) && pk in pks && q.range.lo < 0
    requires Part(Shape(ms), pk).coverage.Some? ==> Part(Shape(ms), pk).coverage.value.lo > 0
    ensures s == Play(One(pk, 0), ms + [Ask(pks, q)])
    ensures f == LowFetch(Part(Shape(ms), pk).coverage, pk, q, s.generation) && Outstanding(s, pk, f)
    ensures Part(s, pk).coverage == Part(Shape(ms), pk).coverage && RowKey(KeyParts(0, 0, 0)) !in Part(s, pk).rows
    ensures Part(s, pk).coverage.None? ==> Part(s, pk).exactKeys == {}
    ensures forall g :: Outstanding(s, pk, g) && g != f && Part(s, pk).coverage.None? ==> g.key.range.lo >= 0
  {
    hide Play, RowKey, Plan, Plans, Request, WorldOk, NoGap, Shape;
    var world, before := One(pk, 0), Play(One(pk, 0), ms);
    BeforeRequest(ms, pk, 0);
    PlaySnoc(world, ms, Ask(pks, q));
    s := Request(before, pks, q);
    f := LowFetch(Part(before, pk).coverage, pk, q, before.generation);
    LowIsPlanned(Part(before, pk), pk, q, before.generation);
    NotShared(world, before, pk, f);
    Starts(before, pks, q, pk, f);
    BelowIsNotCached(pk, Part(before, pk));
    if Part(s, pk).coverage.None? { NoExactKeys(Part(s, pk)); }
    forall g | Outstanding(s, pk, g) && g != f && Part(s, pk).coverage.None? ensures g.key.range.lo >= 0 {
      if g in before.pending { assert Outstanding(before, pk, g); } else { OnlyOnePlanned(before, pks, q, pk, g); }
    }
  }

  lemma NoExactKeys(p: PartitionCache)
    requires p.coverage.None? && forall k :: k in p.exactKeys ==> Within(k.range, p.coverage)
    ensures p.exactKeys == {}
  {
    forall k: RequestKey ensures k in p.exactKeys <==> k in {} {}
  }

  lemma OnlyOnePlanned(s: State, pks: seq<string>, q: RequestKey, pk: string, g: Fetch)
    requires Part(s, pk).coverage.None? && g.key.partition == pk && g in Request(s, pks, q).pending && g !in s.pending
    ensures g == LowFetch(None, pk, q, s.generation)
  {
    hide Plans, Request;
    StartedIsPlanned(s, pks, q, g);
  }

  /** A request across 1970, or down to before 1970 from coverage that begins later. */
  lemma StraddlingIsUnsafe(ms: seq<Move>, pks: seq<string>, q: RequestKey, pk: string)
    requires CarefulMoves(ms, 0, pk) && pk in pks && q.range.lo < 0
    requires if Part(Shape(ms), pk).coverage.Some? then Part(Shape(ms), pk).coverage.value.lo > 0 else 0 <= q.range.hi
    ensures !Safe(ms, pks, q, pk)
  {
    hide Play, RowKey, ServesRight, Step, Safe, Shape;
    var world, asked := One(pk, 0), ms + [Ask(pks, q)];
    var s, f := LowStarts(ms, pks, q, pk);
    StraddleSpoils(world, s, pk, f);
    OneOk(pk, 0);
    PlaySnoc(world, asked, Finish(f));
    AnswerIsCareful(asked, Finish(f), |ms| + 1, pk);
    Unsafe(ms, pks, q, pk, [Finish(f)], world);
  }

  /** A first request that lies before 1970: the next one, from 1970 on, fetches across it. */
  lemma EarlyIsUnsafe(ms: seq<Move>, pks: seq<string>, q: RequestKey, pk: string)
    requires CarefulMoves(ms, 0, pk) && pk in pks && q.range.lo <= q.range.hi < 0 && Part(Shape(ms), pk).coverage.None?
    ensures !Safe(ms, pks, q, pk)
  {
    hide Play, RowKey, ServesRight, Safe, Shape, MayRequest, Plan, Request;
    var world, asked := One(pk, 0), ms + [Ask(pks, q)];
    var s, f := LowStarts(ms, pks, q, pk);
    OneOk(pk, 0);
    PlaySnoc(world, asked, Finish(f));
    AnswerIsCareful(asked, Finish(f), |ms| + 1, pk);
    var answered := asked + [Finish(f)];
    var s1 := Play(world, answered);
    EarlyAnswer(world, s, pk, f);
    var next := RequestKey(Range(0, 0), q.options);
    var g := Fetch(FlightKey(pk, Range(q.range.hi, 0), q.options), false, s1.generation);
    NextPlan(Part(s1, pk), pk, next, g, q.range);
    PlayRegistry(world, answered);
    forall h | h in s1.inFlight ensures h.key != g.key { if h.key.partition == pk { assert Outstanding(s, pk, h) && h != f; } }
    Starts(s1, [pk], next, pk, g);
    MayRequestIsShape(world, answered, pk, next);
    CoveredMayAsk(s1, pk, next);
    AskIsCareful(answered, [pk], next, |ms| + 1, pk);
    PlaySnoc(world, answered, Ask([pk], next));
    var again := answered + [Ask([pk], next)];
    var s2 := Play(world, again);
    StraddleSpoils(world, s2, pk, g);
    PlaySnoc(world, again, Finish(g));
    AnswerIsCareful(again, Finish(g), |ms| + 1, pk);
    assert again + [Finish(g)] == asked + [Finish(f), Ask([pk], next), Finish(g)];
    Unsafe(ms, pks, q, pk, [Finish(f), Ask([pk], next), Finish(g)], world);
  }

  lemma CoveredMayAsk(s: State, pk: string, q: RequestKey)
    requires Part(s, pk).coverage.Some? && 0 <= q.range.lo <= q.range.hi
    ensures MayRequest(s, pk, q)
  {}

  lemma EarlyAnswer(world: World, s: State, pk: string, f: Fetch)
    requires world(s.generation) == Single(pk, 0) && Outstanding(s, pk, f) && f.key.range.lo <= f.key.range.hi < 0
    requires Part(s, pk).coverage.None? && Part(s, pk).exactKeys == {} && RowKey(KeyParts(0, 0, 0)) !in Part(s, pk).rows
    ensures var t := Step(world, s, Finish(f));
      && Part(t, pk).coverage == Some(f.key.range) && RowKey(KeyParts(0, 0, 0)) !in Part(t, pk).rows
      && t.generation == s.generation && t.pending == s.pending - {f}
      && forall k :: k in Part(t, pk).exactKeys ==> k.range == f.key.range
  {
    hide RowKey, Query;
    SingleOk(pk, 0, f.key.range);
    var t := Step(world, s, Finish(f));
    assert Part(t, pk) == Merge(Part(s, pk), f, map[], true);
  }

  lemma NextPlan(p: PartitionCache, pk: string, next: RequestKey, g: Fetch, r: Range)
    requires p.coverage == Some(r) && r.lo <= r.hi < 0 && next.range.lo == 0 <= next.range.hi
    requires g == Fetch(FlightKey(pk, Range(r.hi, next.range.hi), next.options), false, g.generation)
    requires next !in p.exactKeys
    ensures g in Plan(p, pk, next, g.generation)
  {}

  /** A first request that leaves a gap to a first fetch still outstanding: both answered, it is hidden. */
  lemma GapIsUnsafe(ms: seq<Move>, pks: seq<string>, q: RequestKey, pk: string, f: Fetch)
    requires CarefulMoves(ms, 0, pk) && pk in pks && 0 <= q.range.lo <= q.range.hi && Part(Shape(ms), pk).coverage.None?
    requires Outstanding(Shape(ms), pk, f) && !Adjacent(f.key.range, q.range)
    ensures !Safe(ms, pks, q, pk)
  {
    hide Play, RowKey, ServesRight, Safe, Shape, MayRequest, Plan, Request, NothingBelow, WorldOk;
    var asked := ms + [Ask(pks, q)];
    var gap: DateMs, g := GapStarts(ms, pks, q, pk, f);
    var world := One(pk, gap);
    var s := Play(world, asked);
    OneOk(pk, gap);
    PlaySnoc(world, asked, Finish(f));
    AnswerIsCareful(asked, Finish(f), |ms| + 1, pk);
    var once := asked + [Finish(f)];
    PlaySnoc(world, once, Finish(g));
    AnswerIsCareful(once, Finish(g), |ms| + 1, pk);
    BothAnswered(world, s, pk, gap, f, g);
    assert once + [Finish(g)] == asked + [Finish(f), Finish(g)];
    Unsafe(ms, pks, q, pk, [Finish(f), Finish(g)], world);
  }

  predicate Between(ts: int, a: Range, b: Range) {
    (a.hi < ts < b.lo) || (b.hi < ts < a.lo)
  }

  lemma GapStarts(ms: seq<Move>, pks: seq<string>, q: RequestKey, pk: string, f: Fetch) returns (gap: DateMs, g: Fetch)
    requires CarefulMoves(ms, 0, pk) && pk in pks && 0 <= q.range.lo <= q.range.hi && Part(Shape(ms), pk).coverage.None?
    requires Outstanding(Shape(ms), pk, f) && !Adjacent(f.key.range, q.range)
    ensures 0 <= gap && Between(gap, f.key.range, q.range) && 0 <= f.key.range.lo <= f.key.range.hi
    ensures var s := Play(One(pk, gap), ms + [Ask(pks, q)]);
      && g == LowFetch(None, pk, q, s.generation) && Outstanding(s, pk, g) && Outstanding(s, pk, f)
      && Part(s, pk).coverage.None? && Part(s, pk).rows == map[]
  {
    hide Play, RowKey, Plan, Plans, Request, WorldOk, Shape;
    ShapeOf(One(pk, 0), ms);
    BeforeRequest(ms, pk, 0);
    assert Outstanding(Play(One(pk, 0), ms), pk, f);
    gap := if f.key.range.hi < q.range.lo then f.key.range.hi + 1 else q.range.hi + 1;
    var world, before := One(pk, gap), Play(One(pk, gap), ms);
    BeforeRequest(ms, pk, gap);
    ShapeOf(world, ms);
    PlaySnoc(world, ms, Ask(pks, q));
    assert Outstanding(before, pk, f);
    g := LowFetch(None, pk, q, before.generation);
    LowIsPlanned(Part(before, pk), pk, q, before.generation);
    forall h | h in before.inFlight ensures h.key != g.key { if h.key.partition == pk { assert Outstanding(before, pk, h); } }
    Starts(before, pks, q, pk, g);
    StillOutstanding(before, pks, q, pk, f);
  }

  lemma StillOutstanding(s: State, pks: seq<string>, q: RequestKey, pk: string, f: Fetch)
    requires Outstanding(s, pk, f)
    ensures Outstanding(Request(s, pks, q), pk, f)
  {
    hide Plans;
  }

  lemma BothAnswered(world: World, s: State, pk: string, gap: DateMs, f: Fetch, g: Fetch)
    requires 0 <= gap && world(s.generation) == Single(pk, gap) && Between(gap, f.key.range, g.key.range)
    requires 0 <= f.key.range.lo <= f.key.range.hi && 0 <= g.key.range.lo <= g.key.range.hi
    requires Outstanding(s, pk, f) && Outstanding(s, pk, g) && Part(s, pk).coverage.None? && Part(s, pk).rows == map[]
    ensures var t := Step(world, Step(world, s, Finish(f)), Finish(g)); t.generation == s.generation && !ServesRight(t, Single(pk, gap), pk)
  {
    hide RowKey, Query, ServesRight, Plan;
    SingleOk(pk, gap, f.key.range);
    SingleOk(pk, gap, g.key.range);
    var t := Step(world, s, Finish(f));
    assert Part(t, pk) == Merge(Part(s, pk), f, map[], true);
    var u := Step(world, t, Finish(g));
    assert Part(u, pk) == Merge(Part(t, pk), g, map[], true);
    Spoiled(u, Single(pk, gap), pk, gap, g.key.options);
  }

  /** At any moment of a session that was careful with a partition: a request is safe in every careful
      continuation and over all tables if and only if its caller may make it. */
  lemma RequestSafeIff(ms: seq<Move>, pks: seq<string>, q: RequestKey, pk: string)
    requires CarefulMoves(ms, 0, pk) && pk in pks && q.range.lo <= q.range.hi
    ensures Safe(ms, pks, q, pk) <==> MayRequest(Shape(ms), pk, q)
  {
    hide Safe, Shape;
    var c := Part(Shape(ms), pk).coverage;
    if MayRequest(Shape(ms), pk, q) {
      AllowedIsSafe(ms, pks, q, pk);
    } else if q.range.lo < 0 {
      if c.None? && q.range.hi < 0 { EarlyIsUnsafe(ms, pks, q, pk); } else { StraddlingIsUnsafe(ms, pks, q, pk); }
    } else {
      var f :| Outstanding(Shape(ms), pk, f) && !Adjacent(f.key.range, q.range);
      GapIsUnsafe(ms, pks, q, pk, f);
    }
  }

  /** The first request for a partition is safe exactly when its range does not begin before 1970. */
  lemma FirstRequestSafeIff(pk: string, q: RequestKey)
    requires q.range.lo <= q.range.hi
    ensures Safe([], [pk], q, pk) <==> 0 <= q.range.lo
  {
    hide Safe;
    RequestSafeIff([], [pk], q, pk);
  }

  /** A second request while the first is unanswered, both from 1970 on: exactly when they overlap or abut. */
  lemma SecondRequestSafeIff(pk: string, first: RequestKey, second: RequestKey)
    requires 0 <= first.range.lo <= first.range.hi && 0 <= second.range.lo <= second.range.hi
    ensures Safe([Ask([pk], first)], [pk], second, pk) <==> Adjacent(first.range, second.range)
  {
    hide Safe, Plans;
    var ms := [Ask([pk], first)];
    assert ms[..0] == [] && Shape(ms[..0]) == NEW_SESSION;
    var s := Shape(ms);
    var f := LowFetch(None, pk, first, 0);
    Starts(NEW_SESSION, [pk], first, pk, f);
    forall g | Outstanding(s, pk, g) ensures g == f { OnlyOnePlanned(NEW_SESSION, [pk], first, pk, g); }
    RequestSafeIff(ms, [pk], second, pk);
  }

  /** A first range before 1970: whatever is stored, the next request, from 1970 on, is answered with nothing. */
  lemma EarlyRangeSpoilsNext(t: Table, pk: string, r: Range, o: Options, h: DateMs)
    requires TableOk(t) && r.lo <= r.hi < 0 <= h
    ensures var f, q := FirstFetch(pk, r, o), RequestKey(Range(0, h), o);
      var g := Fetch(FlightKey(pk, Range(r.hi, h), o), false, 0);
      var s := Play((x: nat) => t, [Ask([pk], RequestKey(r, o)), Finish(f), Ask([pk], q), Finish(g)]);
      Served(s, pk, q) && Select(Part(s, pk).rows, q.range) == map[]
  {
    hide Play, Query, Plan, Request, TableOk, Cut;
    var w: World, f, q := (x: nat) => t, FirstFetch(pk, r, o), RequestKey(Range(0, h), o);
    var g := Fetch(FlightKey(pk, Range(r.hi, h), o), false, 0);
    var s2 := EarlyFirst(w, t, pk, r, o);
    NextPlan(Part(s2, pk), pk, q, g, r);
    Starts(s2, [pk], q, pk, g);
    var first := [Ask([pk], RequestKey(r, o)), Finish(f)];
    PlaySnoc(w, first, Ask([pk], q));
    PlaySnoc(w, first + [Ask([pk], q)], Finish(g));
    assert first + [Ask([pk], q)] + [Finish(g)] == [Ask([pk], RequestKey(r, o)), Finish(f), Ask([pk], q), Finish(g)];
    StraddlingQuery(t, pk, Range(r.hi, h));
    EarlyQueryIsFar(t, pk, r);
    var s := Play(w, first + [Ask([pk], q)] + [Finish(g)]);
    assert Part(s, pk) == Merge(Part(s2, pk), g, map[], true);
    assert Part(s, pk).rows == Query(t, pk, r) + map[];
    CoveredPlan(Part(s, pk), pk, q, s.generation);
  }

  /** One such case, with bounds that agree: two milliseconds before 1970 hide the readings of a later second. */
  lemma HiddenByEarlyRange(o: Options)
    ensures var t, r, q := Single("n", 500), Range(-6, -5), RequestKey(Range(0, 1000), o);
      var g := Fetch(FlightKey("n", Range(-5, 1000), o), false, 0);
      var s := Play((x: nat) => t, [Ask(["n"], RequestKey(r, o)), Finish(FirstFetch("n", r, o)), Ask(["n"], q), Finish(g)]);
      && BoundsAgree(r.lo, r.hi) && TableOk(t) && Served(s, "n", q)
      && Select(Part(s, "n").rows, q.range) == map[] && Query(t, "n", q.range) == t["n"] != map[]
  {
    hide Play, Query, Served, Select, TableOk, RowKey;
    var t := Single("n", 500);
    SingleOk("n", 500, Range(0, 1000));
    EarlyRangeSpoilsNext(t, "n", Range(-6, -5), o, 1000);
    assert RowKey(KeyParts(500, 0, 0)) in t["n"];
  }

  lemma CoveredPlan(p: PartitionCache, pk: string, q: RequestKey, generation: nat)
    requires Within(q.range, p.coverage)
    ensures Plan(p, pk, q, generation) == {}
  {}

  lemma EarlyFirst(w: World, t: Table, pk: string, r: Range, o: Options) returns (s: State)
    requires w(0) == t
    ensures s == Play(w, [Ask([pk], RequestKey(r, o)), Finish(FirstFetch(pk, r, o))])
    ensures s.generation == 0 && s.inFlight == {}
    ensures Part(s, pk) == Merge(EMPTY, FirstFetch(pk, r, o), Query(t, pk, r), true)
  {
    hide Query, Plans, Plan;
    var f, q := FirstFetch(pk, r, o), RequestKey(r, o);
    FirstIsPending(NEW_SESSION, pk, r, o);
    PlaySnoc(w, [], Ask([pk], q));
    PlaySnoc(w, [Ask([pk], q)], Finish(f));
    assert [] + [Ask([pk], q)] == [Ask([pk], q)] && [Ask([pk], q)] + [Finish(f)] == [Ask([pk], q), Finish(f)];
    s := Play(w, [Ask([pk], q), Finish(f)]);
    var asked := Request(NEW_SESSION, [pk], q);
    forall g: Fetch ensures g in asked.inFlight ==> g == f {
      if g in asked.inFlight {
        StartedIsPlanned(NEW_SESSION, [pk], q, g);
        OnlyOnePlanned(NEW_SESSION, [pk], q, pk, g);
      }
    }
    forall g: Fetch ensures g in s.inFlight <==> g in {} {}
  }
}
