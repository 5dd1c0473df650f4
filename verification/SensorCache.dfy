/** The web client's session cache of sensor rows.

Each partition caches rows together with one coverage interval. A request fetches only
what coverage lacks, shares fetches already in flight, and the fetches complete in any
order while the user may switch environments, which starts a new generation. */
module SensorCache {
  import opened RowKeys
  import opened HistoryStore
  import opened Wrappers

  type Reading = string

  /** The stored rows of one partition, by row key. */
  type Rows = map<string, Row<Reading>>
  type Table = map<string, Rows>

  datatype Range = Range(lo: DateMs, hi: DateMs)
  datatype Options = Options(topPerPage: Option<nat>, maxPages: Option<nat>, requireComplete: bool)

  /** What identifies a request in `exactRequestKeys`, and a fetch in the in-flight registry. */
  datatype RequestKey = RequestKey(range: Range, options: Options)
  datatype FlightKey = FlightKey(partition: string, range: Range, options: Options)

  /** A started fetch, with the generation it captured. `exact` marks a fetch of a whole request. */
  datatype Fetch = Fetch(key: FlightKey, exact: bool, generation: nat)

  datatype PartitionCache = PartitionCache(rows: Rows, exactKeys: set<RequestKey>, coverage: Option<Range>)

  /** `inFlight` is the registry of the current generation; `pending` also holds orphaned fetches. */
  datatype State = State(generation: nat, parts: map<string, PartitionCache>, inFlight: set<Fetch>, pending: set<Fetch>)

  const EMPTY := PartitionCache(map[], {}, None)

  // ---- the operations ----

  function Part(s: State, pk: string): PartitionCache {
    if pk in s.parts then s.parts[pk] else EMPTY
  }

  /** The ranges one partition still lacks. */
  function Plan(p: PartitionCache, pk: string, q: RequestKey, generation: nat): set<Fetch> {
    var covered := p.coverage.Some? && p.coverage.value.lo <= q.range.lo && q.range.hi <= p.coverage.value.hi;
    if q in p.exactKeys || covered then {}
    else if p.coverage.None? then {Fetch(FlightKey(pk, q.range, q.options), true, generation)}
    else
      var c := p.coverage.value;
      (if q.range.lo < c.lo then {Fetch(FlightKey(pk, Range(q.range.lo, c.lo), q.options), false, generation)} else {})
      + (if q.range.hi > c.hi then {Fetch(FlightKey(pk, Range(c.hi, q.range.hi), q.options), false, generation)} else {})
  }

  function Plans(s: State, pks: seq<string>, q: RequestKey): set<Fetch> {
    if pks == [] then {}
    else Plans(s, pks[..|pks| - 1], q) + Plan(Part(s, pks[|pks| - 1]), pks[|pks| - 1], q, s.generation)
  }

  function Touch(parts: map<string, PartitionCache>, pks: seq<string>): map<string, PartitionCache> {
    map pk | pk in parts.Keys + (set k | k in pks) :: if pk in parts then parts[pk] else EMPTY
  }

  predicate Shared(inFlight: set<Fetch>, f: Fetch) {
    exists g :: g in inFlight && g.key == f.key
  }

  /** The synchronous part of a request: plan, then join or start every fetch. */
  function Request(s: State, pks: seq<string>, q: RequestKey): State {
    var started := set f | f in Plans(s, pks, q) && !Shared(s.inFlight, f);
    State(s.generation, Touch(s.parts, pks), s.inFlight + started, s.pending + started)
  }

  /** The fetches the request then waits for. */
  function Awaited(s: State, pks: seq<string>, q: RequestKey): set<Fetch> {
    set g | g in Request(s, pks, q).inFlight && Shared(Plans(s, pks, q), g)
  }

  function Merge(p: PartitionCache, f: Fetch, rows: Rows, complete: bool): PartitionCache {
    var r := f.key.range;
    PartitionCache(
      p.rows + rows,
      if complete && f.exact then p.exactKeys + {RequestKey(r, f.key.options)} else p.exactKeys,
      if !complete then p.coverage
      else if p.coverage.None? then Some(r)
      else Some(Range(if p.coverage.value.lo < r.lo then p.coverage.value.lo else r.lo,
                      if p.coverage.value.hi > r.hi then p.coverage.value.hi else r.hi)))
  }

  /** A query answers: its rows are merged only in the generation that started it. */
  function Settle(s: State, f: Fetch, rows: Rows, complete: bool): State {
    var done := s.(pending := s.pending - {f}, inFlight := s.inFlight - {f});
    if f.generation != s.generation then done
    else done.(parts := s.parts[f.key.partition := Merge(Part(s, f.key.partition), f, rows, complete)])
  }

  function Fail(s: State, f: Fetch): State {
    s.(pending := s.pending - {f}, inFlight := s.inFlight - {f})
  }

  /** An environment switch. Fetches in flight go on, with a registry nobody consults. */
  function Clear(s: State): State {
    State(s.generation + 1, map[], {}, s.pending)
  }

  function Select(rows: Rows, r: Range): Rows {
    map k | k in rows && r.lo <= rows[k].ts <= r.hi :: rows[k]
  }

  // ---- the reference: a direct range query of the table ----

  function RowsOf(t: Table, pk: string): Rows {
    if pk in t then t[pk] else map[]
  }

  function Query(t: Table, pk: string, r: Range): Rows {
    map k | k in RowsOf(t, pk) && Selected(k, r.lo, r.hi) :: RowsOf(t, pk)[k]
  }

  ghost predicate TableOk(t: Table) {
    forall pk :: pk in t ==> TimeKeyed(t[pk])
  }

  lemma QueryIsSelect(t: Table, pk: string, r: Range)
    requires TableOk(t) && BoundsAgree(r.lo, r.hi)
    ensures Query(t, pk, r) == Select(RowsOf(t, pk), r)
  {
    hide Selected, BoundsAgree;
    FilterExactIff(r.lo, r.hi);
    forall k | k in RowsOf(t, pk) ensures Selected(k, r.lo, r.hi) <==> r.lo <= RowsOf(t, pk)[k].ts <= r.hi {
      var p: KeyParts :| k == RowKey(p) && p.ts == RowsOf(t, pk)[k].ts;
    }
  }

  /** A table of one row. */
  function Single(pk: string, ts: u64): Table {
    map[pk := map[RowKey(KeyParts(ts, 0, 0)) := Row(ts, "")]]
  }

  lemma SingleOk(pk: string, ts: u64, r: Range)
    ensures TableOk(Single(pk, ts))
    ensures Query(Single(pk, ts), pk, r) == if FirstSelected(r.lo) <= ts <= LastSelected(r.hi) then Single(pk, ts)[pk] else map[]
  {
    hide RowKey, Selected, FirstSelected, LastSelected;
    var k := KeyParts(ts, 0, 0);
    assert KeyFor(RowKey(k), ts);
    FilterSelects(k, r.lo, r.hi);
  }

  /** The filter on row keys and the cache's filter on timestamps agree on every table exactly when the
      bounds do. */
  lemma QueryIsSelectIff(pk: string, r: Range)
    ensures (forall t: Table :: TableOk(t) ==> Query(t, pk, r) == Select(RowsOf(t, pk), r)) <==> BoundsAgree(r.lo, r.hi)
  {
    hide RowKey, TableOk, Query, Cut;
    if BoundsAgree(r.lo, r.hi) {
      forall t: Table | TableOk(t) ensures Query(t, pk, r) == Select(RowsOf(t, pk), r) { QueryIsSelect(t, pk, r); }
    } else {
      var ts: u64 := if r.lo >= 0 then r.lo else if r.hi >= 0 then 0 else Cut(r.hi);
      var t, k := Single(pk, ts), RowKey(KeyParts(ts, 0, 0));
      SingleOk(pk, ts, r);
      assert k in RowsOf(t, pk);
      assert k in Query(t, pk, r) <==> k !in Select(RowsOf(t, pk), r);
    }
  }

  // ---- runs ----

  datatype Event =
    | RequestEvent(pks: seq<string>, q: RequestKey)
    | SettleEvent(fetch: Fetch, rows: Rows, complete: bool)
    | FailEvent(fetch: Fetch)
    | ClearEvent

  function Do(s: State, e: Event): State {
    match e
    case RequestEvent(pks, q) => Request(s, pks, q)
    case SettleEvent(f, rows, complete) => Settle(s, f, rows, complete)
    case FailEvent(f) => Fail(s, f)
    case ClearEvent => Clear(s)
  }

  /** Ranges that overlap or abut: no millisecond lies strictly between them. */
  predicate Adjacent(a: Range, b: Range) {
    a.lo <= b.hi + 1 && b.lo <= a.hi + 1
  }

  predicate Outstanding(s: State, pk: string, f: Fetch) {
    f in s.pending && f.generation == s.generation && f.key.partition == pk
  }

  /** What a caller can check before asking for a partition: the range does not begin before 1970, or all
      that is stored from 1970 up to coverage is covered already; and without coverage, the range overlaps
      or abuts the first fetches still outstanding. */
  ghost predicate MayRequest(s: State, pk: string, q: RequestKey) {
    var c := Part(s, pk).coverage;
    && q.range.lo <= q.range.hi
    && (0 <= q.range.lo || (c.Some? && c.value.lo <= 0))
    && (c.None? ==> forall f :: Outstanding(s, pk, f) ==> Adjacent(f.key.range, q.range))
  }

  /** `world(g)` is the table of the environment that generation `g` shows. A query answered in its
      own generation returns rows of its range, all of them if complete; one that straddles a
      switch may return anything. */
  predicate Answer(world: nat -> Table, s: State, f: Fetch, rows: Rows, complete: bool) {
    f.generation == s.generation ==>
      && (forall k :: k in rows ==> k in Query(world(s.generation), f.key.partition, f.key.range)
                                    && rows[k] == Query(world(s.generation), f.key.partition, f.key.range)[k])
      && (complete ==> rows == Query(world(s.generation), f.key.partition, f.key.range))
  }

  ghost predicate Enabled(world: nat -> Table, s: State, e: Event) {
    match e
    case RequestEvent(_, _) => true
    case SettleEvent(f, rows, complete) => f in s.pending && Answer(world, s, f, rows, complete)
    case FailEvent(f) => f in s.pending
    case ClearEvent => true
  }

  ghost predicate Run(world: nat -> Table, states: seq<State>, events: seq<Event>) {
    && |states| == |events| + 1
    && (forall g: nat :: TableOk(world(g)))
    && states[0] == NEW_SESSION
    && forall i :: 0 <= i < |events| ==> Enabled(world, states[i], events[i]) && states[i + 1] == Do(states[i], events[i])
  }

  /** Since the last environment switch, every request for this partition was one its caller may make. */
  ghost predicate Careful(states: seq<State>, events: seq<Event>, n: nat, pk: string)
    requires n < |states| == |events| + 1
  {
    forall i :: 0 <= i < n && events[i].RequestEvent? && pk in events[i].pks && states[i].generation == states[n].generation ==>
      MayRequest(states[i], pk, events[i].q)
  }

  // ---- what every run keeps ----

  /** Every stored row in the coverage interval is cached. */
  predicate Covers(p: PartitionCache, stored: Rows) {
    p.coverage.Some? ==>
      && p.coverage.value.lo <= p.coverage.value.hi && 0 <= p.coverage.value.hi
      && forall k :: k in Select(stored, p.coverage.value) ==> k in p.rows
  }

  predicate Within(r: Range, c: Option<Range>) {
    c.Some? && c.value.lo <= r.lo && r.hi <= c.value.hi
  }

  ghost predicate PartOk(p: PartitionCache, stored: Rows) {
    && (forall k :: k in p.rows ==> k in stored && p.rows[k] == stored[k])
    && Covers(p, stored)
    && (forall q :: q in p.exactKeys ==> Within(q.range, p.coverage))
  }

  /** Outstanding fetches cannot open a gap: they are adjacent to coverage, or to one another. */
  ghost predicate NoGap(s: State, pk: string) {
    if Part(s, pk).coverage.Some? then
      forall f :: Outstanding(s, pk, f) ==> Adjacent(f.key.range, Part(s, pk).coverage.value)
    else
      forall f, g :: Outstanding(s, pk, f) && Outstanding(s, pk, g) ==> Adjacent(f.key.range, g.key.range)
  }

  /** The registry holds exactly the unanswered fetches of the current generation. */
  ghost predicate Registry(s: State) {
    && s.inFlight == (set f | f in s.pending && f.generation == s.generation)
    && (forall f :: f in s.pending ==> f.generation <= s.generation)
  }

  /** A fetch from before 1970 on brings nothing that counts, and nothing is missing then. */
  predicate RangeOk(c: Option<Range>, r: Range) {
    r.lo <= r.hi && (0 <= r.lo || (r.hi <= 0 && c.Some? && c.value.lo <= 0))
  }

  /** The cache of one partition is sound. */
  ghost predicate Inv(world: nat -> Table, s: State, pk: string) {
    && Registry(s)
    && PartOk(Part(s, pk), RowsOf(world(s.generation), pk))
    && NoGap(s, pk)
    && (forall f :: Outstanding(s, pk, f) ==> RangeOk(Part(s, pk).coverage, f.key.range))
  }

  lemma PlanRanges(p: PartitionCache, pk: string, q: RequestKey, generation: nat, f: Fetch)
    requires f in Plan(p, pk, q, generation) && q.range.lo <= q.range.hi
    requires 0 <= q.range.lo || (p.coverage.Some? && p.coverage.value.lo <= 0)
    requires p.coverage.Some? ==> p.coverage.value.lo <= p.coverage.value.hi && 0 <= p.coverage.value.hi
    ensures f.key.partition == pk && f.generation == generation && RangeOk(p.coverage, f.key.range)
    ensures p.coverage.Some? ==> Adjacent(f.key.range, p.coverage.value)
    ensures p.coverage.None? ==> f.key.range == q.range
  {}

  lemma {:induction false} PlansMember(s: State, pks: seq<string>, q: RequestKey, f: Fetch)
    ensures f in Plans(s, pks, q) <==> f.key.partition in pks && f in Plan(Part(s, f.key.partition), f.key.partition, q, s.generation)
  {
    if pks != [] {
      var n := |pks| - 1;
      PlansMember(s, pks[..n], q, f);
      assert pks == pks[..n] + [pks[n]];
    }
  }

  lemma PlanIsCurrent(p: PartitionCache, pk: string, q: RequestKey, generation: nat, f: Fetch)
    requires f in Plan(p, pk, q, generation)
    ensures f.generation == generation && f.key.partition == pk
  {}

  lemma RequestKeepsRegistry(s: State, pks: seq<string>, q: RequestKey)
    requires Registry(s)
    ensures Registry(Request(s, pks, q))
  {
    hide Plans, Plan, Touch, Shared;
    forall f | f in Plans(s, pks, q) ensures f.generation == s.generation {
      PlansMember(s, pks, q, f);
      PlanIsCurrent(Part(s, f.key.partition), f.key.partition, q, s.generation, f);
    }
  }

  /** A new fetch of a partition was planned for it. */
  lemma StartedIsPlanned(s: State, pks: seq<string>, q: RequestKey, f: Fetch)
    requires f in Request(s, pks, q).pending && f !in s.pending
    ensures f.key.partition in pks && f in Plan(Part(s, f.key.partition), f.key.partition, q, s.generation)
  {
    hide Plans, Plan, Touch, Shared;
    PlansMember(s, pks, q, f);
  }

  lemma RequestKeepsPart(s: State, pks: seq<string>, q: RequestKey, pk: string)
    ensures Part(Request(s, pks, q), pk) == Part(s, pk)
  {
    hide Plans;
  }

  lemma RequestKeepsInv(world: nat -> Table, s: State, pks: seq<string>, q: RequestKey, pk: string)
    requires Inv(world, s, pk) && (pk in pks ==> MayRequest(s, pk, q))
    ensures Inv(world, Request(s, pks, q), pk)
  {
    hide Plans, Plan, Select, RowsOf, Request, Part;
    var t := Request(s, pks, q);
    RequestKeepsRegistry(s, pks, q);
    RequestKeepsPart(s, pks, q, pk);
    RequestGeneration(s, pks, q);
    forall f | Outstanding(t, pk, f) && f !in s.pending
      ensures pk in pks && RangeOk(Part(s, pk).coverage, f.key.range)
      ensures Part(s, pk).coverage.Some? ==> Adjacent(f.key.range, Part(s, pk).coverage.value)
      ensures Part(s, pk).coverage.None? ==> f.key.range == q.range
    {
      StartedIsPlanned(s, pks, q, f);
      PlanRanges(Part(s, pk), pk, q, s.generation, f);
    }
  }

  lemma RequestGeneration(s: State, pks: seq<string>, q: RequestKey)
    ensures Request(s, pks, q).generation == s.generation
  {}

  /** Merging a complete answer whose range is adjacent to coverage keeps coverage honest. */
  lemma MergeCovers(p: PartitionCache, f: Fetch, rows: Rows, stored: Rows)
    requires PartOk(p, stored) && RangeOk(p.coverage, f.key.range)
    requires p.coverage.Some? ==> Adjacent(f.key.range, p.coverage.value)
    requires forall k :: k in rows ==> k in stored && rows[k] == stored[k]
    requires 0 <= f.key.range.lo ==> rows == Select(stored, f.key.range)
    ensures PartOk(Merge(p, f, rows, true), stored)
  {
    var m := Merge(p, f, rows, true);
    forall k | k in Select(stored, m.coverage.value) ensures k in m.rows {
      if 0 > f.key.range.lo || k !in Select(stored, f.key.range) { assert k in Select(stored, p.coverage.value); }
    }
  }

  lemma MergeKeepsPart(p: PartitionCache, f: Fetch, rows: Rows, complete: bool, stored: Rows)
    requires PartOk(p, stored) && RangeOk(p.coverage, f.key.range)
    requires p.coverage.Some? ==> Adjacent(f.key.range, p.coverage.value)
    requires forall k :: k in rows ==> k in stored && rows[k] == stored[k]
    requires complete && 0 <= f.key.range.lo ==> rows == Select(stored, f.key.range)
    ensures PartOk(Merge(p, f, rows, complete), stored)
  {
    if complete { MergeCovers(p, f, rows, stored); }
  }

  /** What is adjacent to coverage, or to every other first fetch, is adjacent to the hull. */
  lemma SettleKeepsGap(s: State, f: Fetch, rows: Rows, complete: bool, pk: string)
    requires NoGap(s, pk) && f in s.pending
    requires forall g :: Outstanding(s, pk, g) ==> g.key.range.lo <= g.key.range.hi
    ensures NoGap(Settle(s, f, rows, complete), pk)
  {
    var t := Settle(s, f, rows, complete);
    assert forall g :: Outstanding(t, pk, g) ==> Outstanding(s, pk, g);
    if f.generation == s.generation && f.key.partition == pk { assert Outstanding(s, pk, f); }
  }

  lemma SettleKeepsInv(world: nat -> Table, s: State, f: Fetch, rows: Rows, complete: bool, pk: string)
    requires Inv(world, s, pk) && f in s.pending && Answer(world, s, f, rows, complete)
    requires TableOk(world(s.generation))
    ensures Inv(world, Settle(s, f, rows, complete), pk)
  {
    hide PartOk, NoGap, Merge, Select, TableOk, Query, RangeOk, Answer;
    var t := Settle(s, f, rows, complete);
    SettleKeepsRanges(s, f, rows, complete, pk);
    SettleKeepsGap(s, f, rows, complete, pk);
    if f.generation == s.generation && f.key.partition == pk {
      AnswerKeepsPart(world, s, f, rows, complete);
    } else {
      assert Part(t, pk) == Part(s, pk);
    }
  }

  lemma SettleKeepsRanges(s: State, f: Fetch, rows: Rows, complete: bool, pk: string)
    requires forall g :: Outstanding(s, pk, g) ==> RangeOk(Part(s, pk).coverage, g.key.range)
    ensures forall g :: Outstanding(s, pk, g) ==> g.key.range.lo <= g.key.range.hi
    ensures forall g :: Outstanding(Settle(s, f, rows, complete), pk, g) ==> RangeOk(Part(Settle(s, f, rows, complete), pk).coverage, g.key.range)
  {
    var t := Settle(s, f, rows, complete);
    assert forall g :: Outstanding(t, pk, g) ==> Outstanding(s, pk, g);
  }

  lemma AnswerKeepsPart(world: nat -> Table, s: State, f: Fetch, rows: Rows, complete: bool)
    requires Inv(world, s, f.key.partition) && f in s.pending && f.generation == s.generation
    requires Answer(world, s, f, rows, complete) && TableOk(world(s.generation))
    ensures PartOk(Part(Settle(s, f, rows, complete), f.key.partition), RowsOf(world(s.generation), f.key.partition))
  {
    hide PartOk, Merge, TableOk;
    var here := f.key.partition;
    var stored := RowsOf(world(s.generation), here);
    assert Outstanding(s, here, f);
    if 0 <= f.key.range.lo { QueryIsSelect(world(s.generation), here, f.key.range); }
    MergeKeepsPart(Part(s, here), f, rows, complete, stored);
    assert Part(Settle(s, f, rows, complete), here) == Merge(Part(s, here), f, rows, complete);
  }

  lemma StepKeepsInv(world: nat -> Table, s: State, e: Event, pk: string)
    requires Inv(world, s, pk) && Enabled(world, s, e) && TableOk(world(s.generation)) && !e.ClearEvent?
    requires e.RequestEvent? && pk in e.pks ==> MayRequest(s, pk, e.q)
    ensures Inv(world, Do(s, e), pk)
  {
    match e
    case RequestEvent(pks, q) => RequestKeepsInv(world, s, pks, q, pk);
    case SettleEvent(f, rows, complete) => SettleKeepsInv(world, s, f, rows, complete, pk);
    case FailEvent(f) => assert Part(Fail(s, f), pk) == Part(s, pk);
  }

  /** A switch of environment makes the cache sound whatever it held before. */
  lemma ClearMakesSound(world: nat -> Table, s: State, pk: string)
    requires Registry(s)
    ensures Inv(world, Clear(s), pk)
  {}

  lemma StepKeepsRegistry(s: State, e: Event)
    requires Registry(s)
    ensures Registry(Do(s, e)) && Do(s, e).generation == if e.ClearEvent? then s.generation + 1 else s.generation
  {
    match e
    case RequestEvent(pks, q) => RequestKeepsRegistry(s, pks, q);
    case _ =>
  }

  /** No range is fetched twice at a time. */
  ghost predicate OneEach(s: State) {
    forall f, g :: f in s.inFlight && g in s.inFlight && f.key == g.key ==> f == g
  }

  lemma PlanKeyDecides(s: State, pks: seq<string>, q: RequestKey, f: Fetch, g: Fetch)
    requires f in Plans(s, pks, q) && g in Plans(s, pks, q) && f.key == g.key
    ensures f == g
  {
    PlansMember(s, pks, q, f);
    PlansMember(s, pks, q, g);
  }

  lemma StepKeepsOneEach(s: State, e: Event)
    requires OneEach(s)
    ensures OneEach(Do(s, e))
  {
    hide Plans, Plan;
    match e
    case RequestEvent(pks, q) =>
      var t := Request(s, pks, q);
      forall f, g | f in t.inFlight && g in t.inFlight && f.key == g.key ensures f == g {
        if f in Plans(s, pks, q) && g in Plans(s, pks, q) { PlanKeyDecides(s, pks, q, f, g); }
      }
    case _ =>
  }

  /** In every run a request joins a fetch in flight rather than start the same one again. */
  lemma {:induction false} NeverFetchedTwice(world: nat -> Table, states: seq<State>, events: seq<Event>, n: nat)
    requires Run(world, states, events) && n < |states|
    ensures OneEach(states[n])
  {
    hide Do, Enabled;
    if n > 0 {
      NeverFetchedTwice(world, states, events, n - 1);
      StepKeepsOneEach(states[n - 1], events[n - 1]);
    }
  }

  lemma {:induction false} RegistryRun(world: nat -> Table, states: seq<State>, events: seq<Event>, n: nat)
    requires Run(world, states, events) && n < |states|
    ensures Registry(states[n])
  {
    hide Do, Enabled;
    if n > 0 {
      RegistryRun(world, states, events, n - 1);
      StepKeepsRegistry(states[n - 1], events[n - 1]);
    }
  }

  /** Careful requests for a partition since the last switch keep its cache sound, whatever happened before
      and whatever happens to other partitions. */
  lemma {:induction false} CacheRunSound(world: nat -> Table, states: seq<State>, events: seq<Event>, n: nat, pk: string)
    requires Run(world, states, events) && n < |states| && Careful(states, events, n, pk)
    ensures Inv(world, states[n], pk)
  {
    hide Do, Enabled, MayRequest, PartOk, NoGap;
    if n == 0 {
      EmptyIsSound(world, pk);
    } else {
      RegistryRun(world, states, events, n - 1);
      StepKeepsRegistry(states[n - 1], events[n - 1]);
      if events[n - 1].ClearEvent? {
        ClearMakesSound(world, states[n - 1], pk);
        ClearStep(states[n - 1]);
      } else {
        CacheRunSound(world, states, events, n - 1, pk);
        StepKeepsInv(world, states[n - 1], events[n - 1], pk);
      }
    }
  }

  lemma ClearStep(s: State)
    ensures Do(s, ClearEvent) == Clear(s)
  {}

  const NEW_SESSION := State(0, map[], {}, {})

  lemma EmptyIsSound(world: nat -> Table, pk: string)
    ensures Inv(world, NEW_SESSION, pk)
  {}

  // ---- a completed request returns what the direct query would ----

  predicate Widened(before: Option<Range>, after: Option<Range>) {
    before.Some? ==> Within(before.value, after)
  }

  /** Within a generation coverage only widens, and only a complete answer widens it. */
  lemma StepWidens(s: State, e: Event, pk: string)
    requires Do(s, e).generation == s.generation
    ensures Widened(Part(s, pk).coverage, Part(Do(s, e), pk).coverage)
    ensures Part(Do(s, e), pk).coverage != Part(s, pk).coverage ==>
              e.SettleEvent? && e.complete && e.fetch.generation == s.generation && e.fetch.key.partition == pk
    ensures e.SettleEvent? && e.complete && e.fetch.generation == s.generation && e.fetch.key.partition == pk ==>
              Within(e.fetch.key.range, Part(Do(s, e), pk).coverage)
  {}

  lemma {:induction false} GenerationsGrow(world: nat -> Table, states: seq<State>, events: seq<Event>, i: nat, n: nat)
    requires Run(world, states, events) && i <= n < |states|
    ensures states[i].generation <= states[n].generation
  {
    hide Enabled, Plans, Touch, Merge, Part;
    if i < n { GenerationsGrow(world, states, events, i, n - 1); }
  }

  lemma {:induction false} CoverageWidens(world: nat -> Table, states: seq<State>, events: seq<Event>, i: nat, n: nat, pk: string)
    requires Run(world, states, events) && i <= n < |states| && states[i].generation == states[n].generation
    ensures Widened(Part(states[i], pk).coverage, Part(states[n], pk).coverage)
  {
    hide Do, Enabled, Part;
    if i < n {
      GenerationsGrow(world, states, events, i, n - 1);
      GenerationsGrow(world, states, events, n - 1, n);
      CoverageWidens(world, states, events, i, n - 1, pk);
      StepWidens(states[n - 1], events[n - 1], pk);
    }
  }

  /** Fetch `f` was answered completely between two moments of the run. */
  ghost predicate Completed(events: seq<Event>, i: nat, n: nat, f: Fetch) {
    exists k :: i <= k < n <= |events| && events[k].SettleEvent? && events[k].fetch == f && events[k].complete
  }

  lemma CompletedCovers(world: nat -> Table, states: seq<State>, events: seq<Event>, i: nat, n: nat, f: Fetch)
    requires Run(world, states, events) && i <= n < |states| && states[i].generation == states[n].generation == f.generation
    requires Completed(events, i, n, f)
    ensures Within(f.key.range, Part(states[n], f.key.partition).coverage)
  {
    hide Do, Enabled, Part;
    var k :| i <= k < n <= |events| && events[k].SettleEvent? && events[k].fetch == f && events[k].complete;
    GenerationsGrow(world, states, events, i, k);
    GenerationsGrow(world, states, events, k, k + 1);
    GenerationsGrow(world, states, events, k + 1, n);
    StepWidens(states[k], events[k], f.key.partition);
    CoverageWidens(world, states, events, k + 1, n, f.key.partition);
  }

  /** Every planned range is awaited, through a fetch of the current generation. */
  lemma PlannedIsAwaited(s: State, pks: seq<string>, q: RequestKey, f: Fetch) returns (g: Fetch)
    requires Registry(s) && f in Plans(s, pks, q)
    ensures g in Awaited(s, pks, q) && g.key == f.key && g.generation == s.generation
  {
    PlansMember(s, pks, q, f);
    if Shared(s.inFlight, f) {
      g :| g in s.inFlight && g.key == f.key;
    } else {
      g := f;
    }
    assert Shared(Plans(s, pks, q), g);
  }

  lemma RequestedIsCovered(world: nat -> Table, states: seq<State>, events: seq<Event>, i: nat, n: nat, pk: string)
    requires Run(world, states, events) && i < n < |states| && events[i].RequestEvent? && pk in events[i].pks
    requires states[i].generation == states[n].generation && Careful(states, events, n, pk)
    requires forall f :: f in Awaited(states[i], events[i].pks, events[i].q) ==> Completed(events, i + 1, n, f)
    ensures Within(events[i].q.range, Part(states[n], pk).coverage)
  {
    var s, pks, q := states[i], events[i].pks, events[i].q;
    CacheRunSound(world, states, events, i, pk);
    CoverageWidens(world, states, events, i, n, pk);
    GenerationsGrow(world, states, events, i, i + 1);
    GenerationsGrow(world, states, events, i + 1, n);
    forall f | f in Plan(Part(s, pk), pk, q, s.generation) ensures Within(f.key.range, Part(states[n], pk).coverage) {
      assert f.key.partition == pk;
      PlansMember(s, pks, q, f);
      var g := PlannedIsAwaited(s, pks, q, f);
      CompletedCovers(world, states, events, i + 1, n, g);
    }
    PlanFills(Part(s, pk), pk, q, s.generation, Part(states[n], pk).coverage);
  }

  /** Only what coverage lacks is fetched: a planned range ends where coverage begins or begins where it ends. */
  lemma PlanIsDelta(p: PartitionCache, pk: string, q: RequestKey, generation: nat, f: Fetch)
    requires f in Plan(p, pk, q, generation) && p.coverage.Some?
    ensures f.key.range.lo < f.key.range.hi
    ensures f.key.range.hi == p.coverage.value.lo || f.key.range.lo == p.coverage.value.hi
  {}

  /** Old coverage and the planned ranges together hold the request. */
  lemma PlanFills(p: PartitionCache, pk: string, q: RequestKey, generation: nat, after: Option<Range>)
    requires forall k :: k in p.exactKeys ==> Within(k.range, p.coverage)
    requires Widened(p.coverage, after)
    requires forall f :: f in Plan(p, pk, q, generation) ==> Within(f.key.range, after)
    ensures Within(q.range, after)
  {
    if q !in p.exactKeys {
      if p.coverage.None? {
        assert Fetch(FlightKey(pk, q.range, q.options), true, generation) in Plan(p, pk, q, generation);
      } else {
        var c := p.coverage.value;
        if q.range.lo < c.lo {
          assert Fetch(FlightKey(pk, Range(q.range.lo, c.lo), q.options), false, generation) in Plan(p, pk, q, generation);
        }
        if q.range.hi > c.hi {
          assert Fetch(FlightKey(pk, Range(c.hi, q.range.hi), q.options), false, generation) in Plan(p, pk, q, generation);
        }
      }
    }
  }

  /** The cache refines the direct query: a request whose fetches all completed, in any order, among any
      other requests and with those for this partition careful, selects exactly the rows stored in its
      range, which is what a range query of the table returns unless that query itself begins before 1970. */
  lemma CacheRefinesQuery(world: nat -> Table, states: seq<State>, events: seq<Event>, i: nat, n: nat, pk: string)
    requires Run(world, states, events) && i < n < |states| && events[i].RequestEvent? && pk in events[i].pks
    requires states[i].generation == states[n].generation && Careful(states, events, n, pk)
    requires forall f :: f in Awaited(states[i], events[i].pks, events[i].q) ==> Completed(events, i + 1, n, f)
    ensures var t, r := world(states[n].generation), events[i].q.range;
      && Select(Part(states[n], pk).rows, r) == Select(RowsOf(t, pk), r)
      && (0 <= r.lo || BoundsAgree(r.lo, r.hi) ==> Select(Part(states[n], pk).rows, r) == Query(t, pk, r))
  {
    hide Do, Enabled, Awaited, PartOk, NoGap, Query, Select, Within;
    var r, t := events[i].q.range, states[n];
    CacheRunSound(world, states, events, n, pk);
    RequestedIsCovered(world, states, events, i, n, pk);
    assert MayRequest(states[i], pk, events[i].q);
    CoveredIsRight(world(t.generation), pk, Part(t, pk), r);
  }

  /** A range inside honest coverage is served as the direct query would, where that is right. */
  lemma CoveredIsRight(t: Table, pk: string, p: PartitionCache, r: Range)
    requires TableOk(t) && PartOk(p, RowsOf(t, pk)) && Within(r, p.coverage) && r.lo <= r.hi
    ensures Select(p.rows, r) == Select(RowsOf(t, pk), r)
    ensures 0 <= r.lo ==> BoundsAgree(r.lo, r.hi)
    ensures BoundsAgree(r.lo, r.hi) ==> Select(p.rows, r) == Query(t, pk, r)
  {
    hide Query, TableOk, Cut;
    var stored := RowsOf(t, pk);
    forall k | k in Select(stored, r) ensures k in p.rows { assert k in Select(stored, p.coverage.value); }
    if BoundsAgree(r.lo, r.hi) { QueryIsSelect(t, pk, r); }
  }

  // ---- environments ----

  /** This answer brought row `k` of a partition, in the generation that asked. */
  predicate Brings(s: State, e: Event, pk: string, k: string, row: Row<Reading>) {
    && e.SettleEvent? && e.fetch.generation == s.generation && e.fetch.key.partition == pk
    && k in e.rows && e.rows[k] == row
  }

  lemma StepRow(s: State, e: Event, pk: string, k: string)
    requires k in Part(Do(s, e), pk).rows
    ensures Do(s, e).generation == s.generation
    ensures || Brings(s, e, pk, k, Part(Do(s, e), pk).rows[k])
            || (k in Part(s, pk).rows && Part(s, pk).rows[k] == Part(Do(s, e), pk).rows[k])
  {
    hide Plans;
  }

  /** Every cached row was brought by a fetch of the generation that shows it. */
  lemma {:induction false} EnvironmentIsolation(world: nat -> Table, states: seq<State>, events: seq<Event>, n: nat, pk: string, k: string)
    requires Run(world, states, events) && n < |states| && k in Part(states[n], pk).rows
    ensures exists m :: 0 <= m < n && states[m].generation == states[n].generation
                        && Brings(states[m], events[m], pk, k, Part(states[n], pk).rows[k])
  {
    hide Do, Enabled, Brings;
    if n > 0 {
      StepRow(states[n - 1], events[n - 1], pk, k);
      if !Brings(states[n - 1], events[n - 1], pk, k, Part(states[n], pk).rows[k]) {
        EnvironmentIsolation(world, states, events, n - 1, pk, k);
      }
    }
  }

  /** What the answers of the current generation brought for a partition, complete or not, the last one
      counting where two brought the same key. */
  ghost function Brought(states: seq<State>, events: seq<Event>, n: nat, pk: string): Rows
    requires n < |states| == |events| + 1
  {
    if n == 0 then map[]
    else
      var e, before := events[n - 1], Brought(states, events, n - 1, pk);
      if e.ClearEvent? then map[]
      else if e.SettleEvent? && e.fetch.generation == states[n - 1].generation && e.fetch.key.partition == pk then before + e.rows
      else before
  }

  lemma StepRows(s: State, e: Event, pk: string)
    ensures Part(Do(s, e), pk).rows ==
      if e.ClearEvent? then map[]
      else if e.SettleEvent? && e.fetch.generation == s.generation && e.fetch.key.partition == pk then Part(s, pk).rows + e.rows
      else Part(s, pk).rows
  {
    hide Plans;
    if e.RequestEvent? { RequestKeepsPart(s, e.pks, e.q, pk); }
  }

  /** In every run exactly the rows brought in the current generation are cached. */
  lemma {:induction false} CachedIsBrought(world: nat -> Table, states: seq<State>, events: seq<Event>, n: nat, pk: string)
    requires Run(world, states, events) && n < |states|
    ensures Part(states[n], pk).rows == Brought(states, events, n, pk)
  {
    hide Do, Enabled;
    if n > 0 {
      CachedIsBrought(world, states, events, n - 1, pk);
      StepRows(states[n - 1], events[n - 1], pk);
    }
  }

  /** A row brought by any answer, complete or not, is served from then on until the next switch. */
  lemma {:induction false} BroughtIsServed(world: nat -> Table, states: seq<State>, events: seq<Event>, m: nat, n: nat,
      pk: string, k: string, row: Row<Reading>, r: Range)
    requires Run(world, states, events) && m < n < |states| && states[m].generation == states[n].generation
    requires Brings(states[m], events[m], pk, k, row) && r.lo <= row.ts <= r.hi
    ensures k in Select(Part(states[n], pk).rows, r) && Select(Part(states[n], pk).rows, r)[k] == row
  {
    hide Do, Query;
    GenerationsGrow(world, states, events, m, n - 1);
    GenerationsGrow(world, states, events, n - 1, n);
    StepRows(states[n - 1], events[n - 1], pk);
    assert Enabled(world, states[n - 1], events[n - 1]);
    assert Enabled(world, states[m], events[m]);
    SwitchMovesOn(states[n - 1], events[n - 1]);
    if m < n - 1 { BroughtIsServed(world, states, events, m, n - 1, pk, k, row, r); }
    var e := events[n - 1];
    if e.SettleEvent? && e.fetch.generation == states[n - 1].generation && e.fetch.key.partition == pk && k in e.rows {
      SameRow(world(states[n].generation), pk, e.fetch.key.range, events[m].fetch.key.range, k);
    }
  }

  lemma SwitchMovesOn(s: State, e: Event)
    ensures e.ClearEvent? ==> Do(s, e).generation == s.generation + 1
  {}

  /** Whatever the range asked for, a key has one row. */
  lemma SameRow(t: Table, pk: string, a: Range, b: Range, k: string)
    requires k in Query(t, pk, a) && k in Query(t, pk, b)
    ensures Query(t, pk, a)[k] == Query(t, pk, b)[k]
  {}

  lemma StepPending(s: State, e: Event, f: Fetch)
    requires f in Do(s, e).pending && f !in s.pending
    ensures e.RequestEvent? && f in Plans(s, e.pks, e.q) && f.generation == s.generation
  {
    hide Plans, Plan;
    match e
    case RequestEvent(pks, q) =>
      assert f in Plans(s, pks, q);
      PlansMember(s, pks, q, f);
      PlanIsCurrent(Part(s, f.key.partition), f.key.partition, q, s.generation, f);
    case _ =>
  }

  /** Every outstanding fetch was started by a request of the generation it carries. */
  lemma {:induction false} FetchHasRequest(world: nat -> Table, states: seq<State>, events: seq<Event>, n: nat, f: Fetch)
    requires Run(world, states, events) && n < |states| && f in states[n].pending
    ensures exists m :: 0 <= m < n && events[m].RequestEvent? && states[m].generation == f.generation
                        && f in Plans(states[m], events[m].pks, events[m].q)
  {
    hide Do, Enabled, Plans;
    if n > 0 {
      if f in states[n - 1].pending {
        FetchHasRequest(world, states, events, n - 1, f);
      } else {
        StepPending(states[n - 1], events[n - 1], f);
      }
    }
  }

  lemma JoinsOnlyOwnGeneration(world: nat -> Table, states: seq<State>, events: seq<Event>, n: nat, f: Fetch)
    requires Run(world, states, events) && n < |events| && events[n].RequestEvent?
    requires f in Awaited(states[n], events[n].pks, events[n].q)
    ensures f.generation == states[n].generation
  {
    hide Do, Enabled, Plans;
    RegistryRun(world, states, events, n);
    RequestKeepsRegistry(states[n], events[n].pks, events[n].q);
  }

  // ---- the caller's condition is exact ----

  function FirstFetch(pk: string, r: Range, o: Options): Fetch {
    Fetch(FlightKey(pk, r, o), true, 0)
  }

  /** A first request and its complete answer. */
  function AfterOne(t: Table, pk: string, r: Range, o: Options): State {
    var asked := Request(NEW_SESSION, [pk], RequestKey(r, o));
    Settle(asked, FirstFetch(pk, r, o), Query(t, pk, r), true)
  }

  /** Two requests before any answer, then both complete answers. */
  function AfterTwo(t: Table, pk: string, a: Range, b: Range, o: Options): State {
    var asked := Request(Request(NEW_SESSION, [pk], RequestKey(a, o)), [pk], RequestKey(b, o));
    Settle(Settle(asked, FirstFetch(pk, a, o), Query(t, pk, a), true), FirstFetch(pk, b, o), Query(t, pk, b), true)
  }

  /** A request that the cache answers without a fetch, and the direct query answers right. */
  predicate Served(s: State, pk: string, q: RequestKey) {
    q.range.lo <= q.range.hi && BoundsAgree(q.range.lo, q.range.hi) && Plan(Part(s, pk), pk, q, s.generation) == {}
  }

  /** Every such request gets what the direct query returns. */
  ghost predicate ServesRight(s: State, t: Table, pk: string) {
    forall q: RequestKey :: Served(s, pk, q) ==> Select(Part(s, pk).rows, q.range) == Query(t, pk, q.range)
  }

  /** A request without coverage starts its fetch, unless the same one is in flight. */
  lemma FirstIsPending(s: State, pk: string, r: Range, o: Options)
    requires s.generation == 0 && Part(s, pk) == EMPTY && !Shared(s.inFlight, FirstFetch(pk, r, o))
    ensures FirstFetch(pk, r, o) in Request(s, [pk], RequestKey(r, o)).pending
  {
    PlansMember(s, [pk], RequestKey(r, o), FirstFetch(pk, r, o));
  }

  /** Both are runs of the cache. */
  lemma TheseAreRuns(world: nat -> Table, pk: string, a: Range, b: Range, o: Options)
    requires (forall g: nat :: TableOk(world(g))) && a != b
    ensures var t, fa, fb := world(0), FirstFetch(pk, a, o), FirstFetch(pk, b, o);
      var s1 := Request(NEW_SESSION, [pk], RequestKey(a, o));
      var s2 := Request(s1, [pk], RequestKey(b, o));
      var askA, askB := RequestEvent([pk], RequestKey(a, o)), RequestEvent([pk], RequestKey(b, o));
      var ansA, ansB := SettleEvent(fa, Query(t, pk, a), true), SettleEvent(fb, Query(t, pk, b), true);
      && Run(world, [NEW_SESSION, s1, AfterOne(t, pk, a, o)], [askA, ansA])
      && Run(world, [NEW_SESSION, s1, s2, Settle(s2, fa, Query(t, pk, a), true), AfterTwo(t, pk, a, b, o)], [askA, askB, ansA, ansB])
  {
    hide Query, TableOk, Plans, Merge;
    var t, fa, fb := world(0), FirstFetch(pk, a, o), FirstFetch(pk, b, o);
    var s1 := Request(NEW_SESSION, [pk], RequestKey(a, o));
    var s2 := Request(s1, [pk], RequestKey(b, o));
    FirstIsPending(NEW_SESSION, pk, a, o);
    forall g | g in s1.inFlight ensures g.key != fb.key { PlansMember(NEW_SESSION, [pk], RequestKey(a, o), g); }
    FirstIsPending(s1, pk, b, o);
    assert fa in s2.pending && fb in Settle(s2, fa, Query(t, pk, a), true).pending;
  }

  lemma PartAfterOne(t: Table, pk: string, r: Range, o: Options)
    ensures Part(AfterOne(t, pk, r, o), pk) == Merge(EMPTY, FirstFetch(pk, r, o), Query(t, pk, r), true)
  {
    hide Plans, Query, Merge;
  }

  lemma PartAfterTwo(t: Table, pk: string, a: Range, b: Range, o: Options)
    ensures Part(AfterTwo(t, pk, a, b, o), pk)
         == Merge(Merge(EMPTY, FirstFetch(pk, a, o), Query(t, pk, a), true), FirstFetch(pk, b, o), Query(t, pk, b), true)
  {
    hide Plans, Query, Merge;
  }

  /** What is answered without a fetch lies in coverage. */
  lemma UnplannedIsCovered(p: PartitionCache, pk: string, q: RequestKey, generation: nat)
    requires forall k :: k in p.exactKeys ==> Within(k.range, p.coverage)
    requires Plan(p, pk, q, generation) == {}
    ensures Within(q.range, p.coverage)
  {
    PlanFills(p, pk, q, generation, p.coverage);
  }

  lemma SoundServesRight(s: State, t: Table, pk: string)
    requires TableOk(t) && PartOk(Part(s, pk), RowsOf(t, pk))
    ensures ServesRight(s, t, pk)
  {
    hide Plan, Query, TableOk, Select, BoundsAgree;
    var p := Part(s, pk);
    forall q: RequestKey | Served(s, pk, q)
      ensures Select(p.rows, q.range) == Query(t, pk, q.range)
    {
      UnplannedIsCovered(p, pk, q, s.generation);
      CoveredIsRight(t, pk, p, q.range);
    }
  }

  /** A range that begins before 1970 and ends after: nothing comes back, and from then on every request
      inside it is answered with nothing, whatever is stored. */
  lemma NegativeStartServesNothing(t: Table, pk: string, r: Range, o: Options, q: RequestKey)
    requires TableOk(t) && r.lo < 0 <= r.hi && r.lo <= q.range.lo <= q.range.hi <= r.hi
    ensures Plan(Part(AfterOne(t, pk, r, o), pk), pk, q, 0) == {}
    ensures Select(Part(AfterOne(t, pk, r, o), pk).rows, q.range) == map[]
  {
    hide Query;
    PartAfterOne(t, pk, r, o);
    StraddlingQuery(t, pk, r);
  }

  lemma StraddlingQuery(t: Table, pk: string, r: Range)
    requires TableOk(t) && r.lo < 0 <= r.hi
    ensures Query(t, pk, r) == map[]
  {
    hide Selected, RowKey;
    forall k | k in RowsOf(t, pk) ensures !Selected(k, r.lo, r.hi) {
      var p: KeyParts :| k == RowKey(p) && p.ts == RowsOf(t, pk)[k].ts;
      StraddlingSelectsNothing(p, r.lo, r.hi);
    }
  }

  /** A query before 1970 returns at most rows of a far future. */
  lemma EarlyQueryIsFar(t: Table, pk: string, r: Range)
    requires TableOk(t) && r.lo < 0
    ensures forall k :: k in Query(t, pk, r) ==> Query(t, pk, r)[k].ts > DATE_LIMIT
  {
    hide Selected, RowKey;
    forall k | k in Query(t, pk, r) ensures Query(t, pk, r)[k].ts > DATE_LIMIT {
      var p: KeyParts :| k == RowKey(p) && p.ts == RowsOf(t, pk)[k].ts;
      FilterSelects(p, r.lo, r.hi);
    }
  }

  /** One such case: a dashboard from a second before 1970 on hides the reading of its first second. */
  lemma HiddenReading(o: Options)
    ensures var t, r, q := Single("n", 500), Range(-1000, 2000), RequestKey(Range(0, 1000), o);
      && TableOk(t) && Plan(Part(AfterOne(t, "n", r, o), "n"), "n", q, 0) == {}
      && Select(Part(AfterOne(t, "n", r, o), "n").rows, q.range) == map[]
      && Query(t, "n", q.range) == t["n"] != map[]
  {
    hide Plan, Select, Query, TableOk, RowKey;
    var t, r, q := Single("n", 500), Range(-1000, 2000), RequestKey(Range(0, 1000), o);
    SingleOk("n", 500, q.range);
    NegativeStartServesNothing(t, "n", r, o, q);
    assert RowKey(KeyParts(500, 0, 0)) in t["n"];
  }

  lemma AdjacentServesRight(t: Table, pk: string, a: Range, b: Range, o: Options)
    requires TableOk(t) && 0 <= a.lo <= a.hi && 0 <= b.lo <= b.hi && Adjacent(a, b)
    ensures ServesRight(AfterTwo(t, pk, a, b, o), t, pk)
  {
    hide ServesRight, TableOk, Query, AfterTwo;
    PartAfterTwo(t, pk, a, b, o);
    QueryIsSelect(t, pk, a);
    QueryIsSelect(t, pk, b);
    var fa, fb, stored := FirstFetch(pk, a, o), FirstFetch(pk, b, o), RowsOf(t, pk);
    MergeCovers(EMPTY, fa, Query(t, pk, a), stored);
    MergeCovers(Merge(EMPTY, fa, Query(t, pk, a), true), fb, Query(t, pk, b), stored);
    SoundServesRight(AfterTwo(t, pk, a, b, o), t, pk);
  }

  /** A third request, for the gap: the cache answers it at once and without the row that is stored there. */
  lemma GapServesWrong(pk: string, a: Range, b: Range, o: Options) returns (t: Table, q: RequestKey)
    requires 0 <= a.lo <= a.hi && 0 <= b.lo <= b.hi && !Adjacent(a, b)
    ensures TableOk(t)
    ensures var s := AfterTwo(t, pk, a, b, o);
      && Served(s, pk, q)
      && Select(Part(s, pk).rows, q.range) == map[] != Query(t, pk, q.range)
  {
    hide TableOk, Query, AfterTwo, RowKey;
    var gap: DateMs := if a.hi < b.lo then a.hi + 1 else b.hi + 1;
    q := RequestKey(Range(gap, gap), o);
    t := Single(pk, gap);
    SingleOk(pk, gap, a);
    SingleOk(pk, gap, b);
    SingleOk(pk, gap, q.range);
    PartAfterTwo(t, pk, a, b, o);
    assert RowKey(KeyParts(gap, 0, 0)) in Query(t, pk, q.range);
  }

  /** Two first requests outstanding together leave a cache that serves every table right exactly when
      their ranges overlap or abut. */
  lemma FirstFetchesSoundIff(pk: string, a: Range, b: Range, o: Options)
    requires 0 <= a.lo <= a.hi && 0 <= b.lo <= b.hi
    ensures (forall t: Table :: TableOk(t) ==> ServesRight(AfterTwo(t, pk, a, b, o), t, pk)) <==> Adjacent(a, b)
  {
    hide AfterTwo, TableOk, Plan, Select, Query;
    if Adjacent(a, b) {
      forall t: Table | TableOk(t) ensures ServesRight(AfterTwo(t, pk, a, b, o), t, pk) {
        AdjacentServesRight(t, pk, a, b, o);
      }
    } else {
      var t, q := GapServesWrong(pk, a, b, o);
    }
  }
}
