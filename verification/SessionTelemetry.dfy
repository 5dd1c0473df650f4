/** The session cache as the page holds it: one mutable object, changed between awaits. */
module SessionTelemetry {
  import opened HistoryStore
  import opened SensorCache
  import opened Wrappers

  type Entity = (string, Row<Reading>)

  /** What `rowsByKey.set` leaves after a list of rows. */
  function Stored(rows: seq<Entity>): Rows {
    if rows == [] then map[] else Stored(rows[..|rows| - 1])[rows[|rows| - 1].0 := rows[|rows| - 1].1]
  }

  /** Reading one more partition adds it to the touched ones and its plan to the plans. */
  lemma NextPlan(s: State, pks: seq<string>, i: nat, q: RequestKey)
    requires i < |pks|
    ensures Touch(s.parts, pks[..i + 1]) == Touch(s.parts, pks[..i])[pks[i] := Part(s, pks[i])]
    ensures Part(s.(parts := Touch(s.parts, pks[..i])), pks[i]) == Part(s, pks[i])
    ensures Plans(s, pks[..i + 1], q) == Plans(s, pks[..i], q) + Plan(Part(s, pks[i]), pks[i], q, s.generation)
  {
    hide Plan;
    assert pks[..i + 1][..i] == pks[..i] && pks[..i + 1] == pks[..i] + [pks[i]];
  }

  lemma NoPlans(s: State, pks: seq<string>, q: RequestKey)
    ensures Touch(s.parts, pks[..0]) == s.parts && Plans(s, pks[..0], q) == {}
  {}

  class TelemetryCache {
    var generation: nat
    var parts: map<string, PartitionCache>
    var inFlight: set<Fetch>
    /** Fetches not yet answered, whoever still holds their promise. */
    ghost var pending: set<Fetch>

    ghost function Abs(): State
      reads this
    {
      State(generation, parts, inFlight, pending)
    }

    constructor ()
      ensures Abs() == State(0, map[], {}, {})
    {
      generation, parts, inFlight, pending := 0, map[], {}, {};
    }

    method ClearSessionTelemetryCache()
      modifies this
      ensures Abs() == Clear(old(Abs()))
    {
      generation := generation + 1;
      parts := map[];
      inFlight := {};
    }

    method GetPartition(pk: string) returns (p: PartitionCache)
      modifies this`parts
      ensures p == Part(old(Abs()), pk)
      ensures parts == old(parts)[pk := p]
    {
      if pk !in parts { parts := parts[pk := EMPTY]; }
      p := parts[pk];
    }

    /** The plan loop and the join-or-start loop of `getCachedSensorDataRows`. */
    method BeginRequest(pks: seq<string>, q: RequestKey) returns (awaited: set<Fetch>)
      modifies this
      ensures Abs() == Request(old(Abs()), pks, q)
      ensures awaited == Awaited(old(Abs()), pks, q)
    {
      hide Plan, Plans, Touch, Request, Awaited;
      ghost var before := Abs();
      var plans: set<Fetch> := {};
      NoPlans(before, pks, q);
      for i := 0 to |pks|
        invariant generation == before.generation && inFlight == before.inFlight && pending == before.pending
        invariant parts == Touch(before.parts, pks[..i])
        invariant plans == Plans(before, pks[..i], q)
      {
        NextPlan(before, pks, i, q);
        var p := GetPartition(pks[i]);
        plans := plans + Plan(p, pks[i], q, generation);
      }
      assert pks[..|pks|] == pks;
      awaited := StartAll(plans, before, pks, q);
    }

    method StartAll(plans: set<Fetch>, ghost before: State, ghost pks: seq<string>, ghost q: RequestKey)
      returns (awaited: set<Fetch>)
      requires plans == Plans(before, pks, q)
      requires Abs() == before.(parts := Touch(before.parts, pks))
      modifies this`inFlight, this`pending
      ensures Abs() == Request(before, pks, q)
      ensures awaited == Awaited(before, pks, q)
    {
      var todo := plans;
      while todo != {}
        invariant todo <= plans && generation == before.generation && parts == Touch(before.parts, pks)
        invariant inFlight == before.inFlight + (set f | f in plans - todo && !Shared(before.inFlight, f))
        invariant pending == before.pending + (set f | f in plans - todo && !Shared(before.inFlight, f))
        decreases todo
      {
        var f :| f in todo;
        ghost var joins := Shared(before.inFlight, f);
        if !Shared(inFlight, f) {
          inFlight := inFlight + {f};
          pending := pending + {f};
        } else if !joins {
          var g :| g in inFlight && g.key == f.key;
          assert g in plans - todo;
          PlanKeyDecides(before, pks, q, f, g);
        }
        assert !Shared(before.inFlight, f) || joins;
        todo := todo - {f};
      }
      awaited := set g | g in inFlight && Shared(plans, g);
    }

    /** `mergeSensorRowsIntoCache`: rows always, the exact key and the coverage only when complete. */
    method MergeSensorRows(f: Fetch, rows: seq<Entity>, complete: bool)
      modifies this`parts
      ensures parts == old(parts)[f.key.partition := Merge(Part(old(Abs()), f.key.partition), f, Stored(rows), complete)]
    {
      var p := GetPartition(f.key.partition);
      var cached := p.rows;
      for i := 0 to |rows|
        invariant cached == p.rows + Stored(rows[..i])
      {
        assert rows[..i + 1][..i] == rows[..i];
        cached := cached[rows[i].0 := rows[i].1];
      }
      assert rows[..|rows|] == rows;
      var exactKeys, coverage := p.exactKeys, p.coverage;
      if complete && f.exact {
        exactKeys := exactKeys + {RequestKey(f.key.range, f.key.options)};
      }
      if complete {
        var r := f.key.range;
        coverage := if coverage.None? then Some(r)
                    else Some(Range(if coverage.value.lo < r.lo then coverage.value.lo else r.lo,
                                    if coverage.value.hi > r.hi then coverage.value.hi else r.hi));
      }
      parts := parts[f.key.partition := PartitionCache(cached, exactKeys, coverage)];
    }

    /** A query answers; its rows are merged unless the generation has moved on. */
    method SettleFetch(f: Fetch, rows: seq<Entity>, complete: bool)
      modifies this
      ensures Abs() == Settle(old(Abs()), f, Stored(rows), complete)
    {
      hide Merge, Stored;
      if f.generation == generation { MergeSensorRows(f, rows, complete); }
      pending, inFlight := pending - {f}, inFlight - {f};
    }

    method SelectCachedSensorRows(pk: string, r: Range) returns (selected: Rows)
      modifies this`parts
      ensures selected == Select(Part(old(Abs()), pk).rows, r)
      ensures forall k :: Part(Abs(), k) == Part(old(Abs()), k)
    {
      var p := GetPartition(pk);
      var todo := p.rows.Keys;
      selected := map[];
      while todo != {}
        invariant todo <= p.rows.Keys
        invariant selected == map k | k in p.rows && k !in todo && r.lo <= p.rows[k].ts <= r.hi :: p.rows[k]
        decreases todo
      {
        var k :| k in todo;
        if r.lo <= p.rows[k].ts <= r.hi { selected := selected[k := p.rows[k]]; }
        todo := todo - {k};
      }
    }
  }

  // ---- paging ----

  /** One response of the table service: rows, and a continuation token when there may be more. */
  datatype Page = Page(rows: seq<Entity>, next: Option<string>)

  datatype Fetched = Fetched(rows: seq<Entity>, complete: bool) | RepeatedToken | TooManyPages

  function Concat(pages: seq<Page>): seq<Entity> {
    if pages == [] then [] else Concat(pages[..|pages| - 1]) + pages[|pages| - 1].rows
  }

  lemma NoRows(pages: seq<Page>)
    ensures Concat(pages[..0]) == []
  {}

  lemma ConcatNext(pages: seq<Page>, i: nat)
    requires i < |pages|
    ensures Concat(pages[..i + 1]) == Concat(pages[..i]) + pages[i].rows
  {
    assert pages[..i + 1][..i] == pages[..i];
  }

  /** A service that ends: every page but the last has a token, and no token comes twice. */
  predicate Paged(pages: seq<Page>) {
    && pages != [] && pages[|pages| - 1].next.None?
    && (forall i :: 0 <= i < |pages| - 1 ==> pages[i].next.Some?)
    && (forall i, j :: 0 <= i < j < |pages| - 1 ==> pages[i].next != pages[j].next)
  }

  /** The service answers as often as it may be asked. */
  predicate Answers(pages: seq<Page>, maxPages: nat) {
    |pages| >= maxPages || (pages != [] && pages[|pages| - 1].next.None?)
  }

  /** The paging loop of `queryPartitionedTableRange` for one partition. An answer is complete exactly
      when the service was read to its end, and then it holds every row; a token that comes twice is
      an error. With no page allowed it claims a complete answer without having asked. */
  method FetchPartition(pages: seq<Page>, maxPages: nat, requireComplete: bool) returns (r: Fetched)
    requires Answers(pages, maxPages)
    ensures Paged(pages) && maxPages >= |pages| ==> r == Fetched(Concat(pages), true)
    ensures Paged(pages) && 0 < maxPages < |pages| ==>
              r == if requireComplete then TooManyPages else Fetched(Concat(pages[..maxPages]), false)
    ensures maxPages == 0 ==> r == Fetched([], true)
    ensures r.Fetched? && r.complete && maxPages > 0 ==>
              exists n :: 0 < n <= maxPages && n <= |pages| && pages[n - 1].next.None? && r.rows == Concat(pages[..n])
    ensures r.RepeatedToken? ==>
              exists i, j :: 0 <= i < j < |pages| && j < maxPages && pages[i].next.Some? && pages[i].next == pages[j].next
  {
    hide Concat;
    var entities: seq<Entity>, next: Option<string>, seen: set<string>, page := [], None, {}, 0;
    assert Concat(pages[..0]) == [] by { NoRows(pages); }
    while page < maxPages
      invariant page <= maxPages && page <= |pages|
      invariant entities == Concat(pages[..page])
      invariant page == 0 ==> next.None?
      invariant 0 < page ==> next == pages[page - 1].next && next.Some?
      invariant forall t :: t in seen <==> exists i :: 0 <= i < page && pages[i].next == Some(t)
    {
      ConcatNext(pages, page);
      entities := entities + pages[page].rows;
      next := pages[page].next;
      page := page + 1;
      if next.None? {
        assert entities == Concat(pages[..page]) && pages[page - 1].next.None?;
        break;
      }
      if next.value in seen { return RepeatedToken; }
      seen := seen + {next.value};
    }
    assert pages[..|pages|] == pages;
    if requireComplete && next.Some? { return TooManyPages; }
    r := Fetched(entities, next.None?);
  }
}
