/** Gateway ACTUAL_STATE handling and the life of a rotation payload.

The gateway partition may hold one legacy row with the key "state" from before
history rows existed. The desired partition is written by the web client (a
rotation payload) and by the handler (a row that clears it). */
module GatewayReconcile {
  import opened Numerals
  import opened RowKeys
  import opened HistoryStore
  import opened Wrappers

  type Bytes = seq<bv8>
  type Epoch = Option<u64>
  type Wanted = Partition<Option<Bytes>>

  const LEGACY_KEY := "state"

  datatype Outcome = Superseded | Stale | Quiet | Failed | Sent

  /** Where a handler is between two awaits. `previous` is the row it loaded first, `seen` the
      partition as its re-read found it, `wanted` the desired partition as it was loaded. */
  datatype Stage =
    | LoadingPrevious
    | Appending(previous: Option<Row<Epoch>>)
    | Rereading(previous: Option<Row<Epoch>>, key: string)
    | LoadingDesired(previous: Option<Row<Epoch>>, seen: Partition<Epoch>)
    | Clearing(previous: Option<Row<Epoch>>, seen: Partition<Epoch>)
    | Publishing(previous: Option<Row<Epoch>>, seen: Partition<Epoch>, wanted: Wanted, payload: Option<Bytes>)
    | Finished(outcome: Outcome)

  /** `psks` are the recovered key records latched before the append. */
  datatype Job = Job(report: Row<Epoch>, psks: seq<Bytes>, stage: Stage)

  datatype Publication = Publication(previous: Option<Row<Epoch>>, report: Row<Epoch>, seen: Partition<Epoch>,
                                     wanted: Wanted, payload: Option<Bytes>, psks: seq<Bytes>)

  datatype State = State(
    actual: Partition<Epoch>,
    desired: Wanted,
    jobs: map<nat, Job>,
    published: seq<Publication>)

  datatype Answer = Stored | LostAck | Refused

  datatype Event =
    | Deliver(id: nat, report: Row<Epoch>, psks: seq<Bytes>)
    | LoadPrevious(id: nat, ok: bool)
    | Append(id: nat, parts: KeyParts, answer: Answer)
    | Reread(id: nat, ok: bool)
    | LoadDesired(id: nat, ok: bool)
    | Clear(id: nat, parts: KeyParts, answer: Answer)
    | Publish(id: nat, answer: Answer)
    | Submit(parts: KeyParts, payload: Bytes)

  ghost predicate Enabled(s: State, e: Event) {
    match e
    case Deliver(id, _, _) => id !in s.jobs
    case LoadPrevious(id, _) => id in s.jobs && s.jobs[id].stage.LoadingPrevious?
    case Append(id, parts, _) => id in s.jobs && s.jobs[id].stage.Appending? && parts.ts == s.jobs[id].report.ts
    case Reread(id, _) => id in s.jobs && s.jobs[id].stage.Rereading?
    case LoadDesired(id, _) => id in s.jobs && s.jobs[id].stage.LoadingDesired?
    case Clear(id, parts, _) => id in s.jobs && s.jobs[id].stage.Clearing? && parts.ts == s.jobs[id].report.ts
    case Publish(id, _) => id in s.jobs && s.jobs[id].stage.Publishing?
    case Submit(parts, _) => RowKey(parts) !in s.desired
  }

  function EpochOf(e: Epoch): u64 {
    if e.Some? then e.value else 0
  }

  predicate EpochIncremented(previous: Option<Row<Epoch>>, report: Row<Epoch>) {
    previous.Some? && EpochOf(report.data) > EpochOf(previous.value.data)
  }

  /** Pre-append guard: a report older than the row loaded first is not stored at all. */
  ghost function AfterPrevious(report: Row<Epoch>, actual: Partition<Epoch>): Stage {
    var previous := Latest(actual);
    if previous.Some? && previous.value.ts > report.ts then Finished(Superseded) else Appending(previous)
  }

  /** Post-append guard, against rows appended meanwhile. */
  ghost function AfterReread(report: Row<Epoch>, previous: Option<Row<Epoch>>, actual: Partition<Epoch>): Stage {
    match Latest(actual)
    case None => Finished(Failed)
    case Some(newest) => if newest.ts > report.ts then Finished(Stale) else LoadingDesired(previous, actual)
  }

  function AfterPayload(j: Job, wanted: Wanted, payload: Option<Bytes>): Stage
    requires j.stage.LoadingDesired? || j.stage.Clearing?
  {
    if payload.None? && j.psks == [] then Finished(Quiet)
    else Publishing(j.stage.previous, j.stage.seen, wanted, payload)
  }

  ghost function AfterDesired(j: Job, desired: Wanted): Stage
    requires j.stage.LoadingDesired?
  {
    var pending := match Latest(desired) case None => None case Some(row) => row.data;
    if !EpochIncremented(j.stage.previous, j.report) then AfterPayload(j, desired, pending)
    else if pending.Some? then Clearing(j.stage.previous, j.stage.seen)
    else AfterPayload(j, desired, None)
  }

  function Move(s: State, id: nat, stage: Stage): State
    requires id in s.jobs
  {
    s.(jobs := s.jobs[id := s.jobs[id].(stage := stage)])
  }

  ghost function Do(s: State, e: Event): State
    requires Enabled(s, e)
  {
    match e
    case Deliver(id, report, psks) => s.(jobs := s.jobs[id := Job(report, psks, LoadingPrevious)])
    case LoadPrevious(id, ok) =>
      Move(s, id, if ok then AfterPrevious(s.jobs[id].report, s.actual) else Finished(Failed))
    case Append(id, parts, answer) =>
      var key := RowKey(parts);
      if answer.Refused? || key in s.actual then Move(s, id, Finished(Failed))
      else
        var stored := s.(actual := s.actual[key := s.jobs[id].report]);
        Move(stored, id, if answer.LostAck? then Finished(Failed) else Rereading(s.jobs[id].stage.previous, key))
    case Reread(id, ok) =>
      var j := s.jobs[id];
      Move(s, id, if ok then AfterReread(j.report, j.stage.previous, s.actual) else Finished(Failed))
    case LoadDesired(id, ok) =>
      Move(s, id, if ok then AfterDesired(s.jobs[id], s.desired) else Finished(Failed))
    case Clear(id, parts, answer) =>
      var key, j := RowKey(parts), s.jobs[id];
      if answer.Refused? || key in s.desired then Move(s, id, Finished(Failed))
      else
        var stored := s.(desired := s.desired[key := Row(parts.ts, None)]);
        Move(stored, id, if answer.LostAck? then Finished(Failed) else AfterPayload(j, s.desired, None))
    case Publish(id, answer) =>
      var j := s.jobs[id];
      if answer.Refused? then Move(s, id, Finished(Failed))
      else
        var p := Publication(j.stage.previous, j.report, j.stage.seen, j.stage.wanted, j.stage.payload, j.psks);
        Move(s.(published := s.published + [p]), id, Finished(if answer.LostAck? then Failed else Sent))
    case Submit(parts, payload) => s.(desired := s.desired[RowKey(parts) := Row(parts.ts, Some(payload))])
  }

  /** Before the run there may be history rows, the legacy row, or both. */
  ghost predicate Initial(s: State) {
    Keyed(s.actual) && s.jobs == map[] && s.published == []
  }

  ghost predicate Steps(states: seq<State>, events: seq<Event>) {
    && |states| == |events| + 1
    && forall i :: 0 <= i < |events| ==> Enabled(states[i], events[i]) && states[i + 1] == Do(states[i], events[i])
  }

  ghost predicate Run(states: seq<State>, events: seq<Event>) {
    Steps(states, events) && Initial(states[0])
  }

  // ---- the latest view never regresses ----

  ghost predicate Keyed(actual: Partition<Epoch>) {
    forall k :: k in actual && k != LEGACY_KEY ==> KeyFor(k, actual[k].ts)
  }

  /** The row behind the smallest key has the greatest timestamp of all rows. */
  ghost predicate ViewIsNewest(actual: Partition<Epoch>) {
    actual != map[] ==> forall k :: k in actual ==> actual[k].ts <= Latest(actual).value.ts
  }

  predicate OnlyLegacy(actual: Partition<Epoch>) {
    LEGACY_KEY in actual && forall k :: k in actual ==> k == LEGACY_KEY
  }

  /** The legacy row is missing, alone, or not newer than some history row. */
  predicate LegacyNotAhead(actual: Partition<Epoch>) {
    || LEGACY_KEY !in actual
    || OnlyLegacy(actual)
    || exists k :: k in actual && k != LEGACY_KEY && actual[k].ts >= actual[LEGACY_KEY].ts
  }

  /** While the legacy row is alone, a report about to be appended is not older. */
  predicate PassedGuard(actual: Partition<Epoch>, ts: u64) {
    OnlyLegacy(actual) ==> ts >= actual[LEGACY_KEY].ts
  }

  /** `report` was the newest history row when it was re-read, and the newest row of all unless the legacy
      row was ahead of the history then; those rows are still there. */
  ghost predicate NewestSeen(s: State, report: Row<Epoch>, seen: Partition<Epoch>) {
    && Grew(seen, s.actual)
    && (exists k :: k in seen && seen[k] == report)
    && (forall k :: k in seen && (LegacyNotAhead(seen) || k != LEGACY_KEY) ==> seen[k].ts <= report.ts)
  }

  ghost predicate JobOk(s: State, j: Job) {
    match j.stage
    case Appending(_) => PassedGuard(s.actual, j.report.ts)
    case Rereading(_, key) => key in s.actual && key != LEGACY_KEY && s.actual[key] == j.report
    case LoadingDesired(_, seen) => NewestSeen(s, j.report, seen)
    case Clearing(previous, seen) => NewestSeen(s, j.report, seen) && EpochIncremented(previous, j.report)
    case Publishing(previous, seen, wanted, payload) =>
      NewestSeen(s, j.report, seen) && Relayed(s, previous, j.report, wanted, payload)
    case _ => true
  }

  /** A payload is sent only by a delivery that does not raise the epoch, and then unmodified as the
      latest desired row it loaded held it. */
  ghost predicate Relayed(s: State, previous: Option<Row<Epoch>>, report: Row<Epoch>, wanted: Wanted, payload: Option<Bytes>) {
    payload.Some? ==>
      && !EpochIncremented(previous, report)
      && Grew(wanted, s.desired)
      && wanted != map[] && Latest(wanted).value.data == payload
  }

  ghost predicate Inv(s: State) {
    && Keyed(s.actual)
    && (forall id :: id in s.jobs ==> JobOk(s, s.jobs[id]))
    && (forall p :: p in s.published ==> NewestSeen(s, p.report, p.seen) && Relayed(s, p.previous, p.report, p.wanted, p.payload))
  }

  ghost predicate Extends(s: State, t: State) {
    Grew(s.actual, t.actual) && Grew(s.desired, t.desired) && s.published <= t.published
  }

  lemma LegacyKeyIsLast(p: KeyParts)
    ensures LexLess(RowKey(p), LEGACY_KEY)
  {
    var first := Hex16(U64_MAX - p.ts);
    HexLead(U64_MAX - p.ts);
    assert RowKey(p)[0] == first[0];
  }

  lemma {:induction false} HexLead(n: nat)
    ensures Digits(n, 16, Hex)[0] <= 'f'
  {
    LeadAtMostF(n, 16);
  }

  lemma {:induction false} LeadAtMostF(n: nat, width: nat)
    requires width > 0
    ensures Digits(n, width, Hex)[0] <= 'f'
  {
    if width > 1 { LeadAtMostF(High(n, Hex), width - 1); }
  }

  /** As soon as there is a history row, the view shows the newest history row. */
  lemma HistoryDecides(actual: Partition<Epoch>, h: string)
    requires Keyed(actual) && h in actual && h != LEGACY_KEY
    ensures LatestKey(actual) != LEGACY_KEY
    ensures forall k :: k in actual && k != LEGACY_KEY ==> actual[k].ts <= Latest(actual).value.ts
  {
    hide LexLess, RowKey;
    var latest := LatestKey(actual);
    var p: KeyParts :| h == RowKey(p) && p.ts == actual[h].ts;
    LegacyKeyIsLast(p);
    LexTotal(h, LEGACY_KEY);
    forall k | k in actual && k != LEGACY_KEY ensures actual[k].ts <= actual[latest].ts {
      if k != latest { SmallerIsNotOlder(latest, actual[latest].ts, k, actual[k].ts); }
    }
  }

  /** The view shows the newest of all rows exactly when the legacy row is not ahead of the history. */
  lemma ViewIsNewestIff(actual: Partition<Epoch>)
    requires Keyed(actual)
    ensures ViewIsNewest(actual) <==> LegacyNotAhead(actual)
  {
    if h :| h in actual && h != LEGACY_KEY { HistoryDecides(actual, h); }
  }

  /** A partition in which it does not: the legacy row is ahead, and an older report is acted on. */
  lemma LegacyAheadIsOverlooked()
    ensures var key, report := RowKey(KeyParts(5, 0, 0)), Row(5, Some(1));
      var actual: Partition<Epoch> := map[LEGACY_KEY := Row(10, Some(2)), key := report];
      && Keyed(actual) && !ViewIsNewest(actual)
      && forall previous :: AfterReread(report, previous, actual) == LoadingDesired(previous, actual)
  {
    hide RowKey, LexLess;
    var parts, report := KeyParts(5, 0, 0), Row(5, Some(1));
    var key := RowKey(parts);
    LegacyKeyIsLast(parts);
    LexTotal(key, LEGACY_KEY);
    var actual: Partition<Epoch> := map[LEGACY_KEY := Row(10, Some(2)), key := report];
    assert KeyFor(key, 5);
    HistoryDecides(actual, key);
    assert actual[LEGACY_KEY].ts == 10;
    forall previous ensures AfterReread(report, previous, actual) == LoadingDesired(previous, actual) {
      ControlIffNewest(report, previous, actual, key);
    }
  }

  /** A row that passed the pre-append guard keeps the view right, whatever was appended in between. */
  lemma AppendKeepsView(actual: Partition<Epoch>, parts: KeyParts, report: Row<Epoch>)
    requires Keyed(actual) && ViewIsNewest(actual) && PassedGuard(actual, report.ts)
    requires RowKey(parts) !in actual && parts.ts == report.ts
    ensures ViewIsNewest(actual[RowKey(parts) := report])
  {
    hide RowKey, LexLess, ViewIsNewest;
    var key, after := RowKey(parts), actual[RowKey(parts) := report];
    assert KeyFor(key, report.ts);
    LegacyKeyIsLast(parts);
    LexIrreflexive(LEGACY_KEY);
    ViewIsNewestIff(actual);
    assert LegacyNotAhead(after) by {
      if k :| k in actual && k != LEGACY_KEY && LEGACY_KEY in actual && actual[k].ts >= actual[LEGACY_KEY].ts {
        assert k in after && after[k] == actual[k];
      } else {
        assert key in after;
      }
    }
    ViewIsNewestIff(after);
  }

  /** A re-read lets its delivery through to the control logic exactly when no history row is newer; where
      the view is right, exactly when no row at all is. */
  lemma ControlIffNewest(report: Row<Epoch>, previous: Option<Row<Epoch>>, actual: Partition<Epoch>, key: string)
    requires Keyed(actual) && key in actual && key != LEGACY_KEY && actual[key] == report
    ensures AfterReread(report, previous, actual) ==
            if exists k :: k in actual && k != LEGACY_KEY && actual[k].ts > report.ts then Finished(Stale)
            else LoadingDesired(previous, actual)
    ensures ViewIsNewest(actual) ==>
              (AfterReread(report, previous, actual).LoadingDesired? <==> forall k :: k in actual ==> actual[k].ts <= report.ts)
  {
    HistoryDecides(actual, key);
    var newest := LatestKey(actual);
    assert newest in actual;
  }

  lemma StepExtends(s: State, e: Event)
    requires Enabled(s, e)
    ensures Extends(s, Do(s, e))
  {}

  lemma SeenStays(s: State, t: State, report: Row<Epoch>, seen: Partition<Epoch>)
    requires Extends(s, t)
    ensures NewestSeen(s, report, seen) ==> NewestSeen(t, report, seen)
  {}

  /** Later rows do not change what the legacy row says, nor bring one in. */
  predicate SameLegacy(s: State, t: State) {
    && (LEGACY_KEY in t.actual <==> LEGACY_KEY in s.actual)
    && (LEGACY_KEY in s.actual ==> t.actual[LEGACY_KEY] == s.actual[LEGACY_KEY])
  }

  lemma StepSameLegacy(s: State, e: Event)
    requires Enabled(s, e)
    ensures SameLegacy(s, Do(s, e))
  {
    if e.Append? {
      LegacyKeyIsLast(e.parts);
      LexIrreflexive(LEGACY_KEY);
    }
  }

  lemma JobStays(s: State, t: State, j: Job)
    requires Extends(s, t) && SameLegacy(s, t) && JobOk(s, j)
    ensures JobOk(t, j)
  {
    match j.stage
    case LoadingDesired(_, seen) => SeenStays(s, t, j.report, seen);
    case Clearing(_, seen) => SeenStays(s, t, j.report, seen);
    case Publishing(_, seen, _, _) => SeenStays(s, t, j.report, seen);
    case _ =>
  }

  lemma PreviousJob(s: State, id: nat, ok: bool)
    requires Inv(s) && Enabled(s, LoadPrevious(id, ok))
    ensures JobOk(Do(s, LoadPrevious(id, ok)), Do(s, LoadPrevious(id, ok)).jobs[id])
  {
    hide Relayed, NewestSeen;
    if s.actual != map[] { assert s.actual[LatestKey(s.actual)] == Latest(s.actual).value; }
  }

  lemma RereadJob(s: State, id: nat, ok: bool)
    requires Inv(s) && Enabled(s, Reread(id, ok))
    ensures JobOk(Do(s, Reread(id, ok)), Do(s, Reread(id, ok)).jobs[id])
  {
    var j := s.jobs[id];
    ControlIffNewest(j.report, j.stage.previous, s.actual, j.stage.key);
  }

  lemma DesiredJob(s: State, id: nat, ok: bool)
    requires Inv(s) && Enabled(s, LoadDesired(id, ok))
    ensures JobOk(Do(s, LoadDesired(id, ok)), Do(s, LoadDesired(id, ok)).jobs[id])
  {
    hide NewestSeen, Keyed, ViewIsNewest;
    var j, t := s.jobs[id], Do(s, LoadDesired(id, ok));
    assert JobOk(s, j);
    SeenStays(s, t, j.report, j.stage.seen);
    if s.desired != map[] { assert s.desired[LatestKey(s.desired)] == Latest(s.desired).value; }
  }

  lemma ClearJob(s: State, id: nat, parts: KeyParts, answer: Answer)
    requires Inv(s) && Enabled(s, Clear(id, parts, answer))
    ensures JobOk(Do(s, Clear(id, parts, answer)), Do(s, Clear(id, parts, answer)).jobs[id])
  {
    hide NewestSeen, Keyed, ViewIsNewest, RowKey;
    var j, t := s.jobs[id], Do(s, Clear(id, parts, answer));
    assert JobOk(s, j);
    SeenStays(s, t, j.report, j.stage.seen);
  }

  lemma StepJob(s: State, e: Event, id: nat)
    requires Inv(s) && Enabled(s, e) && id in Do(s, e).jobs
    requires id !in s.jobs || Do(s, e).jobs[id] != s.jobs[id]
    ensures JobOk(Do(s, e), Do(s, e).jobs[id])
  {
    hide NewestSeen, Relayed, PassedGuard, AfterPrevious, AfterReread, AfterDesired, Inv;
    match e
    case LoadPrevious(_, ok) => PreviousJob(s, id, ok);
    case Reread(_, ok) => RereadJob(s, id, ok);
    case LoadDesired(_, ok) => DesiredJob(s, id, ok);
    case Clear(_, parts, answer) => ClearJob(s, id, parts, answer);
    case _ =>
  }

  /** No step takes the view off the newest row. */
  lemma StepKeepsView(s: State, e: Event)
    requires Inv(s) && Enabled(s, e)
    ensures Keyed(Do(s, e).actual) && (ViewIsNewest(s.actual) ==> ViewIsNewest(Do(s, e).actual))
  {
    hide RowKey, Relayed, NewestSeen, ViewIsNewest;
    if e.Append? {
      assert KeyFor(RowKey(e.parts), e.parts.ts);
      assert JobOk(s, s.jobs[e.id]);
      if RowKey(e.parts) !in s.actual && ViewIsNewest(s.actual) { AppendKeepsView(s.actual, e.parts, s.jobs[e.id].report); }
    }
  }

  lemma StepKeepsInv(s: State, e: Event)
    requires Inv(s) && Enabled(s, e)
    ensures Inv(Do(s, e))
  {
    var t := Do(s, e);
    StepExtends(s, e);
    StepSameLegacy(s, e);
    StepKeepsView(s, e);
    forall id | id in t.jobs ensures JobOk(t, t.jobs[id]) {
      if id in s.jobs && t.jobs[id] == s.jobs[id] { JobStays(s, t, s.jobs[id]); } else { StepJob(s, e, id); }
    }
    forall p | p in t.published ensures NewestSeen(t, p.report, p.seen) && Relayed(t, p.previous, p.report, p.wanted, p.payload) {
      if p in s.published {
        SeenStays(s, t, p.report, p.seen);
      } else {
        var j := s.jobs[e.id];
        SeenStays(s, t, j.report, j.stage.seen);
      }
    }
  }

  lemma {:induction false} RunExtends(states: seq<State>, events: seq<Event>, i: nat, n: nat)
    requires Run(states, events) && i <= n < |states|
    ensures Extends(states[i], states[n])
  {
    hide Do, Enabled, Initial;
    if i < n {
      RunExtends(states, events, i, n - 1);
      StepExtends(states[n - 1], events[n - 1]);
    }
  }

  /** In every run, each delivery past its re-read and each publication was for a report that no history
      row seen was newer than, and no row at all unless the legacy row was ahead at that re-read. */
  lemma {:induction false} GatewayRunSafe(states: seq<State>, events: seq<Event>, n: nat)
    requires Run(states, events) && n < |states|
    ensures Inv(states[n])
  {
    hide Do, Enabled;
    if n > 0 {
      GatewayRunSafe(states, events, n - 1);
      StepKeepsInv(states[n - 1], events[n - 1]);
    }
  }

  /** Once the view shows the newest row, it does so for good. */
  lemma {:induction false} ViewStaysNewest(states: seq<State>, events: seq<Event>, i: nat, n: nat)
    requires Run(states, events) && i <= n < |states| && ViewIsNewest(states[i].actual)
    ensures ViewIsNewest(states[n].actual)
  {
    hide Do, Enabled, ViewIsNewest, Initial;
    if i < n {
      ViewStaysNewest(states, events, i, n - 1);
      GatewayRunSafe(states, events, n - 1);
      StepKeepsView(states[n - 1], events[n - 1]);
    }
  }

  /** The view shows the newest row at a moment of a run exactly when the legacy row is not ahead of the
      history then; from then on it always does. In every run its timestamp never goes back. */
  lemma LatestViewNeverRegresses(states: seq<State>, events: seq<Event>, i: nat, n: nat)
    requires Run(states, events) && i <= n < |states|
    ensures ViewIsNewest(states[i].actual) <==> LegacyNotAhead(states[i].actual)
    ensures LegacyNotAhead(states[i].actual) ==> ViewIsNewest(states[n].actual)
    ensures states[i].actual != map[] ==>
              states[n].actual != map[] && Latest(states[i].actual).value.ts <= Latest(states[n].actual).value.ts
  {
    hide Do, Enabled, Initial, ViewIsNewest, LegacyNotAhead;
    GatewayRunSafe(states, events, i);
    GatewayRunSafe(states, events, n);
    RunExtends(states, events, i, n);
    ViewIsNewestIff(states[i].actual);
    if ViewIsNewest(states[i].actual) { ViewStaysNewest(states, events, i, n); }
    if states[i].actual != map[] { NewerView(states[i].actual, states[n].actual); }
  }

  function SeenBy(stage: Stage): Option<Partition<Epoch>> {
    if stage.LoadingDesired? || stage.Clearing? || stage.Publishing? then Some(stage.seen) else None
  }

  /** Some delivery past its re-read, or some publication, acts on what it saw then. */
  ghost predicate ActsOn(s: State, seen: Partition<Epoch>) {
    || (exists id :: id in s.jobs && SeenBy(s.jobs[id].stage) == Some(seen))
    || (exists p :: p in s.published && p.seen == seen)
  }

  lemma StepActsOn(s: State, e: Event, seen: Partition<Epoch>)
    requires Enabled(s, e) && ActsOn(Do(s, e), seen)
    ensures ActsOn(s, seen) || seen == s.actual
  {
    hide AfterPrevious, RowKey, Latest;
    var t := Do(s, e);
    if p :| p in t.published && p.seen == seen {
      if p !in s.published { assert SeenBy(s.jobs[e.id].stage) == Some(seen); }
    } else {
      var id :| id in t.jobs && SeenBy(t.jobs[id].stage) == Some(seen);
      if id in s.jobs && SeenBy(s.jobs[id].stage) != Some(seen) { NewlySeen(s, e, id); }
    }
  }

  lemma NewlySeen(s: State, e: Event, id: nat)
    requires Enabled(s, e) && id in s.jobs && SeenBy(Do(s, e).jobs[id].stage).Some?
    ensures SeenBy(Do(s, e).jobs[id].stage) in {SeenBy(s.jobs[id].stage), Some(s.actual)}
  {
    hide RowKey, Latest;
  }

  /** Once the view is right, every delivery re-read from then on, and what it publishes, is of a report that no
      stored row at all was newer than. */
  lemma {:induction false} RightViewRightReports(states: seq<State>, events: seq<Event>, i: nat, n: nat, seen: Partition<Epoch>)
    requires Run(states, events) && i <= n < |states| && ViewIsNewest(states[i].actual) && ActsOn(states[n], seen)
    ensures ActsOn(states[i], seen) || LegacyNotAhead(seen)
  {
    hide Do, Enabled, Initial, ViewIsNewest, ActsOn, LegacyNotAhead;
    if i < n {
      StepActsOn(states[n - 1], events[n - 1], seen);
      if ActsOn(states[n - 1], seen) {
        RightViewRightReports(states, events, i, n - 1, seen);
      } else {
        ViewStaysNewest(states, events, i, n - 1);
        GatewayRunSafe(states, events, n - 1);
        ViewIsNewestIff(states[n - 1].actual);
      }
    }
  }

  lemma NewerView(before: Partition<Epoch>, after: Partition<Epoch>)
    requires Grew(before, after) && before != map[] && Keyed(after) && Keyed(before)
    requires ViewIsNewest(before) ==> ViewIsNewest(after)
    ensures after != map[] && Latest(before).value.ts <= Latest(after).value.ts
  {
    var k := LatestKey(before);
    assert k in before && k in after;
    if k != LEGACY_KEY {
      HistoryDecides(after, k);
    } else {
      assert OnlyLegacy(before) by {
        forall h | h in before ensures h == LEGACY_KEY { if h != LEGACY_KEY { HistoryDecides(before, h); } }
      }
      ViewIsNewestIff(before);
    }
  }

  predicate CallFailed(e: Event) {
    match e
    case LoadPrevious(_, ok) => !ok
    case Append(_, _, answer) => answer != Stored
    case Reread(_, ok) => !ok
    case LoadDesired(_, ok) => !ok
    case Clear(_, _, answer) => answer != Stored
    case Publish(_, answer) => answer != Stored
    case _ => false
  }

  /** Every failed call ends its delivery with an error, and changes no other. */
  lemma FailureEnds(s: State, e: Event)
    requires Enabled(s, e) && CallFailed(e)
    ensures var t := Do(s, e);
      t.jobs[e.id].stage == Finished(Failed) && forall id :: id in s.jobs && id != e.id ==> id in t.jobs && t.jobs[id] == s.jobs[id]
  {
    hide RowKey;
  }

  // ---- rotation payloads ----

  /** A pending payload row is out of reach once a smaller key is stored. */
  predicate Retired(desired: Wanted, pending: string) {
    pending in desired && exists k :: k in desired && LexLess(k, pending)
  }

  lemma RetiredIsNotLatest(desired: Wanted, pending: string)
    requires Retired(desired, pending)
    ensures LatestKey(desired) != pending
  {
    var k :| k in desired && LexLess(k, pending);
    LexTotal(k, pending);
  }

  /** Once retired, no later load of any run returns that row, and the row stays stored unchanged. */
  lemma RetiredForGood(states: seq<State>, events: seq<Event>, i: nat, n: nat, pending: string)
    requires Run(states, events) && i <= n < |states|
    requires Retired(states[i].desired, pending)
    ensures Retired(states[n].desired, pending)
    ensures LatestKey(states[n].desired) != pending
    ensures states[n].desired[pending] == states[i].desired[pending]
  {
    hide Do, Enabled, Initial, LexLess;
    RunExtends(states, events, i, n);
    RetiredIsNotLatest(states[i].desired, pending);
    LatestOnlyMovesDown(states[i].desired, states[n].desired);
    var before, after := LatestKey(states[i].desired), LatestKey(states[n].desired);
    if after != before { LexTransitive(after, before, pending); }
    LexIrreflexive(pending);
  }

  /** The clearing row retires the pending row that was being served exactly when its key is the
      smaller one: a later timestamp, or an equal one and a later sequence number (smaller nonce on a
      tie). Otherwise the very next load serves the payload again. */
  lemma ClearingRetiresIff(desired: Wanted, pending: KeyParts, clearing: KeyParts)
    requires desired != map[] && LatestKey(desired) == RowKey(pending)
    requires RowKey(clearing) !in desired
    ensures var cleared := desired[RowKey(clearing) := Row(clearing.ts, None)];
      && (Retired(cleared, RowKey(pending)) <==> Before(clearing, pending))
      && (Before(clearing, pending) ==> Latest(cleared) == Some(Row(clearing.ts, None)))
      && (!Before(clearing, pending) ==> Latest(cleared) == Latest(desired))
  {
    var kc, kp := RowKey(clearing), RowKey(pending);
    var cleared := desired[kc := Row(clearing.ts, None)];
    RowKeyOrder(clearing, pending);
    LexTotal(kc, kp);
    if Before(clearing, pending) {
      forall k | k in cleared ensures k == kc || LexLess(kc, k) {
        if k != kc && k != kp { LexTransitive(kc, kp, k); }
      }
      SmallestUnique(cleared.Keys, LatestKey(cleared), kc);
    } else {
      assert kc != kp && LexLess(kp, kc);
      SmallestUnique(cleared.Keys, LatestKey(cleared), kp);
      forall k | k in cleared ensures !LexLess(k, kp) { LexTotal(k, kp); LexIrreflexive(kp); }
    }
  }

  predicate Own(e: Event, id: nat) {
    !e.Submit? && e.id == id
  }

  lemma OneMoreStep(states: seq<State>, events: seq<Event>, e: Event)
    requires |states| == |events| + 1 && Steps(states, events) && Enabled(states[|events|], e)
    ensures Steps(states + [Do(states[|events|], e)], events + [e])
  {
    hide Do, Enabled;
  }

  /** A delivery that nothing disturbs and no row is newer than gets to load the desired state. */
  lemma Undisturbed(s: State, id: nat, report: Row<Epoch>, psks: seq<Bytes>, parts: KeyParts) returns (states: seq<State>, events: seq<Event>)
    requires id !in s.jobs && parts.ts == report.ts && RowKey(parts) !in s.actual && Keyed(s.actual)
    requires forall k :: k in s.actual ==> s.actual[k].ts <= report.ts
    ensures |states| == |events| + 1 && Steps(states, events) && states[0] == s && forall e :: e in events ==> Own(e, id)
    ensures var t := states[|events|];
      && t.actual == s.actual[RowKey(parts) := report] && t.desired == s.desired && t.published == s.published
      && id in t.jobs && t.jobs[id] == Job(report, psks, LoadingDesired(Latest(s.actual), t.actual))
  {
    hide RowKey, Latest, Steps;
    states, events := [s], [];
    FirstMoment(s);
    var s1 := Do(s, Deliver(id, report, psks));
    OneMoreStep(states, events, Deliver(id, report, psks));
    states, events := states + [s1], events + [Deliver(id, report, psks)];
    ViewHasRow(s.actual);
    var s2 := Do(s1, LoadPrevious(id, true));
    assert s2.jobs[id] == Job(report, psks, Appending(Latest(s.actual)));
    OneMoreStep(states, events, LoadPrevious(id, true));
    states, events := states + [s2], events + [LoadPrevious(id, true)];
    var s3 := Do(s2, Append(id, parts, Stored));
    OneMoreStep(states, events, Append(id, parts, Stored));
    states, events := states + [s3], events + [Append(id, parts, Stored)];
    KeyedAppend(s.actual, parts, report);
    ControlIffNewest(report, Latest(s.actual), s.actual[RowKey(parts) := report], RowKey(parts));
    OneMoreStep(states, events, Reread(id, true));
    states, events := states + [Do(s3, Reread(id, true))], events + [Reread(id, true)];
  }

  lemma FirstMoment(s: State)
    ensures Steps([s], [])
  {}

  /** The payload the newest desired row holds. */
  ghost function Pending(desired: Wanted): Option<Bytes> {
    if desired == map[] then None else desired[LatestKey(desired)].data
  }

  /** The epoch of the row loaded first is below the report's, a missing one counting as 0. */
  predicate Raises(previous: Option<Row<Epoch>>, report: Row<Epoch>) {
    match (previous, report.data)
    case (None, _) => false
    case (Some(row), None) => false
    case (Some(row), Some(now)) => match row.data case None => now > 0 case Some(before) => now > before
  }

  /** What a delivery does from there on: either it stores a clearing row, or it does not. */
  lemma Loaded(s: State, id: nat, clearing: KeyParts) returns (events: seq<Event>, t: State)
    requires Enabled(s, LoadDesired(id, true)) && clearing.ts == s.jobs[id].report.ts
    requires Raises(s.jobs[id].stage.previous, s.jobs[id].report) && Pending(s.desired).Some? ==> RowKey(clearing) !in s.desired
    ensures |events| in {1, 2} && events[0] == LoadDesired(id, true) && (|events| == 2 ==> events[1] == Clear(id, clearing, Stored))
    ensures |events| == 2 ==> Enabled(Do(s, events[0]), events[1])
    ensures t == if |events| == 1 then Do(s, events[0]) else Do(Do(s, events[0]), events[1])
    ensures var j, raised, pending := s.jobs[id], Raises(s.jobs[id].stage.previous, s.jobs[id].report), Pending(s.desired);
      var payload := if raised then None else pending;
      && t.actual == s.actual && t.published == s.published && id in t.jobs
      && t.desired == (if raised && pending.Some? then s.desired[RowKey(clearing) := Row(clearing.ts, None)] else s.desired)
      && t.jobs[id] == j.(stage := if payload.None? && j.psks == [] then Finished(Quiet)
                                   else Publishing(j.stage.previous, j.stage.seen, s.desired, payload))
  {
    hide RowKey, Latest;
    var j := s.jobs[id];
    if s.desired != map[] { LatestIs(s.desired); } else { NoneIs(s.desired); }
    events, t := [LoadDesired(id, true)], Do(s, LoadDesired(id, true));
    if Raises(j.stage.previous, j.report) && Pending(s.desired).Some? {
      assert t.jobs[id].stage == Clearing(j.stage.previous, j.stage.seen);
      events, t := events + [Clear(id, clearing, Stored)], Do(t, Clear(id, clearing, Stored));
    }
  }

  lemma NoneIs(desired: Wanted)
    requires desired == map[]
    ensures Latest(desired) == None
  {}

  /** What an undisturbed delivery that no row is newer than does. It stores its report. It stores a clearing
      row exactly when a row was loaded first, the report's epoch is above that row's and a payload is
      pending. Otherwise the pending payload is published; and a message is sent exactly when there is such a
      payload or a recovered key. */
  lemma DeliveryOutcome(s: State, id: nat, report: Row<Epoch>, psks: seq<Bytes>, parts: KeyParts, clearing: KeyParts)
    returns (states: seq<State>, events: seq<Event>)
    requires id !in s.jobs && parts.ts == clearing.ts == report.ts && RowKey(parts) !in s.actual && Keyed(s.actual)
    requires forall k :: k in s.actual ==> s.actual[k].ts <= report.ts
    requires Raises(Latest(s.actual), report) && Pending(s.desired).Some? ==> RowKey(clearing) !in s.desired
    ensures |states| == |events| + 1 && Steps(states, events) && states[0] == s && forall e :: e in events ==> Own(e, id)
    ensures var t, raised, pending := states[|events|], Raises(Latest(s.actual), report), Pending(s.desired);
      var payload := if raised then None else pending;
      var due := payload.Some? || psks != [];
      && t.actual == s.actual[RowKey(parts) := report]
      && t.desired == (if raised && pending.Some? then s.desired[RowKey(clearing) := Row(report.ts, None)] else s.desired)
      && t.published == s.published + (if due then [Publication(Latest(s.actual), report, t.actual, s.desired, payload, psks)] else [])
      && id in t.jobs && t.jobs[id].stage == Finished(if due then Sent else Quiet)
  {
    hide RowKey, Latest, Steps, Raises, Pending, AfterDesired, AfterReread, AfterPrevious;
    states, events := Undisturbed(s, id, report, psks, parts);
    var loaded := states[|events|];
    var more, t := Loaded(loaded, id, clearing);
    OneMoreStep(states, events, more[0]);
    states, events := states + [Do(loaded, more[0])], events + [more[0]];
    if |more| == 2 {
      OneMoreStep(states, events, more[1]);
      states, events := states + [t], events + [more[1]];
    }
    if t.jobs[id].stage.Publishing? {
      OneMoreStep(states, events, Publish(id, Stored));
      states, events := states + [Do(t, Publish(id, Stored))], events + [Publish(id, Stored)];
    }
  }

  /** What the delivery after a clearing row sends, if it is the newest and does not raise the epoch: the
      payload again, exactly when the clearing row did not come first, and nothing otherwise. */
  lemma NextDeliveryResendsIff(s: State, id: nat, clearing: KeyParts, pending: KeyParts, next: nat, report: Row<Epoch>, parts: KeyParts)
    returns (states: seq<State>, events: seq<Event>, sent: seq<Publication>)
    requires Enabled(s, Clear(id, clearing, Stored)) && RowKey(clearing) !in s.desired
    requires s.desired != map[] && LatestKey(s.desired) == RowKey(pending) && s.desired[RowKey(pending)].data.Some?
    requires next !in s.jobs && parts.ts == report.ts && RowKey(parts) !in s.actual && s.actual != map[] && Keyed(s.actual)
    requires (forall k :: k in s.actual ==> s.actual[k].ts <= report.ts) && !EpochIncremented(Latest(s.actual), report)
    ensures |states| == |events| + 1 && Steps(states, events) && states[0] == Do(s, Clear(id, clearing, Stored)) && forall e :: e in events ==> Own(e, next)
    ensures states[|events|].published == s.published + sent
    ensures next in states[|events|].jobs && states[|events|].jobs[next].stage == Finished(if Before(clearing, pending) then Quiet else Sent)
    ensures if Before(clearing, pending) then sent == []
            else |sent| == 1 && sent[0].report == report && sent[0].payload == s.desired[RowKey(pending)].data
  {
    hide RowKey, LexLess, Latest, Before, Steps;
    var cleared := Do(s, Clear(id, clearing, Stored));
    ClearingRetiresIff(s.desired, pending, clearing);
    LatestIs(s.desired);
    LatestIs(cleared.desired);
    RaisesIsIncrement(Latest(s.actual), report);
    states, events := DeliveryOutcome(cleared, next, report, [], parts, parts);
    sent := states[|events|].published[|s.published|..];
  }

  lemma RaisesIsIncrement(previous: Option<Row<Epoch>>, report: Row<Epoch>)
    ensures EpochIncremented(previous, report) <==> Raises(previous, report)
  {}

  lemma ViewHasRow(actual: Partition<Epoch>)
    ensures Latest(actual).Some? ==> exists k :: k in actual && actual[k] == Latest(actual).value
  {
    if actual != map[] {
      var k := LatestKey(actual);
      assert k in actual;
    }
  }

  lemma LatestIs(desired: Wanted)
    requires desired != map[]
    ensures Latest(desired) == Some(desired[LatestKey(desired)])
  {}

  lemma KeyedAppend(actual: Partition<Epoch>, parts: KeyParts, report: Row<Epoch>)
    requires Keyed(actual) && parts.ts == report.ts
    ensures Keyed(actual[RowKey(parts) := report]) && RowKey(parts) != LEGACY_KEY
  {
    LegacyKeyIsLast(parts);
    LexIrreflexive(LEGACY_KEY);
    assert KeyFor(RowKey(parts), report.ts);
  }

  /** A rotation requested with a clock ahead of the gateway's survives its own clearing row. */
  lemma ClockAheadKeepsServing()
    ensures var pending, clearing := KeyParts(2000, 0, 0), KeyParts(1000, 1, 0);
      var desired := map[RowKey(pending) := Row(2000, Some([7]))];
      Latest(desired[RowKey(clearing) := Row(1000, None)]) == Some(Row(2000, Some([7])))
  {
    hide RowKey, LexLess;
    var pending, clearing := KeyParts(2000, 0, 0), KeyParts(1000, 1, 0);
    var desired: Wanted := map[RowKey(pending) := Row(2000, Some([7]))];
    assert RowKey(pending) in desired && LatestKey(desired) == RowKey(pending);
    RowKeyOrder(clearing, pending);
    ClearingRetiresIff(desired, pending, clearing);
  }

  /** A run in which a clearing row newer than a pending row was stored, acknowledged or not: from then on no load returns the
      pending row, and it stays stored unchanged. */
  lemma RotationRetiredForGood(states: seq<State>, events: seq<Event>, i: nat, n: nat, id: nat, parts: KeyParts, answer: Answer, pending: KeyParts)
    requires Run(states, events) && i < n < |states| && events[i] == Clear(id, parts, answer) && !answer.Refused?
    requires RowKey(parts) !in states[i].desired && RowKey(pending) in states[i].desired && parts.ts > pending.ts
    ensures RowKey(pending) in states[n].desired && LatestKey(states[n].desired) != RowKey(pending)
    ensures states[n].desired[RowKey(pending)] == states[i].desired[RowKey(pending)]
  {
    hide RowKey, Initial;
    RowKeyOrder(parts, pending);
    assert RowKey(parts) in states[i + 1].desired && LexLess(RowKey(parts), RowKey(pending));
    RetiredForGood(states, events, i + 1, n, RowKey(pending));
  }
}
