/** Reconciliation of one node's reports with its desired state.

Many deliveries of ACTUAL_STATE are handled at once. Each handler appends its
report, re-reads the newest report, loads the desired state and perhaps a program
image, and publishes. Every storage or queue call is one step, may fail, and may
interleave with steps of other handlers and of the web client. */
module NodeReconcile {
  import opened RowKeys
  import opened HistoryStore
  import opened Wrappers

  type Bytes = seq<bv8>

  datatype Observed = Observed(program: Option<Bytes>, schedule: Option<nat>)
  datatype Desired = Desired(nodeId: string, program: Option<Bytes>, schedule: Option<nat>)
  datatype Image = Image(elf: Bytes, profile: string, filename: Option<string>, abi: Option<nat>)

  /** The DESIRED_STATE message; `inlined` is present only with a non-empty ELF. */
  datatype Message = Message(nodeId: string, program: Option<Bytes>, schedule: Option<nat>, inlined: Option<Image>)

  predicate ProgramDiverged(d: Desired, o: Observed) {
    d.program.Some? && o.program != d.program
  }

  predicate ScheduleDiverged(d: Desired, o: Observed) {
    d.schedule.Some? && o.schedule != d.schedule
  }

  predicate Diverged(d: Desired, o: Observed) {
    ProgramDiverged(d, o) || ScheduleDiverged(d, o)
  }

  function EncodeDesired(d: Desired, image: Option<Image>): Message {
    Message(d.nodeId, d.program, d.schedule,
            if image.Some? && image.value.elf != [] then image else None)
  }

  /** What a node reports after taking over every field a message specifies. */
  function ApplyMessage(m: Message, o: Observed): Observed {
    Observed(if m.program.Some? then m.program else o.program,
             if m.schedule.Some? then m.schedule else o.schedule)
  }

  datatype Outcome = Stale | Quiet | Failed | Sent

  /** Where a handler is between two awaits, with the values it holds. `seen` is the report
      partition as the re-read found it, `wanted` the desired-state partition as it was loaded. */
  datatype Stage =
    | Appending
    | Rereading(key: string)
    | LoadingDesired(seen: Partition<Observed>)
    | LoadingImage(seen: Partition<Observed>, wanted: Partition<Desired>)
    | Publishing(seen: Partition<Observed>, wanted: Partition<Desired>, image: Option<Image>)
    | Finished(outcome: Outcome)

  datatype Job = Job(report: Row<Observed>, stage: Stage)

  /** A message that reached the queue, and the handler that sent it. */
  datatype Publication = Publication(id: nat, report: Row<Observed>, seen: Partition<Observed>,
                                     wanted: Partition<Desired>, message: Message)

  datatype State = State(
    actual: Partition<Observed>,
    desired: Partition<Desired>,
    programs: map<Bytes, Image>,
    jobs: map<nat, Job>,
    published: seq<Publication>)

  datatype Answer = Stored | LostAck | Refused

  datatype Event =
    | Deliver(id: nat, report: Row<Observed>)
    | Append(id: nat, parts: KeyParts, answer: Answer)
    | Reread(id: nat, ok: bool)
    | LoadDesired(id: nat, ok: bool)
    | LoadImage(id: nat, ok: bool)
    | Publish(id: nat, answer: Answer)
    | WriteDesired(parts: KeyParts, row: Row<Desired>)
    | Ingest(hash: Bytes, image: Image)

  ghost predicate Enabled(s: State, e: Event) {
    match e
    case Deliver(id, _) => id !in s.jobs
    case Append(id, parts, _) => id in s.jobs && s.jobs[id].stage.Appending? && parts.ts == s.jobs[id].report.ts
    case Reread(id, _) => id in s.jobs && s.jobs[id].stage.Rereading?
    case LoadDesired(id, _) => id in s.jobs && s.jobs[id].stage.LoadingDesired?
    case LoadImage(id, _) => id in s.jobs && s.jobs[id].stage.LoadingImage?
    case Publish(id, _) => id in s.jobs && s.jobs[id].stage.Publishing?
    case WriteDesired(parts, row) => parts.ts == row.ts && RowKey(parts) !in s.desired
    case Ingest(hash, _) => hash !in s.programs
  }

  /** The handler bails when the re-read finds a later timestamp than its own report's. */
  ghost function AfterReread(report: Row<Observed>, actual: Partition<Observed>): Stage {
    match Latest(actual)
    case None => Finished(Failed)
    case Some(newest) => if newest.ts > report.ts then Finished(Stale) else LoadingDesired(actual)
  }

  ghost function AfterDesired(node: string, report: Row<Observed>, seen: Partition<Observed>,
                              desired: Partition<Desired>): Stage {
    match Latest(desired)
    case None => Finished(Quiet)
    case Some(row) =>
      if row.data.nodeId != node then Finished(Failed)
      else if !Diverged(row.data, report.data) then Finished(Quiet)
      else if ProgramDiverged(row.data, report.data) then LoadingImage(seen, desired)
      else Publishing(seen, desired, None)
  }

  /** The desired state a handler compares with: the newest row it loaded. */
  ghost function Target(wanted: Partition<Desired>): Desired {
    match Latest(wanted)
    case None => Desired("", None, None)
    case Some(row) => row.data
  }

  function LookUp(programs: map<Bytes, Image>, d: Desired): Option<Image> {
    if d.program.Some? && d.program.value in programs then Some(programs[d.program.value]) else None
  }

  function Move(s: State, id: nat, stage: Stage): State
    requires id in s.jobs
  {
    s.(jobs := s.jobs[id := s.jobs[id].(stage := stage)])
  }

  ghost function Do(node: string, s: State, e: Event): State
    requires Enabled(s, e)
  {
    match e
    case Deliver(id, report) => s.(jobs := s.jobs[id := Job(report, Appending)])
    case Append(id, parts, answer) =>
      var key := RowKey(parts);
      // An insert of an existing key is a conflict and changes nothing.
      if answer.Refused? || key in s.actual then Move(s, id, Finished(Failed))
      else
        var stored := s.(actual := s.actual[key := s.jobs[id].report]);
        Move(stored, id, if answer.LostAck? then Finished(Failed) else Rereading(key))
    case Reread(id, ok) =>
      Move(s, id, if ok then AfterReread(s.jobs[id].report, s.actual) else Finished(Failed))
    case LoadDesired(id, ok) =>
      var j := s.jobs[id];
      Move(s, id, if ok then AfterDesired(node, j.report, j.stage.seen, s.desired) else Finished(Failed))
    case LoadImage(id, ok) =>
      var st := s.jobs[id].stage;
      Move(s, id, if ok then Publishing(st.seen, st.wanted, LookUp(s.programs, Target(st.wanted))) else Finished(Failed))
    case Publish(id, answer) =>
      var j := s.jobs[id];
      if answer.Refused? then Move(s, id, Finished(Failed))
      else
        var p := Publication(id, j.report, j.stage.seen, j.stage.wanted, EncodeDesired(Target(j.stage.wanted), j.stage.image));
        Move(s.(published := s.published + [p]), id, Finished(if answer.LostAck? then Failed else Sent))
    case WriteDesired(parts, row) => s.(desired := s.desired[RowKey(parts) := row])
    case Ingest(hash, image) => s.(programs := s.programs[hash := image])
  }

  ghost predicate Initial(s: State) {
    TimeKeyed(s.actual) && TimeKeyed(s.desired) && s.jobs == map[] && s.published == []
  }

  ghost predicate Run(node: string, states: seq<State>, events: seq<Event>) {
    && |states| == |events| + 1
    && Initial(states[0])
    && forall i :: 0 <= i < |events| ==> Enabled(states[i], events[i]) && states[i + 1] == Do(node, states[i], events[i])
  }

  // ---- what every run keeps ----

  /** `report` was the newest of all reports stored when it was re-read, and those rows are still there. */
  ghost predicate NewestSeen(s: State, report: Row<Observed>, seen: Partition<Observed>) {
    && Grew(seen, s.actual)
    && (exists k :: k in seen && seen[k] == report)
    && (forall k :: k in seen ==> seen[k].ts <= report.ts)
  }

  /** The handler acted on the newest desired state stored when it looked, and its report differs from it. */
  ghost predicate Justified(node: string, s: State, report: Row<Observed>, seen: Partition<Observed>, wanted: Partition<Desired>) {
    && NewestSeen(s, report, seen)
    && Grew(wanted, s.desired)
    && wanted != map[]
    && (forall k :: k in wanted ==> wanted[k].ts <= Latest(wanted).value.ts)
    && Target(wanted).nodeId == node
    && Diverged(Target(wanted), report.data)
  }

  ghost predicate ImageOk(s: State, report: Row<Observed>, d: Desired, image: Option<Image>) {
    image.Some? ==> ProgramDiverged(d, report.data) && LookUp(s.programs, d) == image
  }

  ghost predicate JobOk(node: string, s: State, j: Job) {
    match j.stage
    case Rereading(key) => key in s.actual && s.actual[key] == j.report
    case LoadingDesired(seen) => NewestSeen(s, j.report, seen)
    case LoadingImage(seen, wanted) => Justified(node, s, j.report, seen, wanted) && ProgramDiverged(Target(wanted), j.report.data)
    case Publishing(seen, wanted, image) =>
      Justified(node, s, j.report, seen, wanted) && ImageOk(s, j.report, Target(wanted), image)
    case _ => true
  }

  ghost predicate PublicationOk(node: string, s: State, p: Publication) {
    && p.id in s.jobs && s.jobs[p.id].stage.Finished?
    && Justified(node, s, p.report, p.seen, p.wanted)
    && p.message.nodeId == node
    && p.message.program == Target(p.wanted).program
    && p.message.schedule == Target(p.wanted).schedule
    && ImageOk(s, p.report, Target(p.wanted), p.message.inlined)
    && (p.message.inlined.Some? ==> p.message.inlined.value.elf != [])
  }

  ghost predicate Inv(node: string, s: State) {
    && TimeKeyed(s.actual) && TimeKeyed(s.desired)
    && (forall id :: id in s.jobs ==> JobOk(node, s, s.jobs[id]))
    && (forall p :: p in s.published ==> PublicationOk(node, s, p))
  }

  ghost predicate Extends(s: State, t: State) {
    && Grew(s.actual, t.actual)
    && Grew(s.desired, t.desired)
    && (forall h :: h in s.programs ==> h in t.programs && t.programs[h] == s.programs[h])
    && s.published <= t.published
  }

  lemma JustifiedStays(node: string, s: State, t: State, report: Row<Observed>, seen: Partition<Observed>, wanted: Partition<Desired>)
    requires Extends(s, t)
    ensures NewestSeen(s, report, seen) ==> NewestSeen(t, report, seen)
    ensures Justified(node, s, report, seen, wanted) ==> Justified(node, t, report, seen, wanted)
  {}

  lemma JobStays(node: string, s: State, t: State, j: Job)
    requires Extends(s, t) && JobOk(node, s, j)
    ensures JobOk(node, t, j)
  {
    match j.stage
    case LoadingDesired(seen) => JustifiedStays(node, s, t, j.report, seen, map[]);
    case LoadingImage(seen, wanted) => JustifiedStays(node, s, t, j.report, seen, wanted);
    case Publishing(seen, wanted, _) => JustifiedStays(node, s, t, j.report, seen, wanted);
    case _ =>
  }

  /** A re-read drops its delivery exactly when some stored report is newer; it never misses. */
  lemma RereadDropsIffSuperseded(report: Row<Observed>, actual: Partition<Observed>, key: string)
    requires TimeKeyed(actual) && key in actual && actual[key] == report
    ensures AfterReread(report, actual) ==
            if exists k :: k in actual && actual[k].ts > report.ts then Finished(Stale) else LoadingDesired(actual)
    ensures Latest(actual).Some? && Latest(actual).value.ts >= report.ts
  {
    LatestIsNewest(actual);
  }

  lemma StepExtends(node: string, s: State, e: Event)
    requires Enabled(s, e)
    ensures Extends(s, Do(node, s, e))
  {}

  lemma RereadJob(node: string, s: State, id: nat, ok: bool)
    requires Inv(node, s) && Enabled(s, Reread(id, ok))
    ensures JobOk(node, Do(node, s, Reread(id, ok)), Do(node, s, Reread(id, ok)).jobs[id])
  {
    var j := s.jobs[id];
    RereadDropsIffSuperseded(j.report, s.actual, j.stage.key);
  }

  /** Whatever the desired state says, the next stage is justified by it. */
  lemma AfterDesiredOk(node: string, s: State, report: Row<Observed>, seen: Partition<Observed>)
    requires TimeKeyed(s.desired) && NewestSeen(s, report, seen)
    ensures JobOk(node, s, Job(report, AfterDesired(node, report, seen, s.desired)))
  {
    hide NewestSeen;
    if s.desired != map[] { LatestIsNewest(s.desired); }
  }

  lemma DesiredJob(node: string, s: State, id: nat, ok: bool)
    requires Inv(node, s) && Enabled(s, LoadDesired(id, ok))
    ensures JobOk(node, Do(node, s, LoadDesired(id, ok)), Do(node, s, LoadDesired(id, ok)).jobs[id])
  {
    hide NewestSeen, Justified, AfterDesired, TimeKeyed;
    var j, t := s.jobs[id], Do(node, s, LoadDesired(id, ok));
    assert JobOk(node, s, j);
    if ok {
      AfterDesiredOk(node, s, j.report, j.stage.seen);
      StepExtends(node, s, LoadDesired(id, ok));
      JobStays(node, s, t, t.jobs[id]);
    }
  }

  lemma ImageJob(node: string, s: State, id: nat, ok: bool)
    requires Inv(node, s) && Enabled(s, LoadImage(id, ok))
    ensures JobOk(node, Do(node, s, LoadImage(id, ok)), Do(node, s, LoadImage(id, ok)).jobs[id])
  {
    var j, t := s.jobs[id], Do(node, s, LoadImage(id, ok));
    JustifiedStays(node, s, t, j.report, j.stage.seen, j.stage.wanted);
  }

  /** The stage a step gives its own handler is justified. */
  lemma StepJob(node: string, s: State, e: Event, id: nat)
    requires Inv(node, s) && Enabled(s, e) && id in Do(node, s, e).jobs
    requires id !in s.jobs || Do(node, s, e).jobs[id] != s.jobs[id]
    ensures JobOk(node, Do(node, s, e), Do(node, s, e).jobs[id])
  {
    hide Justified, NewestSeen, ImageOk, AfterReread, AfterDesired, Target, Inv;
    match e
    case Reread(_, ok) => RereadJob(node, s, id, ok);
    case LoadDesired(_, ok) => DesiredJob(node, s, id, ok);
    case LoadImage(_, ok) => ImageJob(node, s, id, ok);
    case _ =>
  }

  /** Messages are only sent by a publish step, and finished handlers stay finished. */
  lemma OnlyPublishSends(node: string, s: State, e: Event)
    requires Enabled(s, e)
    ensures var t := Do(node, s, e);
      && (forall id :: id in s.jobs && s.jobs[id].stage.Finished? ==> id in t.jobs && t.jobs[id] == s.jobs[id])
      && forall p :: p in t.published && p !in s.published ==>
           && e.Publish? && e.id in s.jobs && s.jobs[e.id].stage.Publishing? && e.id in t.jobs && t.jobs[e.id].stage.Finished?
           && var j := s.jobs[e.id];
              p == Publication(e.id, j.report, j.stage.seen, j.stage.wanted, EncodeDesired(Target(j.stage.wanted), j.stage.image))
  {
    hide AfterReread, AfterDesired, Target, RowKey;
  }

  lemma StepPublication(node: string, s: State, e: Event, p: Publication)
    requires Inv(node, s) && Enabled(s, e) && p in Do(node, s, e).published
    ensures PublicationOk(node, Do(node, s, e), p)
  {
    hide NewestSeen, Justified, Target, TimeKeyed, Do, Enabled;
    var t := Do(node, s, e);
    StepExtends(node, s, e);
    OnlyPublishSends(node, s, e);
    if p in s.published {
      JustifiedStays(node, s, t, p.report, p.seen, p.wanted);
    } else {
      var j := s.jobs[e.id];
      JobStays(node, s, t, j);
      JustifiedIsFor(node, s, j.report, j.stage.seen, j.stage.wanted);
    }
  }

  lemma JustifiedIsFor(node: string, s: State, report: Row<Observed>, seen: Partition<Observed>, wanted: Partition<Desired>)
    requires Justified(node, s, report, seen, wanted)
    ensures Target(wanted).nodeId == node
  {}

  lemma StepKeepsInv(node: string, s: State, e: Event)
    requires Inv(node, s) && Enabled(s, e)
    ensures Inv(node, Do(node, s, e))
  {
    hide Do, Enabled, JobOk, PublicationOk, TimeKeyed, Extends;
    var t := Do(node, s, e);
    StepExtends(node, s, e);
    forall id | id in t.jobs ensures JobOk(node, t, t.jobs[id]) {
      if id in s.jobs && t.jobs[id] == s.jobs[id] { JobStays(node, s, t, s.jobs[id]); } else { StepJob(node, s, e, id); }
    }
    forall p | p in t.published ensures PublicationOk(node, t, p) { StepPublication(node, s, e, p); }
    StepKeepsKeys(node, s, e);
  }

  lemma StepKeepsKeys(node: string, s: State, e: Event)
    requires Inv(node, s) && Enabled(s, e)
    ensures TimeKeyed(Do(node, s, e).actual) && TimeKeyed(Do(node, s, e).desired)
  {
    hide JobOk, PublicationOk, AfterReread, AfterDesired, RowKey;
    var t := Do(node, s, e);
    forall k | k in t.actual ensures KeyFor(k, t.actual[k].ts) {
      if e.Append? && k == RowKey(e.parts) && k !in s.actual { assert KeyFor(k, e.parts.ts); }
    }
    forall k | k in t.desired ensures KeyFor(k, t.desired[k].ts) {
      if e.WriteDesired? && k == RowKey(e.parts) { assert KeyFor(k, e.parts.ts); }
    }
  }

  /** In every run, at every moment: reports are only added; every publication was for a report that
      was the newest stored when re-read, and that differed in a specified desired field. */
  lemma {:induction false} NodeRunSafe(node: string, states: seq<State>, events: seq<Event>, n: nat)
    requires Run(node, states, events) && n < |states|
    ensures Inv(node, states[n])
    ensures forall i :: 0 <= i <= n ==> Extends(states[i], states[n])
    ensures forall p :: p in states[n].published ==> ApplyMessage(p.message, p.report.data) != p.report.data
  {
    hide Do, Enabled, JobOk, PublicationOk, TimeKeyed, ApplyMessage;
    if n > 0 {
      NodeRunSafe(node, states, events, n - 1);
      StepKeepsInv(node, states[n - 1], events[n - 1]);
      StepExtends(node, states[n - 1], events[n - 1]);
      forall i | 0 <= i <= n ensures Extends(states[i], states[n]) {
        if i < n { ExtendsTransitive(states[i], states[n - 1], states[n]); }
      }
    }
    forall p | p in states[n].published ensures ApplyMessage(p.message, p.report.data) != p.report.data {
      SentChanges(node, states[n], p);
    }
  }

  lemma SentChanges(node: string, s: State, p: Publication)
    requires PublicationOk(node, s, p)
    ensures ApplyMessage(p.message, p.report.data) != p.report.data
  {
    hide NewestSeen, Target;
    DueIffChanges(Target(p.wanted), None, p.report.data);
  }

  lemma ExtendsTransitive(a: State, b: State, c: State)
    requires Extends(a, b) && Extends(b, c)
    ensures Extends(a, c)
  {}

  /** The call of a step did not go through, as far as its handler can tell. */
  predicate CallFailed(e: Event) {
    match e
    case Append(_, _, answer) => answer != Stored
    case Reread(_, ok) => !ok
    case LoadDesired(_, ok) => !ok
    case LoadImage(_, ok) => !ok
    case Publish(_, answer) => answer != Stored
    case _ => false
  }

  /** Every failed call ends its delivery with an error, and changes no other. */
  lemma FailureEnds(node: string, s: State, e: Event)
    requires Enabled(s, e) && CallFailed(e)
    ensures var t := Do(node, s, e);
      t.jobs[e.id].stage == Finished(Failed) && forall id :: id in s.jobs && id != e.id ==> id in t.jobs && t.jobs[id] == s.jobs[id]
  {
    hide RowKey;
  }

  // ---- quiescence ----

  /** A message is due exactly when applying it would change what the node reports. */
  lemma DueIffChanges(d: Desired, image: Option<Image>, o: Observed)
    ensures Diverged(d, o) <==> ApplyMessage(EncodeDesired(d, image), o) != o
  {}

  /** Applying a message of `d` leaves nothing in which the node differs from `d`. */
  lemma AppliedAgrees(d: Desired, m: Message, o: Observed)
    requires m.program == d.program && m.schedule == d.schedule
    ensures !Diverged(d, ApplyMessage(m, o))
  {}

  /** Not on the way to publishing. */
  predicate Harmless(stage: Stage) {
    !stage.LoadingImage? && !stage.Publishing? && stage != Finished(Sent)
  }

  lemma AgreeingStep(node: string, s: State, e: Event, id: nat)
    requires Enabled(s, e) && id in s.jobs && Harmless(s.jobs[id].stage)
    requires !Diverged(Target(s.desired), s.jobs[id].report.data)
    ensures var t := Do(node, s, e);
      && id in t.jobs && t.jobs[id].report == s.jobs[id].report && Harmless(t.jobs[id].stage)
      && forall p :: p in t.published && p.id == id ==> p in s.published
  {
    hide AfterReread, RowKey, Latest;
    if e == LoadDesired(id, true) { NoDetour(node, s.jobs[id].report, s.jobs[id].stage.seen, s.desired); }
    if e == Reread(id, true) { RereadIsHarmless(s.jobs[id].report, s.actual); }
  }

  lemma NoDetour(node: string, report: Row<Observed>, seen: Partition<Observed>, desired: Partition<Desired>)
    requires !Diverged(Target(desired), report.data)
    ensures Harmless(AfterDesired(node, report, seen, desired))
  {}

  lemma RereadIsHarmless(report: Row<Observed>, actual: Partition<Observed>)
    ensures Harmless(AfterReread(report, actual))
  {}

  /** In any run and among any other handlers: a delivery that does not differ from the newest desired row,
      as long as that stays so, never gets to load an image or to publish. */
  lemma {:induction false} AgreeingNeverPublishes(node: string, states: seq<State>, events: seq<Event>, id: nat, i: nat, n: nat)
    requires Run(node, states, events) && i <= n < |states| && id in states[i].jobs && Harmless(states[i].jobs[id].stage)
    requires forall k :: i <= k < n ==> !Diverged(Target(states[k].desired), states[i].jobs[id].report.data)
    ensures id in states[n].jobs && states[n].jobs[id].report == states[i].jobs[id].report && Harmless(states[n].jobs[id].stage)
    ensures forall p :: p in states[n].published && p.id == id ==> p in states[i].published
  {
    hide Do, Enabled, Initial, Diverged, Harmless, Target;
    if i < n {
      AgreeingNeverPublishes(node, states, events, id, i, n - 1);
      AgreeingStep(node, states[n - 1], events[n - 1], id);
    }
  }

  lemma {:induction false} DesiredStays(node: string, states: seq<State>, events: seq<Event>, i: nat, n: nat)
    requires Run(node, states, events) && i <= n < |states| && forall k :: i <= k < n ==> !events[k].WriteDesired?
    ensures states[n].desired == states[i].desired
  {
    hide Enabled, Initial, AfterReread, AfterDesired, RowKey, Latest;
    if i < n { DesiredStays(node, states, events, i, n - 1); }
  }

  lemma DeliveredIsNew(node: string, s: State, e: Event)
    requires Enabled(s, e) && e.Deliver?
    ensures e.id !in s.jobs && Do(node, s, e).published == s.published
  {}

  /** A node that applied what was published for the newest desired row and reports it causes no further
      publish, whatever else is in flight, until the desired state is written again. */
  lemma AppliedNeverRepublishes(node: string, states: seq<State>, events: seq<Event>, p: Publication, before: Observed, ts: u64, id: nat, i: nat, n: nat)
    requires Run(node, states, events) && i < n < |states|
    requires p in states[i].published && Target(p.wanted) == Target(states[i].desired)
    requires events[i] == Deliver(id, Row(ts, ApplyMessage(p.message, before)))
    requires forall k :: i <= k < n ==> !events[k].WriteDesired?
    ensures id in states[n].jobs && Harmless(states[n].jobs[id].stage)
    ensures forall sent :: sent in states[n].published ==> sent.id != id
  {
    hide Enabled, Initial, AfterReread, AfterDesired, RowKey, Latest, Target, Diverged, ApplyMessage, Justified;
    NodeRunSafe(node, states, events, i);
    assert PublicationOk(node, states[i], p);
    AppliedAgrees(Target(p.wanted), p.message, before);
    assert states[i + 1].jobs[id] == Job(Row(ts, ApplyMessage(p.message, before)), Appending);
    forall k | i + 1 <= k < n ensures !Diverged(Target(states[k].desired), states[i + 1].jobs[id].report.data) {
      DesiredStays(node, states, events, i, k);
    }
    AgreeingNeverPublishes(node, states, events, id, i + 1, n);
    DeliveredIsNew(node, states[i], events[i]);
    forall sent | sent in states[n].published ensures sent.id != id {
      if sent in states[i].published { assert PublicationOk(node, states[i], sent); }
    }
  }

  /** No handler is about to publish, and everyone still to consult the desired state agrees with `d`. */
  ghost predicate Settled(s: State, d: Desired) {
    && s.desired != map[] && Latest(s.desired).value.data == d
    && forall id :: id in s.jobs ==>
         var j := s.jobs[id];
         !j.stage.LoadingImage? && !j.stage.Publishing? && (j.stage.Finished? || !Diverged(d, j.report.data))
  }

  /** Once nodes report what was published, nothing more is published until the desired state changes. */
  lemma {:induction false} NodeQuiescent(node: string, states: seq<State>, events: seq<Event>, d: Desired, i: nat, n: nat)
    requires Run(node, states, events) && i <= n < |states|
    requires Settled(states[i], d)
    requires forall k :: i <= k < n ==> !events[k].WriteDesired?
    requires forall k :: i <= k < n && events[k].Deliver? ==> !Diverged(d, events[k].report.data)
    ensures Settled(states[n], d)
    ensures states[n].published == states[i].published
  {
    hide Do, Enabled, Initial, Settled, Diverged;
    if i < n {
      NodeQuiescent(node, states, events, d, i, n - 1);
      SettledStep(node, states[n - 1], events[n - 1], d);
    }
  }

  lemma SettledStep(node: string, s: State, e: Event, d: Desired)
    requires Settled(s, d) && Enabled(s, e) && !e.WriteDesired?
    requires e.Deliver? ==> !Diverged(d, e.report.data)
    ensures Settled(Do(node, s, e), d)
    ensures Do(node, s, e).published == s.published
  {
    var t := Do(node, s, e);
    assert t.desired == s.desired;
    forall id | id in t.jobs
      ensures !t.jobs[id].stage.LoadingImage? && !t.jobs[id].stage.Publishing?
      ensures t.jobs[id].stage.Finished? || !Diverged(d, t.jobs[id].report.data)
    {
      if id in s.jobs { assert t.jobs[id].report == s.jobs[id].report; }
    }
  }

  // ---- redelivery ----

  /** A handler left to run on its own from its append up to its publish. */
  ghost function Alone(node: string, s: State, id: nat, parts: KeyParts): Stage
    requires Enabled(s, Append(id, parts, Stored)) && RowKey(parts) !in s.actual
  {
    var report, key := s.jobs[id].report, RowKey(parts);
    var reread := AfterReread(report, s.actual[key := report]);
    if !reread.LoadingDesired? then reread else
    var loaded := AfterDesired(node, report, reread.seen, s.desired);
    if !loaded.LoadingImage? then loaded else
    Publishing(loaded.seen, loaded.wanted, LookUp(s.programs, Target(loaded.wanted)))
  }

  /** `Alone` is what the handler's own steps do when no other step comes between. */
  lemma AloneIsSteps(node: string, s: State, id: nat, parts: KeyParts)
    requires Enabled(s, Append(id, parts, Stored)) && RowKey(parts) !in s.actual
    requires Alone(node, s, id, parts).Publishing?
    ensures var s1 := Do(node, s, Append(id, parts, Stored));
      && Enabled(s1, Reread(id, true))
      && var s2 := Do(node, s1, Reread(id, true));
      && Enabled(s2, LoadDesired(id, true))
      && var s3 := Do(node, s2, LoadDesired(id, true));
      && (s3.jobs[id].stage == Alone(node, s, id, parts)
          || (Enabled(s3, LoadImage(id, true))
              && Do(node, s3, LoadImage(id, true)).jobs[id].stage == Alone(node, s, id, parts)))
  {
    hide Latest, RowKey;
    var s1 := Do(node, s, Append(id, parts, Stored));
    assert s1.jobs[id] == Job(s.jobs[id].report, Rereading(RowKey(parts)));
    var s2 := Do(node, s1, Reread(id, true));
    assert s2.jobs[id].report == s.jobs[id].report;
  }

  /** Left alone, a handler publishes exactly when its report is not older than any stored one, the newest
      desired row is this node's, and a node that applied it would report something else. The message has
      the desired fields, and the stored image if the program is what differs and the image is not empty. */
  lemma AlonePublishesIff(node: string, s: State, id: nat, parts: KeyParts)
    requires TimeKeyed(s.actual) && Enabled(s, Append(id, parts, Stored)) && RowKey(parts) !in s.actual
    ensures var report, again, d := s.jobs[id].report, Alone(node, s, id, parts), Target(s.desired);
      && (again.Publishing? <==>
            && (forall k :: k in s.actual ==> s.actual[k].ts <= report.ts)
            && s.desired != map[] && d.nodeId == node && ApplyMessage(EncodeDesired(d, None), report.data) != report.data)
      && (again.Publishing? ==> again.wanted == s.desired)
      && (again.Publishing? ==>
            EncodeDesired(Target(again.wanted), again.image) == Message(node, d.program, d.schedule, ImageFor(s.programs, d, report.data)))
  {
    hide RowKey, Latest;
    var report, key := s.jobs[id].report, RowKey(parts);
    var actual := s.actual[key := report];
    forall k | k in actual ensures KeyFor(k, actual[k].ts) {
      if k == key { assert KeyFor(k, parts.ts); }
    }
    RereadDropsIffSuperseded(report, actual, key);
    assert forall k :: k in s.actual ==> k in actual && actual[k] == s.actual[k];
    LatestSome(s.desired);
    DueIffChanges(Target(s.desired), None, report.data);
  }

  /** The image a message should carry. */
  function ImageFor(programs: map<Bytes, Image>, d: Desired, o: Observed): Option<Image> {
    if d.program.None? || o.program == d.program || d.program.value !in programs then None
    else if |programs[d.program.value].elf| == 0 then None
    else Some(programs[d.program.value])
  }

  lemma LatestSome(t: Partition<Desired>)
    ensures Latest(t).Some? <==> t != map[]
  {}

  /** A report redelivered after its publish failed is about to publish the same message, as long as no
      newer report was stored and the desired state and program image are what the failed attempt read. */
  lemma RedeliveryReissues(node: string, before: State, failed: nat, s: State, id: nat, parts: KeyParts)
    requires Inv(node, before) && failed in before.jobs && before.jobs[failed].stage.Publishing?
    requires TimeKeyed(s.actual) && Enabled(s, Append(id, parts, Stored)) && RowKey(parts) !in s.actual
    requires s.jobs[id].report == before.jobs[failed].report
    requires forall k :: k in s.actual ==> s.actual[k].ts <= s.jobs[id].report.ts
    requires Latest(s.desired) == Latest(before.jobs[failed].stage.wanted)
    requires var st := before.jobs[failed].stage;
      ProgramDiverged(Target(st.wanted), s.jobs[id].report.data) ==> LookUp(s.programs, Target(st.wanted)) == st.image
    ensures var st, again := before.jobs[failed].stage, Alone(node, s, id, parts);
      again.Publishing? && EncodeDesired(Target(again.wanted), again.image) == EncodeDesired(Target(st.wanted), st.image)
  {
    hide NewestSeen, PublicationOk, RowKey, Latest, Alone;
    AlonePublishesIff(node, s, id, parts);
    LatestSome(s.desired);
    assert JobOk(node, before, before.jobs[failed]);
  }

  /** The job of a redelivered report on its way to the message `EncodeDesired(d, image)`. */
  ghost predicate OnTrack(j: Job, d: Desired, image: Option<Image>) {
    match j.stage
    case LoadingImage(_, wanted) => Target(wanted) == d
    case Publishing(_, wanted, found) => Target(wanted) == d && EncodeDesired(d, found) == EncodeDesired(d, image)
    case Finished(outcome) => outcome == Failed || outcome == Sent
    case _ => true
  }

  /** No newer report is stored, the newest desired row is `d`, and the image it needs is `image`. */
  ghost predicate Unchanged(s: State, report: Row<Observed>, d: Desired, image: Option<Image>) {
    && (forall k :: k in s.actual ==> s.actual[k].ts <= report.ts)
    && s.desired != map[] && Target(s.desired) == d
    && (image == if ProgramDiverged(d, report.data) then LookUp(s.programs, d) else None)
  }

  lemma OnTrackStep(node: string, s: State, e: Event, id: nat, d: Desired, image: Option<Image>)
    requires Inv(node, s) && Enabled(s, e) && id in s.jobs && OnTrack(s.jobs[id], d, image)
    requires Unchanged(s, s.jobs[id].report, d, image) && d.nodeId == node && Diverged(d, s.jobs[id].report.data)
    ensures var t := Do(node, s, e);
      && id in t.jobs && t.jobs[id].report == s.jobs[id].report && OnTrack(t.jobs[id], d, image)
      && forall p :: p in t.published && p.id == id ==> p in s.published || p.message == EncodeDesired(d, image)
  {
    hide RowKey, Latest, PublicationOk, NewestSeen, Justified, AfterReread, AfterDesired, Target;
    var j := s.jobs[id];
    assert JobOk(node, s, j);
    if e == Reread(id, true) { RereadDropsIffSuperseded(j.report, s.actual, j.stage.key); }
    if e == LoadDesired(id, true) { DesiredOnTrack(node, s, j, d, image); }
    if e.LoadImage? && e.id == id { assert OnTrack(Job(j.report, j.stage), d, image); }
  }

  lemma DesiredOnTrack(node: string, s: State, j: Job, d: Desired, image: Option<Image>)
    requires j.stage.LoadingDesired? && Unchanged(s, j.report, d, image) && d.nodeId == node && Diverged(d, j.report.data)
    ensures OnTrack(Job(j.report, AfterDesired(node, j.report, j.stage.seen, s.desired)), d, image)
    ensures AfterDesired(node, j.report, j.stage.seen, s.desired).LoadingImage? ==> ProgramDiverged(d, j.report.data)
  {
    hide Latest;
    LatestSome(s.desired);
  }

  /** In any run and among any other handlers: a report delivered again, while no newer report is stored and
      the desired state and image are what the failed attempt read, is never dropped as stale nor found to
      agree; and whatever it publishes is the message of the failed attempt. */
  lemma {:induction false} RedeliveryInAnyRun(node: string, states: seq<State>, events: seq<Event>, m: nat, failed: nat, id: nat, i: nat, n: nat)
    requires Run(node, states, events) && m < |states| && i <= n < |states|
    requires failed in states[m].jobs && states[m].jobs[failed].stage.Publishing?
    requires id in states[i].jobs && states[i].jobs[id] == Job(states[m].jobs[failed].report, Appending)
    requires var st := states[m].jobs[failed].stage;
      forall k :: i <= k < n ==> Unchanged(states[k], states[m].jobs[failed].report, Target(st.wanted), st.image)
    ensures var st := states[m].jobs[failed].stage;
      && id in states[n].jobs && states[n].jobs[id].report == states[m].jobs[failed].report
      && OnTrack(states[n].jobs[id], Target(st.wanted), st.image)
      && forall p :: p in states[n].published && p.id == id ==> p in states[i].published || p.message == EncodeDesired(Target(st.wanted), st.image)
  {
    hide Do, Enabled, Initial, Unchanged, OnTrack, Target, EncodeDesired, Inv, Diverged, Extends;
    var st, report := states[m].jobs[failed].stage, states[m].jobs[failed].report;
    if i == n {
      NewIsOnTrack(states[i].jobs[id], Target(st.wanted), st.image);
    } else {
      RedeliveryInAnyRun(node, states, events, m, failed, id, i, n - 1);
      NodeRunSafe(node, states, events, m);
      NodeRunSafe(node, states, events, n - 1);
      AttemptIsFor(node, states[m], failed);
      OnTrackStep(node, states[n - 1], events[n - 1], id, Target(st.wanted), st.image);
    }
  }

  lemma AttemptIsFor(node: string, s: State, id: nat)
    requires Inv(node, s) && id in s.jobs && s.jobs[id].stage.Publishing?
    ensures var d := Target(s.jobs[id].stage.wanted); d.nodeId == node && Diverged(d, s.jobs[id].report.data)
  {
    hide Target, Diverged, NewestSeen, PublicationOk, TimeKeyed;
    assert JobOk(node, s, s.jobs[id]);
  }

  lemma NewIsOnTrack(j: Job, d: Desired, image: Option<Image>)
    requires j.stage.Appending?
    ensures OnTrack(j, d, image)
  {}
}
