/**
 * The incident life cycle of one external service: reports of success and failure
 * open, extend, reopen and end incidents, over a storage whose calls may throw.
 */
module IntegrationStatus {
  import opened Texts
  import opened Wrappers

  type Time = int

  // Between two successes stored while no incident is open.
  const SUCCESS_WRITE_EVERY_MS := 60_000
  // How long after its end an incident can be continued by a new failure.
  const REOPEN_WITHIN_MS := 900_000
  const MESSAGE_MAX := 500
  const SAMPLE_MAX := 2000

  datatype Kind = HttpError | Timeout | Network | UnexpectedResponse

  datatype Failure = Failure(kind: Kind, httpStatus: Option<int>, message: string, sample: Option<string>)

  datatype Report = Success | Failed(failure: Failure)

  datatype Incident = Incident(
    kind: Kind, httpStatus: Option<int>, message: string, sample: Option<string>,
    failures: nat, startedAt: Time, lastFailureAt: Time, endedAt: Option<Time>)

  /** A component row; an incident is named by its position among the component's incidents. */
  datatype Component = Component(
    lastSuccessAt: Option<Time>, lastFailureAt: Option<Time>, openIncident: Option<nat>)

  /** What memory keeps of a component. */
  datatype Known = Known(openIncident: Option<nat>, successWrittenAt: Time)

  /** Everything about one component: its row, its incidents and what memory knows of it. */
  datatype Cell = Cell(row: Option<Component>, incidents: seq<Incident>, known: Option<Known>) {
    function Forget(): Cell { this.(known := None) }
  }

  /** The outcome of each storage call a report may make, in the order it makes them. */
  datatype Faults = Faults(load: Outcome, search: Outcome, write: Outcome, point: Outcome)

  const EMPTY_CELL := Cell(None, [], None)
  const NO_FAULTS := Faults(Done, Done, Done, Done)

  // An empty sample is no sample: the incident keeps the one it had.
  function SampleOf(f: Failure, before: Option<string>): Option<string> {
    if f.sample.Some? && f.sample.value != "" then Some(Cut(f.sample.value, SAMPLE_MAX)) else before
  }

  function NewIncident(f: Failure, at: Time): Incident {
    Incident(f.kind, f.httpStatus, Cut(f.message, MESSAGE_MAX), SampleOf(f, None), 1, at, at, None)
  }

  function AddFailure(i: Incident, f: Failure, at: Time): Incident {
    i.(kind := f.kind, httpStatus := f.httpStatus, message := Cut(f.message, MESSAGE_MAX),
       sample := SampleOf(f, i.sample), lastFailureAt := at, failures := i.failures + 1)
  }

  /** The incident that ended last, among those that ended at `since` or later. */
  function LatestEnded(incidents: seq<Incident>, since: Time): (r: Option<nat>)
    ensures r.Some? ==> r.value < |incidents| && incidents[r.value].endedAt.Some?
                        && since <= incidents[r.value].endedAt.value
    ensures forall i | 0 <= i < |incidents| && incidents[i].endedAt.Some? && since <= incidents[i].endedAt.value ::
              r.Some? && incidents[i].endedAt.value <= incidents[r.value].endedAt.value
  {
    if incidents == [] then None else
      var last := |incidents| - 1;
      var rest := LatestEnded(incidents[..last], since);
      var ended := incidents[last].endedAt;
      if ended.Some? && since <= ended.value && (rest.None? || incidents[rest.value].endedAt.value <= ended.value)
      then Some(last) else rest
  }

  // ─── The stages of a report ──────────────────────────────

  /** The row as the upsert leaves it, and what memory takes from it when the call returns. */
  function Load(c: Cell, o: Outcome): Cell {
    if c.known.Some? then c else
      var row := if o.Applied() && c.row.None? then Some(Component(None, None, None)) else c.row;
      var known := if o.Threw() || row.None? then None else Some(Known(row.value.openIncident, 0));
      c.(row := row, known := known)
  }

  predicate SkipsSuccess(k: Known, now: Time) {
    k.openIncident.None? && now - k.successWrittenAt < SUCCESS_WRITE_EVERY_MS
  }

  function EndIncident(incidents: seq<Incident>, open: Option<nat>, at: Time): seq<Incident> {
    if open.Some? && open.value < |incidents|
    then incidents[open.value := incidents[open.value].(endedAt := Some(at))] else incidents
  }

  /** The service answered: one transaction ends the open incident, or only the success is stamped. */
  function Succeed(c: Cell, now: Time, o: Outcome): Cell
    requires c.row.Some? && c.known.Some?
  {
    var k := c.known.value;
    if SkipsSuccess(k, now) then c else
      var row := c.row.value.(lastSuccessAt := Some(now));
      var written :=
        if k.openIncident.Some?
        then c.(incidents := EndIncident(c.incidents, k.openIncident, now), row := Some(row.(openIncident := None)))
        else c.(row := Some(row));
      (if o.Applied() then written else c).(known := if o.Threw() then None else Some(Known(None, now)))
  }

  /** A failure while an incident is open: one transaction adds it to the incident. */
  function Extend(c: Cell, f: Failure, now: Time, o: Outcome): Cell
    requires c.row.Some? && c.known.Some? && c.known.value.openIncident.Some?
  {
    var id := c.known.value.openIncident.value;
    var incidents := if id < |c.incidents| then c.incidents[id := AddFailure(c.incidents[id], f, now)] else c.incidents;
    var written := c.(incidents := incidents, row := Some(c.row.value.(lastFailureAt := Some(now))));
    var after := if o.Applied() then written else c;
    if o.Threw() then after.Forget() else after
  }

  /** The incident a failure goes to when none is open: the recent one, else a new one at the end. */
  function IncidentFor(c: Cell, recent: Option<nat>): nat {
    if recent.Some? then recent.value else |c.incidents|
  }

  /** Writes the incident: the recent one is reopened, otherwise one is created. */
  function WriteIncident(c: Cell, f: Failure, at: Time, recent: Option<nat>): Cell
    requires recent.Some? ==> recent.value < |c.incidents|
  {
    if recent.Some?
    then c.(incidents := c.incidents[recent.value := AddFailure(c.incidents[recent.value], f, at).(endedAt := None)])
    else c.(incidents := c.incidents + [NewIncident(f, at)])
  }

  /** Points the component row at the incident, and then memory too. */
  function PointAt(c: Cell, id: nat, at: Time, o: Outcome): Cell
    requires c.row.Some? && c.known.Some?
  {
    var written := c.(row := Some(c.row.value.(openIncident := Some(id), lastFailureAt := Some(at))));
    var after := if o.Applied() then written else c;
    if o.Threw() then after.Forget() else after.(known := Some(c.known.value.(openIncident := Some(id))))
  }

  /** A failure while no incident is open: three storage calls, which are not one transaction. */
  function Open(c: Cell, f: Failure, now: Time, o: Faults): Cell
    requires c.row.Some? && c.known.Some?
  {
    if o.search.Threw() then c.Forget() else
      var recent := LatestEnded(c.incidents, now - REOPEN_WITHIN_MS);
      var after := if o.write.Applied() then WriteIncident(c, f, now, recent) else c;
      if o.write.Threw() then after.Forget() else PointAt(after, IncidentFor(c, recent), now, o.point)
  }

  /** One whole report, run on its own. */
  function Perform(c: Cell, r: Report, now: Time, o: Faults): Cell
    requires c.known.Some? ==> c.row.Some?
  {
    var c := Load(c, o.load);
    if c.known.None? then c else
      match r
      case Success => Succeed(c, now, o.write)
      case Failed(f) => if c.known.value.openIncident.Some? then Extend(c, f, now, o.write) else Open(c, f, now, o)
  }

  /** What a storage call refuses is not stored, whatever the report. */
  lemma RefusedStoresNothing(c: Cell, r: Report, now: Time)
    requires c.known.Some? ==> c.row.Some?
    ensures var after := Perform(c, r, now, Faults(Refused, Refused, Refused, Refused));
            after.row == c.row && after.incidents == c.incidents
  {
  }

  /** A component in memory asks for its row no more, and is forgotten exactly when a call it does make throws. */
  lemma ForgottenIff(c: Cell, r: Report, now: Time, o: Faults)
    requires c.row.Some? && c.known.Some?
    ensures var k, after := c.known.value, Perform(c, r, now, o);
            && Perform(c, r, now, o.(load := Done)) == after
            && (after.known.None? <==>
                  if r.Success? then (k.openIncident.Some? || now - k.successWrittenAt >= 60_000) && o.write.Threw()
                  else o.write.Threw() || (k.openIncident.None? && (o.search.Threw() || o.point.Threw())))
  {
  }

  /** While storage works a component stays in memory, with the incident its row points to. */
  lemma MemoryStays(c: Cell, r: Report, now: Time)
    requires Coherent(c)
    ensures var after := Perform(c, r, now, NO_FAULTS);
            && after.known.Some? && after.row.Some? && after.known.value.openIncident == after.row.value.openIncident
  {
  }

  /** While nothing is open, a success less than a minute after a stored one is not stored again. */
  lemma SuccessIsStoredOncePerMinute(c: Cell, at: Time, now: Time, o: Outcome)
    requires c.row.Some? && c.known.Some? && !SkipsSuccess(c.known.value, at)
    ensures var stored := Succeed(c, at, Done);
            && stored.row.Some? && stored.row.value.lastSuccessAt == Some(at) && stored.known.Some?
            && (now - at < 60_000 ==> Succeed(stored, now, o) == stored)
            && (now - at >= 60_000 && o.Done? ==> Succeed(stored, now, o).row.value.lastSuccessAt == Some(now))
  {
  }

  // ─── Runs ────────────────────────────────────────────────

  datatype Event =
    | Call(report: Report, at: Time, faults: Faults)
    | Restart(at: Time)   // the process starts again with nothing in memory

  predicate Coherent(c: Cell) {
    && (c.known.Some? ==> c.row.Some? && c.known.value.openIncident == c.row.value.openIncident)
    && (c.row.None? ==> c.incidents == [])
  }

  predicate WellTimed(i: Incident, now: Time) {
    && 1 <= i.failures
    && i.startedAt <= i.lastFailureAt <= now
    && (i.endedAt.Some? ==> i.lastFailureAt <= i.endedAt.value <= now)
  }

  /** What every run keeps, whatever storage calls throw. */
  predicate Sound(c: Cell, now: Time) {
    && Coherent(c)
    && (c.known.Some? && c.known.value.successWrittenAt != 0
        ==> c.row.value.lastSuccessAt == Some(c.known.value.successWrittenAt))
    && (c.row.Some? && c.row.value.openIncident.Some?
        ==> c.row.value.openIncident.value < |c.incidents| && c.incidents[c.row.value.openIncident.value].endedAt.None?)
    && forall i | 0 <= i < |c.incidents| :: WellTimed(c.incidents[i], now)
  }

  function Step(c: Cell, e: Event): Cell
    requires c.known.Some? ==> c.row.Some?
  {
    match e
    case Call(r, at, o) => Perform(c, r, at, o)
    case Restart(_) => c.Forget()
  }

  lemma LoadKeepsSound(c: Cell, now: Time, at: Time, o: Outcome)
    requires Sound(c, now) && now <= at
    ensures Sound(Load(c, o), at)
  {
  }

  lemma SucceedKeepsSound(c: Cell, at: Time, o: Outcome)
    requires Sound(c, at) && c.known.Some?
    ensures Sound(Succeed(c, at, o), at)
  {
    var after := Succeed(c, at, o);
    assert forall i | 0 <= i < |after.incidents| :: WellTimed(c.incidents[i], at);
  }

  lemma ExtendKeepsSound(c: Cell, f: Failure, at: Time, o: Outcome)
    requires Sound(c, at) && c.known.Some? && c.known.value.openIncident.Some?
    ensures Sound(Extend(c, f, at, o), at)
  {
    assert WellTimed(AddFailure(c.incidents[c.known.value.openIncident.value], f, at), at);
  }

  lemma WriteKeepsSound(c: Cell, f: Failure, at: Time, recent: Option<nat>)
    requires Sound(c, at) && c.row.Some? && c.row.value.openIncident.None?
    requires recent.Some? ==> recent.value < |c.incidents|
    ensures Sound(WriteIncident(c, f, at, recent), at)
  {
    assert WellTimed(NewIncident(f, at), at);
    if recent.Some? {
      assert WellTimed(AddFailure(c.incidents[recent.value], f, at).(endedAt := None), at);
    }
  }

  lemma OpenKeepsSound(c: Cell, f: Failure, at: Time, o: Faults)
    requires Sound(c, at) && c.known.Some? && c.known.value.openIncident.None?
    ensures Sound(Open(c, f, at, o), at)
  {
    var recent := LatestEnded(c.incidents, at - REOPEN_WITHIN_MS);
    WriteKeepsSound(c, f, at, recent);
    PointKeepsSound(WriteIncident(c, f, at, recent), IncidentFor(c, recent), at, o.point);
  }

  lemma PointKeepsSound(c: Cell, id: nat, at: Time, o: Outcome)
    requires Sound(c, at) && c.known.Some? && id < |c.incidents| && c.incidents[id].endedAt.None?
    ensures Sound(PointAt(c, id, at, o), at)
  {
  }

  lemma StepKeepsSound(c: Cell, now: Time, e: Event)
    requires Sound(c, now) && now <= e.at
    ensures Sound(Step(c, e), e.at)
  {
    match e
    case Restart(_) =>
    case Call(r, at, o) =>
      LoadKeepsSound(c, now, at, o.load);
      var loaded := Load(c, o.load);
      if loaded.known.Some? {
        match r
        case Success => SucceedKeepsSound(loaded, at, o.write);
        case Failed(f) =>
          if loaded.known.value.openIncident.Some? {
            ExtendKeepsSound(loaded, f, at, o.write);
          } else {
            OpenKeepsSound(loaded, f, at, o);
          }
      }
  }

  predicate Ordered(events: seq<Event>) {
    forall i, j | 0 <= i <= j < |events| :: events[i].at <= events[j].at
  }

  function Run(events: seq<Event>): (c: Cell)
    ensures c.known.Some? ==> c.row.Some?
  {
    if events == [] then EMPTY_CELL else
      var last := |events| - 1;
      Step(Run(events[..last]), events[last])
  }

  /**
   * Over every run, with storage calls that may throw before or after taking effect and restarts at any moment:
   * memory equals the row, the row never points to an ended or missing incident, and every incident is well timed.
   */
  lemma {:induction false} EveryRunIsSound(events: seq<Event>, now: Time)
    requires Ordered(events)
    requires forall e | e in events :: e.at <= now
    ensures Sound(Run(events), now)
  {
    if events != [] {
      var last := |events| - 1;
      EveryRunIsSound(events[..last], events[last].at);
      StepKeepsSound(Run(events[..last]), events[last].at, events[last]);
    }
  }

  // ─── One open incident, and the gaps ─────────────────────

  predicate Apart(incidents: seq<Incident>) {
    forall i, j | 0 <= i < j < |incidents| ::
      incidents[i].endedAt.Some? && incidents[i].endedAt.value + REOPEN_WITHIN_MS < incidents[j].startedAt
  }

  /** The incident that is still open, when it is the last one. */
  function OpenLast(incidents: seq<Incident>): Option<nat> {
    if incidents != [] && incidents[|incidents| - 1].endedAt.None? then Some(|incidents| - 1) else None
  }

  function Pointer(c: Cell): Option<nat> {
    if c.row.Some? then c.row.value.openIncident else None
  }

  /** Incidents are disjoint, more than REOPEN_WITHIN_MS apart, and only the last may be open: the one the row points to. */
  predicate Tidy(c: Cell) {
    Apart(c.incidents) && Pointer(c) == OpenLast(c.incidents)
  }

  /** The incident is written but the row is not pointed at it: the only way two incidents come to be open. */
  predicate LosesPointer(c: Cell, e: Event)
    requires c.known.Some? ==> c.row.Some?
  {
    && e.Call? && e.report.Failed?
    && (var loaded := Load(c, e.faults.load);
        loaded.known.Some? && loaded.known.value.openIncident.None?)
    && e.faults.search.Done? && e.faults.write.Applied()
    && (e.faults.write.Threw() || e.faults.point.Refused?)
  }

  /** Reopening the latest ended incident, or adding one after them, leaves the last incident open and the rest apart. */
  lemma WriteKeepsApart(c: Cell, f: Failure, at: Time)
    requires Sound(c, at) && Tidy(c) && Pointer(c).None?
    ensures var recent := LatestEnded(c.incidents, at - REOPEN_WITHIN_MS);
            var after := WriteIncident(c, f, at, recent);
            Apart(after.incidents) && OpenLast(after.incidents) == Some(IncidentFor(c, recent))
  {
    var recent := LatestEnded(c.incidents, at - REOPEN_WITHIN_MS);
    var n := |c.incidents|;
    assert n > 0 ==> WellTimed(c.incidents[n - 1], at);
    assert recent.Some? ==> recent.value == n - 1;
  }

  lemma OpenKeepsTidy(c: Cell, f: Failure, at: Time, o: Faults)
    requires Sound(c, at) && Tidy(c) && c.known.Some? && c.known.value.openIncident.None?
    ensures Tidy(Open(c, f, at, o)) <==> !(o.search.Done? && o.write.Applied() && (o.write.Threw() || o.point.Refused?))
  {
    WriteKeepsApart(c, f, at);
  }

  /** A single report keeps the incidents tidy exactly when it does not lose the pointer. */
  lemma StepKeepsTidy(c: Cell, now: Time, e: Event)
    requires Sound(c, now) && Tidy(c) && now <= e.at
    ensures Tidy(Step(c, e)) <==> !LosesPointer(c, e)
  {
    match e
    case Restart(_) =>
    case Call(r, at, o) =>
      LoadKeepsSound(c, now, at, o.load);
      var loaded := Load(c, o.load);
      if loaded.known.Some? && r.Failed? && loaded.known.value.openIncident.None? {
        OpenKeepsTidy(loaded, r.failure, at, o);
      }
  }

  /** Over every run in which no report loses the pointer, incidents are disjoint, far apart and at most one is open. */
  lemma {:induction false} EveryRunIsTidy(events: seq<Event>)
    requires Ordered(events)
    requires forall i | 0 <= i < |events| :: !LosesPointer(Run(events[..i]), events[i])
    ensures Tidy(Run(events))
  {
    if events != [] {
      var last := |events| - 1;
      forall i | 0 <= i < last
        ensures !LosesPointer(Run(events[..last][..i]), events[..last][i])
      {
        assert events[..last][..i] == events[..i];
      }
      EveryRunIsTidy(events[..last]);
      EveryRunIsSound(events[..last], events[last].at);
      StepKeepsTidy(Run(events[..last]), events[last].at, events[last]);
    }
  }

  /** Where it fails: the pointer write is refused, the next failure finds no recent incident, and two stay open. */
  lemma TwoOpenAfterLostPointer(f: Failure)
    ensures var events := [Call(Failed(f), 0, NO_FAULTS.(point := Refused)), Call(Failed(f), 1, NO_FAULTS)];
            var c := Run(events);
            |c.incidents| == 2 && c.incidents[0].endedAt.None? && c.incidents[1].endedAt.None?
  {
    var e0, e1 := Call(Failed(f), 0, NO_FAULTS.(point := Refused)), Call(Failed(f), 1, NO_FAULTS);
    assert [e0, e1][..1] == [e0];
    assert [e0][..0] == [];
    assert Run([e0]) == Step(EMPTY_CELL, e0);
    assert Run([e0, e1]) == Step(Run([e0]), e1);
  }
}
