/**
 * Reports of one component run one after the other, those of different components interleave at every
 * storage call. Whatever the interleaving, each component ends as if its reports had run alone, in order.
 */
module IntegrationQueue {
  import opened Wrappers
  import opened IntegrationStatus

  type Key = string

  /** Where the report at the head of a queue stands, with the outcomes its storage calls already had. */
  datatype Progress =
    | Idle
    | Loaded(report: Report, load: Outcome)
    | Searched(failure: Failure, at: Time, load: Outcome, recent: Option<nat>)
    | Written(failure: Failure, at: Time, load: Outcome, id: nat)

  /**
   * One component: its rows and memory, the reports waiting, the one running, the calls that finished, and how many of
   * them had when the process last started.
   */
  datatype Lane = Lane(cell: Cell, waiting: seq<Report>, progress: Progress, finished: seq<Event>, before: nat)

  const EMPTY_LANE := Lane(EMPTY_CELL, [], Idle, [], 0)

  /**
   * What may happen: a report arrives, a running report makes its next storage call, or the process dies and starts
   * again; the calls in flight of the components named had taken effect.
   */
  datatype Tick =
    | Arrive(key: Key, report: Report)
    | Advance(key: Key, now: Time, outcome: Outcome)
    | Crash(now: Time, applied: set<Key>)

  function Finish(l: Lane, cell: Cell, e: Event): Lane {
    l.(cell := cell, progress := Idle, finished := l.finished + [e])
  }

  /** The next storage call of the lane. The head of the queue starts only when nothing of the lane is running. */
  function AdvanceLane(l: Lane, now: Time, o: Outcome): Lane
    requires l.cell.known.Some? ==> l.cell.row.Some?
    requires l.progress.Loaded? || l.progress.Written? ==> l.cell.known.Some?
    requires l.progress.Searched? ==> l.progress.recent.Some? ==> l.progress.recent.value < |l.cell.incidents|
  {
    match l.progress
    case Idle =>
      if l.waiting == [] then l else
        var report, cell := l.waiting[0], Load(l.cell, o);
        var started := l.(waiting := l.waiting[1..]);
        if cell.known.None?
        then Finish(started, cell, Call(report, now, NO_FAULTS.(load := o)))
        else started.(cell := cell, progress := Loaded(report, o))
    case Loaded(Success, load) =>
      Finish(l, Succeed(l.cell, now, o), Call(Success, now, NO_FAULTS.(load := load, write := o)))
    case Loaded(Failed(f), load) =>
      if l.cell.known.value.openIncident.Some?
      then Finish(l, Extend(l.cell, f, now, o), Call(Failed(f), now, NO_FAULTS.(load := load, write := o)))
      else if o.Threw()
      then Finish(l, l.cell.Forget(), Call(Failed(f), now, NO_FAULTS.(load := load, search := o)))
      else l.(progress := Searched(f, now, load, LatestEnded(l.cell.incidents, now - REOPEN_WITHIN_MS)))
    case Searched(f, at, load, recent) =>
      var cell := if o.Applied() then WriteIncident(l.cell, f, at, recent) else l.cell;
      if o.Threw()
      then Finish(l, cell.Forget(), Call(Failed(f), at, NO_FAULTS.(load := load, write := o)))
      else l.(cell := cell, progress := Written(f, at, load, IncidentFor(l.cell, recent)))
    case Written(f, at, load, id) =>
      Finish(l, PointAt(l.cell, id, at, o), Call(Failed(f), at, NO_FAULTS.(load := load, point := o)))
  }

  /** A call is in flight: the report running makes one, or the first one waiting reads its component. */
  predicate InFlight(l: Lane) {
    !l.progress.Idle? || (l.waiting != [] && l.cell.known.None?)
  }

  /** A crash: the call in flight never returns, and memory, the queue and the report that ran are gone. */
  function CrashLane(l: Lane, now: Time, applied: bool): Lane
    requires l.cell.known.Some? ==> l.cell.row.Some?
    requires l.progress.Loaded? || l.progress.Written? ==> l.cell.known.Some?
    requires l.progress.Searched? ==> l.progress.recent.Some? ==> l.progress.recent.value < |l.cell.incidents|
  {
    var cut := if InFlight(l) then AdvanceLane(l, now, if applied then LostReply else Refused) else l;
    var finished := cut.finished + [Restart(now)];
    Lane(cut.cell.Forget(), [], Idle, finished, |finished|)
  }

  function Reports(events: seq<Event>): seq<Report> {
    if events == [] then [] else
      var last := |events| - 1;
      Reports(events[..last]) + if events[last].Call? then [events[last].report] else []
  }

  function Running(p: Progress): seq<Report> {
    match p
    case Idle => []
    case Loaded(r, _) => [r]
    case Searched(f, _, _, _) => [Failed(f)]
    case Written(f, _, _, _) => [Failed(f)]
  }

  /** The reports finished since the process last started. */
  function Recent(l: Lane): seq<Report> {
    if l.before <= |l.finished| then Reports(l.finished[l.before..]) else []
  }

  /** The clock of a lane never passes the clock of the process. */
  predicate Timely(l: Lane, now: Time) {
    && Ordered(l.finished)
    && (forall e | e in l.finished :: e.at <= now)
    && (forall e | e in l.finished :: (l.progress.Searched? || l.progress.Written?) ==> e.at <= l.progress.at)
    && (l.progress.Searched? || l.progress.Written? ==> l.progress.at <= now)
  }

  /** The rows and memory are what the finished reports, run alone, leave, plus what the running one did so far. */
  predicate Serial(l: Lane) {
    var base := Run(l.finished);
    l.before <= |l.finished| &&
    match l.progress
    case Idle => l.cell == base
    case Loaded(_, load) => l.cell == Load(base, load) && l.cell.known.Some?
    case Searched(_, at, load, recent) =>
      && l.cell == Load(base, load) && l.cell.known.Some? && l.cell.known.value.openIncident.None?
      && recent == LatestEnded(l.cell.incidents, at - REOPEN_WITHIN_MS)
    case Written(f, at, load, id) =>
      var loaded := Load(base, load);
      && loaded.known.Some? && loaded.known.value.openIncident.None?
      && var recent := LatestEnded(loaded.incidents, at - REOPEN_WITHIN_MS);
         l.cell == WriteIncident(loaded, f, at, recent) && id == IncidentFor(loaded, recent)
  }

  lemma RunAppend(events: seq<Event>, e: Event)
    ensures Run(events + [e]) == Step(Run(events), e)
    ensures Reports(events + [e]) == Reports(events) + if e.Call? then [e.report] else []
  {
    assert (events + [e])[..|events|] == events;
  }

  lemma FinishKeepsTimely(l: Lane, now: Time, cell: Cell, e: Event)
    requires Timely(l, now) && e.at <= now
    requires forall f | f in l.finished :: f.at <= e.at
    ensures Timely(Finish(l, cell, e), now)
  {
    var all := l.finished + [e];
    forall i, j | 0 <= i <= j < |all|
      ensures all[i].at <= all[j].at
    {
      if i < |l.finished| {
        assert l.finished[i] in l.finished;
        if j < |l.finished| {
          assert l.finished[i].at <= l.finished[j].at;
        }
      }
    }
  }

  function Accounted(l: Lane): seq<Report> {
    Recent(l) + Running(l.progress) + l.waiting
  }

  lemma RecentAppend(l: Lane, e: Event)
    requires l.before <= |l.finished|
    ensures Recent(l.(finished := l.finished + [e])) == Recent(l) + if e.Call? then [e.report] else []
  {
    assert (l.finished + [e])[l.before..] == l.finished[l.before..] + [e];
    RunAppend(l.finished[l.before..], e);
  }

  lemma FinishIsSerial(l: Lane, cell: Cell, e: Event)
    requires e.Call? && cell == Step(Run(l.finished), e) && l.before <= |l.finished|
    ensures Serial(Finish(l, cell, e))
    ensures Accounted(Finish(l, cell, e)) == Recent(l) + [e.report] + l.waiting
  {
    RunAppend(l.finished, e);
    RecentAppend(l, e);
    assert Recent(Finish(l, cell, e)) == Recent(l.(finished := l.finished + [e]));
  }

  lemma StartKeepsSerial(l: Lane, now: Time, o: Outcome)
    requires Serial(l) && l.progress.Idle? && l.waiting != []
    ensures Serial(AdvanceLane(l, now, o)) && Accounted(AdvanceLane(l, now, o)) == Accounted(l)
  {
    var report, rest, cell := l.waiting[0], l.waiting[1..], Load(l.cell, o);
    assert Accounted(l) == Recent(l) + [report] + rest by {
      assert l.waiting == [report] + rest;
    }
    if cell.known.None? {
      FinishIsSerial(l.(waiting := rest), cell, Call(report, now, NO_FAULTS.(load := o)));
    } else {
      assert AdvanceLane(l, now, o) == l.(waiting := rest, cell := cell, progress := Loaded(report, o));
    }
  }

  lemma LoadedKeepsSerial(l: Lane, now: Time, o: Outcome)
    requires Serial(l) && l.progress.Loaded?
    ensures Serial(AdvanceLane(l, now, o)) && Accounted(AdvanceLane(l, now, o)) == Accounted(l)
  {
    var load := l.progress.load;
    match l.progress.report
    case Success =>
      FinishIsSerial(l, Succeed(l.cell, now, o), Call(Success, now, NO_FAULTS.(load := load, write := o)));
    case Failed(f) =>
      if l.cell.known.value.openIncident.Some? {
        FinishIsSerial(l, Extend(l.cell, f, now, o), Call(Failed(f), now, NO_FAULTS.(load := load, write := o)));
      } else if o.Threw() {
        FinishIsSerial(l, l.cell.Forget(), Call(Failed(f), now, NO_FAULTS.(load := load, search := o)));
      }
  }

  /** A failure with no open incident, whose search returned, as one report run alone. */
  lemma OpeningAlone(base: Cell, f: Failure, at: Time, o: Faults)
    requires base.known.Some? ==> base.row.Some?
    requires var loaded := Load(base, o.load); loaded.known.Some? && loaded.known.value.openIncident.None?
    ensures Step(base, Call(Failed(f), at, o)) == Open(Load(base, o.load), f, at, o)
  {
  }

  lemma FailedWriteKeepsSerial(l: Lane, now: Time, o: Outcome)
    requires Serial(l) && l.progress.Searched? && o.Threw()
    ensures Serial(AdvanceLane(l, now, o)) && Accounted(AdvanceLane(l, now, o)) == Accounted(l)
  {
    var Searched(f, at, load, recent) := l.progress;
    var cell := if o.Applied() then WriteIncident(l.cell, f, at, recent) else l.cell;
    var faults := NO_FAULTS.(load := load, write := o);
    OpeningAlone(Run(l.finished), f, at, faults);
    FinishIsSerial(l, cell.Forget(), Call(Failed(f), at, faults));
  }

  lemma SearchedKeepsSerial(l: Lane, now: Time, o: Outcome)
    requires Serial(l) && l.progress.Searched?
    ensures Serial(AdvanceLane(l, now, o)) && Accounted(AdvanceLane(l, now, o)) == Accounted(l)
  {
    if o.Threw() {
      FailedWriteKeepsSerial(l, now, o);
    } else {
      var Searched(f, at, load, recent) := l.progress;
      var after := AdvanceLane(l, now, o);
      assert after == l.(cell := WriteIncident(l.cell, f, at, recent), progress := Written(f, at, load, IncidentFor(l.cell, recent)));
      assert Recent(after) == Recent(l) && Running(after.progress) == Running(l.progress);
    }
  }

  lemma WrittenKeepsSerial(l: Lane, now: Time, o: Outcome)
    requires Serial(l) && l.progress.Written?
    ensures Serial(AdvanceLane(l, now, o)) && Accounted(AdvanceLane(l, now, o)) == Accounted(l)
  {
    var Written(f, at, load, id) := l.progress;
    var faults := NO_FAULTS.(load := load, point := o);
    OpeningAlone(Run(l.finished), f, at, faults);
    FinishIsSerial(l, PointAt(l.cell, id, at, o), Call(Failed(f), at, faults));
  }

  /** A storage call of the lane, whether or not it is the report's last, keeps the lane serial and its reports in order. */
  lemma AdvanceKeepsSerial(l: Lane, now: Time, o: Outcome)
    requires Serial(l)
    ensures Serial(AdvanceLane(l, now, o)) && Accounted(AdvanceLane(l, now, o)) == Accounted(l)
  {
    match l.progress
    case Idle => if l.waiting != [] { StartKeepsSerial(l, now, o); }
    case Loaded(_, _) => LoadedKeepsSerial(l, now, o);
    case Searched(_, _, _, _) => SearchedKeepsSerial(l, now, o);
    case Written(_, _, _, _) => WrittenKeepsSerial(l, now, o);
  }

  lemma AdvanceKeepsTimely(l: Lane, before: Time, now: Time, o: Outcome)
    requires Serial(l) && Timely(l, before) && before <= now
    ensures Timely(AdvanceLane(l, now, o), now)
  {
    var after := AdvanceLane(l, now, o);
    assert Timely(l, now);
    if |after.finished| > |l.finished| {
      FinishKeepsTimely(l.(waiting := after.waiting), now, after.cell, after.finished[|l.finished|]);
    }
  }

  lemma CutIsSerial(l: Lane, now: Time, o: Outcome)
    requires Serial(l) && InFlight(l) && o.Threw()
    ensures Serial(AdvanceLane(l, now, o)) && AdvanceLane(l, now, o).progress.Idle?
  {
    AdvanceKeepsSerial(l, now, o);
  }

  lemma RestartKeepsTimely(l: Lane, now: Time)
    requires Timely(l, now)
    ensures Timely(Lane(l.cell.Forget(), [], Idle, l.finished + [Restart(now)], |l.finished| + 1), now)
  {
    var all := l.finished + [Restart(now)];
    forall i, j | 0 <= i <= j < |all|
      ensures all[i].at <= all[j].at
    {
      assert i < |l.finished| ==> l.finished[i] in l.finished;
    }
  }

  /** Wherever the process dies, the component is as a run of whole reports, then a restart, leaves it. */
  lemma CrashKeepsSerial(l: Lane, before: Time, now: Time, applied: bool)
    requires Serial(l) && Timely(l, before) && before <= now
    ensures Serial(CrashLane(l, now, applied)) && Timely(CrashLane(l, now, applied), now)
    ensures Accounted(CrashLane(l, now, applied)) == []
  {
    var o := if applied then LostReply else Refused;
    var cut := if InFlight(l) then AdvanceLane(l, now, o) else l;
    if InFlight(l) {
      CutIsSerial(l, now, o);
      AdvanceKeepsTimely(l, before, now, o);
    } else {
      LaterIsTimely(l, before, now);
    }
    RunAppend(cut.finished, Restart(now));
    RestartKeepsTimely(cut, now);
    assert (cut.finished + [Restart(now)])[|cut.finished| + 1..] == [];
  }

  // ─── Progress ────────────────────────────────────────────

  /** How many storage calls the running report may still make. */
  function CallsLeft(p: Progress): nat {
    match p
    case Idle => 0
    case Loaded(_, _) => 3
    case Searched(_, _, _, _) => 2
    case Written(_, _, _, _) => 1
  }

  /** Every storage call brings the running report nearer its end, and one that waits starts or ends at the first. */
  lemma AdvanceProgresses(l: Lane, now: Time, o: Outcome)
    requires Serial(l)
    ensures var after := AdvanceLane(l, now, o);
            && (!l.progress.Idle? ==>
                  && CallsLeft(after.progress) < CallsLeft(l.progress) && after.waiting == l.waiting
                  && |after.finished| == |l.finished| + if after.progress.Idle? then 1 else 0)
            && (l.progress.Idle? && l.waiting != [] ==>
                  && after.waiting == l.waiting[1..]
                  && |after.finished| == |l.finished| + if after.progress.Idle? then 1 else 0)
  {
  }

  // ─── The whole process ───────────────────────────────────

  function LaneOf(lanes: map<Key, Lane>, key: Key): Lane {
    if key in lanes then lanes[key] else EMPTY_LANE
  }

  ghost predicate AllSerial(lanes: map<Key, Lane>, now: Time) {
    forall key | key in lanes :: Serial(lanes[key]) && Timely(lanes[key], now)
  }

  lemma EmptyIsSerial(now: Time)
    ensures Serial(EMPTY_LANE) && Timely(EMPTY_LANE, now)
  {
  }

  /** The tick touches the component: a crash touches them all. */
  predicate Touches(t: Tick, key: Key) { t.Crash? || t.key == key }

  function TickLane(l: Lane, t: Tick, key: Key): Lane
    requires Serial(l)
  {
    match t
    case Arrive(_, r) => l.(waiting := l.waiting + [r])
    case Advance(_, now, o) => AdvanceLane(l, now, o)
    case Crash(now, applied) => CrashLane(l, now, key in applied)
  }

  function TickStep(lanes: map<Key, Lane>, t: Tick): map<Key, Lane>
    requires forall key | key in lanes :: Serial(lanes[key])
  {
    if t.Crash? then map key | key in lanes :: TickLane(lanes[key], t, key) else
      var l := LaneOf(lanes, t.key);
      assert Serial(l);
      lanes[t.key := TickLane(l, t, t.key)]
  }

  /** The clock after a run of ticks, when it starts at zero. */
  function Clock(ticks: seq<Tick>): Time {
    if ticks == [] then 0 else
      var last := |ticks| - 1;
      if !ticks[last].Arrive? then ticks[last].now else Clock(ticks[..last])
  }

  predicate ClockMoves(ticks: seq<Tick>) {
    ticks == [] ||
    (var last := |ticks| - 1;
     ClockMoves(ticks[..last]) && (!ticks[last].Arrive? ==> Clock(ticks[..last]) <= ticks[last].now))
  }

  lemma TickLaneKeepsSerial(l: Lane, before: Time, t: Tick, key: Key, now: Time)
    requires Serial(l) && Timely(l, before) && before <= now && (!t.Arrive? ==> t.now == now)
    ensures Serial(TickLane(l, t, key)) && Timely(TickLane(l, t, key), now)
  {
    match t
    case Arrive(_, r) =>
      LaterIsTimely(l, before, now);
      WaitingIsSerial(l, l.waiting + [r]);
      WaitingIsTimely(l, l.waiting + [r], now);
    case Advance(_, _, o) =>
      AdvanceKeepsSerial(l, now, o);
      AdvanceKeepsTimely(l, before, now, o);
    case Crash(_, applied) => CrashKeepsSerial(l, before, now, key in applied);
  }

  lemma WaitingIsSerial(l: Lane, waiting: seq<Report>)
    requires Serial(l)
    ensures Serial(l.(waiting := waiting))
  {
  }

  lemma WaitingIsTimely(l: Lane, waiting: seq<Report>, now: Time)
    requires Timely(l, now)
    ensures Timely(l.(waiting := waiting), now)
  {
  }

  lemma LaterIsTimely(l: Lane, before: Time, now: Time)
    requires Timely(l, before) && before <= now
    ensures Timely(l, now)
  {
  }

  lemma TickKeepsSerial(lanes: map<Key, Lane>, before: Time, t: Tick, now: Time)
    requires AllSerial(lanes, before) && before <= now && (!t.Arrive? ==> t.now == now)
    ensures AllSerial(TickStep(lanes, t), now)
  {
    var after := TickStep(lanes, t);
    EmptyIsSerial(before);
    forall key | key in after
      ensures Serial(after[key]) && Timely(after[key], now)
    {
      if Touches(t, key) {
        TickLaneKeepsSerial(LaneOf(lanes, key), before, t, key, now);
      } else {
        LaterIsTimely(lanes[key], before, now);
      }
    }
  }

  function Process(ticks: seq<Tick>): (lanes: map<Key, Lane>)
    requires ClockMoves(ticks)
    ensures AllSerial(lanes, Clock(ticks))
  {
    if ticks == [] then map[] else
      var last := |ticks| - 1;
      var lanes := Process(ticks[..last]);
      TickKeepsSerial(lanes, Clock(ticks[..last]), ticks[last], Clock(ticks));
      TickStep(lanes, ticks[last])
  }

  /** The reports of one component since the process last started, in the order they arrived. */
  function Arrived(ticks: seq<Tick>, key: Key): seq<Report> {
    if ticks == [] then [] else
      var last := |ticks| - 1;
      if Touches(ticks[last], key) then Due(Arrived(ticks[..last], key), ticks[last]) else Arrived(ticks[..last], key)
  }

  /** What a lane has to account for after a tick of its own. */
  function Due(before: seq<Report>, t: Tick): seq<Report> {
    match t
    case Arrive(_, r) => before + [r]
    case Advance(_, _, _) => before
    case Crash(_, _) => []
  }

  lemma TickAccounts(l: Lane, before: Time, t: Tick, key: Key)
    requires Serial(l) && Timely(l, before) && (!t.Arrive? ==> before <= t.now)
    ensures Accounted(TickLane(l, t, key)) == Due(Accounted(l), t)
  {
    match t
    case Arrive(_, r) => assert Recent(l) + Running(l.progress) + (l.waiting + [r]) == Accounted(l) + [r];
    case Advance(_, now, o) => AdvanceKeepsSerial(l, now, o);
    case Crash(now, applied) => CrashKeepsSerial(l, before, now, key in applied);
  }

  lemma LaneAfter(lanes: map<Key, Lane>, t: Tick, key: Key)
    requires forall k | k in lanes :: Serial(lanes[k])
    ensures LaneOf(TickStep(lanes, t), key) ==
            if t.Crash? && key !in lanes then EMPTY_LANE
            else if Touches(t, key) then TickLane(LaneOf(lanes, key), t, key)
            else LaneOf(lanes, key)
  {
  }

  /** While the process lives nothing is lost, repeated or reordered: what finished, runs and waits is what arrived. */
  lemma {:induction false} QueueIsFifo(ticks: seq<Tick>, key: Key)
    requires ClockMoves(ticks)
    ensures Accounted(LaneOf(Process(ticks), key)) == Arrived(ticks, key)
  {
    if ticks != [] {
      var last := |ticks| - 1;
      var t, lanes := ticks[last], Process(ticks[..last]);
      QueueIsFifo(ticks[..last], key);
      EmptyIsSerial(Clock(ticks[..last]));
      assert Process(ticks) == TickStep(lanes, t);
      LaneAfter(lanes, t, key);
      if Touches(t, key) {
        TickAccounts(LaneOf(lanes, key), Clock(ticks[..last]), t, key);
      }
    }
  }

  /**
   * However the storage calls of all components interleave, and wherever the process dies and starts again: when
   * nothing of a component is running, its rows and memory are those of a run of whole reports and restarts, one at a
   * time; so they are sound, and tidy unless some report lost the pointer. Those of the reports that finished since the
   * last start are the first that arrived since then, in order.
   */
  lemma InterleavingIsSerial(ticks: seq<Tick>, key: Key)
    requires ClockMoves(ticks)
    ensures var l := LaneOf(Process(ticks), key);
            && Recent(l) <= Arrived(ticks, key)
            && (l.progress.Idle? ==> l.cell == Run(l.finished) && Sound(l.cell, Clock(ticks)))
            && (l.progress.Idle?
                && (forall i | 0 <= i < |l.finished| :: !LosesPointer(Run(l.finished[..i]), l.finished[i]))
                ==> Tidy(l.cell))
  {
    var l := LaneOf(Process(ticks), key);
    QueueIsFifo(ticks, key);
    EmptyIsSerial(Clock(ticks));
    assert Serial(l) && Timely(l, Clock(ticks));
    EveryRunIsSound(l.finished, Clock(ticks));
    if forall i | 0 <= i < |l.finished| :: !LosesPointer(Run(l.finished[..i]), l.finished[i]) {
      EveryRunIsTidy(l.finished);
    }
  }
}
