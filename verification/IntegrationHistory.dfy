/**
 * What the stored incidents mean: while storage calls work, the incidents are the episodes of the
 * reports, read off the list of reports alone.
 */
module IntegrationHistory {
  import opened Texts
  import opened Wrappers
  import opened IntegrationStatus

  predicate IsFailure(e: Event) { e.Call? && e.report.Failed? }
  predicate IsSuccess(e: Event) { e.Call? && e.report.Success? }

  predicate Faultless(events: seq<Event>) {
    forall e | e in events && e.Call? :: e.faults == NO_FAULTS
  }

  // ─── Episodes, from the reports alone ────────────────────

  /** The first success at position j or later, before n; n when there is none. */
  function NextSuccess(events: seq<Event>, j: nat, n: nat): (s: nat)
    requires j <= n <= |events|
    ensures j <= s <= n
    ensures s < n ==> IsSuccess(events[s])
    ensures forall i | j <= i < s :: !IsSuccess(events[i])
    decreases n - j
  {
    if j == n || IsSuccess(events[j]) then j else NextSuccess(events, j + 1, n)
  }

  /** The last failure before n; -1 when there is none. */
  function LastFailure(events: seq<Event>, n: nat): (p: int)
    requires n <= |events|
    ensures -1 <= p < n
    ensures p >= 0 ==> IsFailure(events[p])
    ensures forall i | p < i < n :: !IsFailure(events[i])
  {
    if n == 0 then -1 else if IsFailure(events[n - 1]) then n - 1 else LastFailure(events, n - 1)
  }

  /** The failure at j starts an episode: nothing failed before, or the service had been answering for too long. */
  predicate Opens(events: seq<Event>, j: nat)
    requires j < |events|
  {
    && IsFailure(events[j])
    && var p := LastFailure(events, j);
       p < 0 || (var s := NextSuccess(events, p, j); s < j && events[j].at - events[s].at > REOPEN_WITHIN_MS)
  }

  /** How many episodes started before n. */
  function Opened(events: seq<Event>, n: nat): nat
    requires n <= |events|
  {
    if n == 0 then 0 else Opened(events, n - 1) + if Opens(events, n - 1) then 1 else 0
  }

  /** The failure at j belongs to the given episode. */
  predicate InEpisode(events: seq<Event>, episode: int, j: nat)
    requires j < |events|
  {
    IsFailure(events[j]) && Opened(events, j + 1) == episode + 1
  }

  /** How many failures before n belong to the episode. */
  function Members(events: seq<Event>, episode: int, n: nat): nat
    requires n <= |events|
  {
    if n == 0 then 0 else Members(events, episode, n - 1) + if InEpisode(events, episode, n - 1) then 1 else 0
  }

  /** The first failure of the episode, the one that opened it; -1 when it has not started. */
  function FirstOf(events: seq<Event>, episode: int, n: nat): (j: int)
    requires n <= |events|
    ensures -1 <= j < n
    ensures j >= 0 ==> InEpisode(events, episode, j) && Opens(events, j)
  {
    if n == 0 then -1 else
      if InEpisode(events, episode, n - 1) && Opens(events, n - 1) then n - 1 else FirstOf(events, episode, n - 1)
  }

  /** The last failure of the episode so far. */
  function LastOf(events: seq<Event>, episode: int, n: nat): (j: int)
    requires n <= |events|
    ensures -1 <= j < n
    ensures j >= 0 ==> InEpisode(events, episode, j)
    ensures forall k | j < k < n :: !InEpisode(events, episode, k)
  {
    if n == 0 then -1 else if InEpisode(events, episode, n - 1) then n - 1 else LastOf(events, episode, n - 1)
  }

  predicate BringsSample(f: Failure) { f.sample.Some? && f.sample.value != "" }

  /** The last answer any failure of the episode came with, as long as it is kept; an empty one is none. */
  function LastSample(events: seq<Event>, episode: int, n: nat): Option<string>
    requires n <= |events|
  {
    if n == 0 then None
    else if InEpisode(events, episode, n - 1) && BringsSample(events[n - 1].report.failure)
    then Some(Cut(events[n - 1].report.failure.sample.value, 2000))
    else LastSample(events, episode, n - 1)
  }

  /** When the service first answered after the failure at j. */
  function EndOf(events: seq<Event>, j: nat, n: nat): Option<Time>
    requires j <= n <= |events|
  {
    var s := NextSuccess(events, j, n);
    if s < n then Some(events[s].at) else None
  }

  /** The incident tells its episode: when it started, what it last said, how often it failed, when it ended. */
  predicate Tells(i: Incident, events: seq<Event>, episode: nat, n: nat)
    requires n <= |events|
  {
    var first, last := FirstOf(events, episode, n), LastOf(events, episode, n);
    && 0 <= first <= last
    && i.startedAt == events[first].at
    && i.lastFailureAt == events[last].at
    && (var f := events[last].report.failure;
        i.kind == f.kind && i.httpStatus == f.httpStatus && i.message == Cut(f.message, 500))
    && i.sample == LastSample(events, episode, n)
    && i.failures == Members(events, episode, n)
    && i.endedAt == EndOf(events, last, n)
  }

  /** The incidents are exactly the episodes, in order. */
  predicate Explains(events: seq<Event>, n: nat, incidents: seq<Incident>)
    requires n <= |events|
  {
    && |incidents| == Opened(events, n)
    && forall e {:trigger Tells(incidents[e], events, e, n)} | 0 <= e < |incidents| :: Tells(incidents[e], events, e, n)
  }

  // ─── The machine computes them ───────────────────────────

  lemma {:induction false} NextSuccessExtends(events: seq<Event>, j: nat, n: nat)
    requires j <= n < |events|
    ensures NextSuccess(events, j, n + 1) ==
            if NextSuccess(events, j, n) < n then NextSuccess(events, j, n)
            else if IsSuccess(events[n]) then n else n + 1
    decreases n - j
  {
    if j < n && !IsSuccess(events[j]) {
      NextSuccessExtends(events, j + 1, n);
    }
  }

  lemma {:induction false} NotStarted(events: seq<Event>, episode: nat, n: nat)
    requires n <= |events| && Opened(events, n) <= episode
    ensures Members(events, episode, n) == 0 && LastSample(events, episode, n).None?
    ensures FirstOf(events, episode, n) == LastOf(events, episode, n) == -1
  {
    if n > 0 {
      NotStarted(events, episode, n - 1);
    }
  }

  /** The last failure so far is the last of the last episode. */
  lemma {:induction false} LastFailureIsLast(events: seq<Event>, n: nat)
    requires n <= |events|
    ensures LastFailure(events, n) < 0 <==> Opened(events, n) == 0
    ensures LastFailure(events, n) == LastOf(events, Opened(events, n) - 1, n)
  {
    if n > 0 {
      LastFailureIsLast(events, n - 1);
      NotStarted(events, Opened(events, n - 1), n - 1);
    }
  }

  /** What an event that is not a failure does to the incidents: a success ends the one still open. */
  function AfterQuiet(e: Event, before: seq<Incident>): seq<Incident> {
    if IsSuccess(e) then EndIncident(before, OpenLast(before), e.at) else before
  }

  lemma QuietLeaves(events: seq<Event>, n: nat, i: Incident, episode: nat)
    requires n < |events| && !IsFailure(events[n]) && (IsSuccess(events[n]) ==> i.endedAt.Some?)
    requires Tells(i, events, episode, n)
    ensures Tells(i, events, episode, n + 1)
  {
    NextSuccessExtends(events, LastOf(events, episode, n), n);
  }

  lemma SuccessEnds(events: seq<Event>, n: nat, i: Incident, episode: nat)
    requires n < |events| && IsSuccess(events[n]) && i.endedAt.None?
    requires Tells(i, events, episode, n)
    ensures Tells(i.(endedAt := Some(events[n].at)), events, episode, n + 1)
  {
    NextSuccessExtends(events, LastOf(events, episode, n), n);
  }

  lemma QuietStep(events: seq<Event>, n: nat, before: seq<Incident>)
    requires n < |events| && !IsFailure(events[n])
    requires Explains(events, n, before) && Apart(before)
    ensures Explains(events, n + 1, AfterQuiet(events[n], before))
  {
    var after := AfterQuiet(events[n], before);
    forall e | 0 <= e < |after|
      ensures Tells(after[e], events, e, n + 1)
    {
      assert Tells(before[e], events, e, n);
      if IsSuccess(events[n]) && before[e].endedAt.None? {
        assert e == |before| - 1;
        SuccessEnds(events, n, before[e], e);
      } else {
        QuietLeaves(events, n, before[e], e);
      }
    }
  }

  /** The last incident takes the failure: it is open, or it ended a moment ago. */
  predicate TakesFailure(e: Event, before: seq<Incident>) {
    && before != []
    && (var last := before[|before| - 1];
        last.endedAt.None? || e.at - last.endedAt.value <= REOPEN_WITHIN_MS)
  }

  /** What a failure does to the incidents when they are tidy. */
  function AfterFailure(e: Event, before: seq<Incident>): seq<Incident>
    requires IsFailure(e)
  {
    var f, last := e.report.failure, |before| - 1;
    if TakesFailure(e, before)
    then before[last := AddFailure(before[last], f, e.at).(endedAt := None)]
    else before + [NewIncident(f, e.at)]
  }

  lemma FailureOpens(events: seq<Event>, n: nat, before: seq<Incident>)
    requires n < |events| && IsFailure(events[n])
    requires Explains(events, n, before)
    ensures Opens(events, n) <==> !TakesFailure(events[n], before)
  {
    LastFailureIsLast(events, n);
    if before != [] {
      assert Tells(before[|before| - 1], events, |before| - 1, n);
    }
  }

  lemma FailureLeavesOthers(events: seq<Event>, n: nat, i: Incident, episode: nat)
    requires n < |events| && IsFailure(events[n]) && Opened(events, n + 1) != episode + 1
    requires Tells(i, events, episode, n)
    ensures Tells(i, events, episode, n + 1)
  {
    NextSuccessExtends(events, LastOf(events, episode, n), n);
  }

  lemma FailureJoins(events: seq<Event>, n: nat, i: Incident, episode: nat)
    requires n < |events| && IsFailure(events[n]) && Opened(events, n + 1) == episode + 1 && !Opens(events, n)
    requires Tells(i, events, episode, n)
    ensures Tells(AddFailure(i, events[n].report.failure, events[n].at).(endedAt := None), events, episode, n + 1)
  {
    assert InEpisode(events, episode, n);
    assert FirstOf(events, episode, n + 1) == FirstOf(events, episode, n);
    assert LastOf(events, episode, n + 1) == n;
    assert Members(events, episode, n + 1) == Members(events, episode, n) + 1;
    assert LastSample(events, episode, n + 1) == SampleOf(events[n].report.failure, LastSample(events, episode, n));
    assert EndOf(events, n, n + 1) == None;
  }

  lemma FailureStarts(events: seq<Event>, n: nat)
    requires n < |events| && Opens(events, n)
    ensures Tells(NewIncident(events[n].report.failure, events[n].at), events, Opened(events, n), n + 1)
  {
    NotStarted(events, Opened(events, n), n);
    assert NextSuccess(events, n, n + 1) == n + 1;
  }

  lemma FailureStep(events: seq<Event>, n: nat, before: seq<Incident>)
    requires n < |events| && IsFailure(events[n])
    requires Explains(events, n, before)
    ensures Explains(events, n + 1, AfterFailure(events[n], before))
  {
    var after := AfterFailure(events[n], before);
    FailureOpens(events, n, before);
    forall e | 0 <= e < |after|
      ensures Tells(after[e], events, e, n + 1)
    {
      if e == |before| {
        FailureStarts(events, n);
      } else {
        assert Tells(before[e], events, e, n);
        if Opened(events, n + 1) == e + 1 {
          FailureJoins(events, n, before[e], e);
        } else {
          FailureLeavesOthers(events, n, before[e], e);
        }
      }
    }
  }

  /** The last call before n, leaving restarts out, was a failure. */
  predicate FailingNow(events: seq<Event>, n: nat)
    requires n <= |events|
  {
    n > 0 && if events[n - 1].Restart? then FailingNow(events, n - 1) else events[n - 1].report.Failed?
  }

  /** The last success before n; -1 when there is none. */
  function LastSuccess(events: seq<Event>, n: nat): (s: int)
    requires n <= |events|
    ensures -1 <= s < n
  {
    if n == 0 then -1 else if IsSuccess(events[n - 1]) then n - 1 else LastSuccess(events, n - 1)
  }

  function Stamp(c: Cell): Option<Time> { if c.row.Some? then c.row.value.lastSuccessAt else None }

  /** How far the success stamp may lag behind the last success: less than a minute. */
  predicate StampIsFresh(events: seq<Event>, n: nat, c: Cell)
    requires n <= |events|
  {
    var s := LastSuccess(events, n);
    && (s < 0 <==> Stamp(c).None?)
    && (s >= 0 ==> Stamp(c).value <= events[s].at < Stamp(c).value + SUCCESS_WRITE_EVERY_MS)
  }

  /** The row's last failure is the last failure. */
  predicate FailureIsStamped(events: seq<Event>, n: nat, c: Cell)
    requires n <= |events|
  {
    var p := LastFailure(events, n);
    (if c.row.Some? then c.row.value.lastFailureAt else None) == if p < 0 then None else Some(events[p].at)
  }

  lemma StepStampsFailure(events: seq<Event>, n: nat, c: Cell)
    requires n < |events| && Sound(c, events[n].at) && FailureIsStamped(events, n, c)
    requires events[n].Call? ==> events[n].faults == NO_FAULTS
    ensures FailureIsStamped(events, n + 1, Step(c, events[n]))
  {
  }

  lemma OpenIncidents(c: Cell, e: Event)
    requires Sound(c, e.at) && Tidy(c) && IsFailure(e) && e.faults == NO_FAULTS && Pointer(c).None?
    ensures Step(c, e).incidents == AfterFailure(e, c.incidents) && Pointer(Step(c, e)).Some?
  {
    var n := |c.incidents|;
    assert n > 0 ==> WellTimed(c.incidents[n - 1], e.at);
    var recent := LatestEnded(c.incidents, e.at - REOPEN_WITHIN_MS);
    assert recent.Some? ==> recent.value == n - 1;
  }

  lemma ExtendIncidents(c: Cell, e: Event)
    requires Sound(c, e.at) && Tidy(c) && IsFailure(e) && e.faults == NO_FAULTS && Pointer(c).Some?
    ensures Step(c, e).incidents == AfterFailure(e, c.incidents) && Pointer(Step(c, e)).Some?
  {
  }

  lemma FailureIncidents(c: Cell, e: Event)
    requires Sound(c, e.at) && Tidy(c) && IsFailure(e) && e.faults == NO_FAULTS
    ensures Step(c, e).incidents == AfterFailure(e, c.incidents) && Pointer(Step(c, e)).Some?
  {
    if Pointer(c).None? {
      OpenIncidents(c, e);
    } else {
      ExtendIncidents(c, e);
    }
  }

  lemma QuietIncidents(c: Cell, e: Event)
    requires Sound(c, e.at) && Tidy(c) && !IsFailure(e) && (e.Call? ==> e.faults == NO_FAULTS)
    ensures Step(c, e).incidents == AfterQuiet(e, c.incidents)
    ensures Pointer(Step(c, e)) == if e.Restart? then Pointer(c) else None
  {
  }

  /** One event of a run whose storage calls work, seen from the incidents. */
  lemma StepIncidents(c: Cell, e: Event)
    requires Sound(c, e.at) && Tidy(c)
    requires e.Call? ==> e.faults == NO_FAULTS
    ensures var after := Step(c, e);
            && after.incidents == (if IsFailure(e) then AfterFailure(e, c.incidents) else AfterQuiet(e, c.incidents))
            && (e.Call? ==> (Pointer(after).Some? <==> e.report.Failed?))
            && (e.Restart? ==> Pointer(after) == Pointer(c))
  {
    if IsFailure(e) {
      FailureIncidents(c, e);
    } else {
      QuietIncidents(c, e);
    }
  }

  lemma StampAfter(c: Cell, e: Event)
    requires Sound(c, e.at) && e.at >= SUCCESS_WRITE_EVERY_MS
    requires e.Call? ==> e.faults == NO_FAULTS
    ensures !IsSuccess(e) ==> Stamp(Step(c, e)) == Stamp(c)
    ensures IsSuccess(e) && Stamp(Step(c, e)) != Some(e.at) ==>
              Stamp(Step(c, e)) == Stamp(c) && Stamp(c).Some? && e.at - Stamp(c).value < SUCCESS_WRITE_EVERY_MS
  {
  }

  lemma StepStamp(events: seq<Event>, n: nat, c: Cell)
    requires n < |events| && Sound(c, events[n].at) && StampIsFresh(events, n, c)
    requires events[n].at >= SUCCESS_WRITE_EVERY_MS
    requires LastSuccess(events, n) >= 0 ==> events[LastSuccess(events, n)].at <= events[n].at
    requires events[n].Call? ==> events[n].faults == NO_FAULTS
    ensures StampIsFresh(events, n + 1, Step(c, events[n]))
  {
    StampAfter(c, events[n]);
  }

  lemma StepTells(events: seq<Event>, n: nat, c: Cell)
    requires n < |events| && Sound(c, events[n].at) && Tidy(c) && Explains(events, n, c.incidents)
    requires events[n].Call? ==> events[n].faults == NO_FAULTS
    ensures Explains(events, n + 1, Step(c, events[n]).incidents)
  {
    StepIncidents(c, events[n]);
    if IsFailure(events[n]) {
      FailureStep(events, n, c.incidents);
    } else {
      QuietStep(events, n, c.incidents);
    }
  }

  lemma StepFails(events: seq<Event>, n: nat, c: Cell)
    requires n < |events| && Sound(c, events[n].at) && Tidy(c) && (Pointer(c).Some? <==> FailingNow(events, n))
    requires events[n].Call? ==> events[n].faults == NO_FAULTS
    ensures Pointer(Step(c, events[n])).Some? <==> FailingNow(events, n + 1)
  {
    StepIncidents(c, events[n]);
  }

  /** What the theorem below says of a state after n events. */
  predicate TellsItAll(events: seq<Event>, n: nat, c: Cell)
    requires n <= |events|
  {
    && Tidy(c) && Explains(events, n, c.incidents)
    && (Pointer(c).Some? <==> FailingNow(events, n)) && StampIsFresh(events, n, c) && FailureIsStamped(events, n, c)
  }

  lemma RunIsSoundThen(events: seq<Event>, n: nat)
    requires n < |events| && Ordered(events)
    ensures Sound(Run(events[..n]), events[n].at)
  {
    EveryRunIsSound(events[..n], events[n].at);
  }

  lemma NothingToTell(events: seq<Event>)
    ensures TellsItAll(events, 0, Run(events[..0]))
  {
    assert events[..0] == [];
  }

  lemma RunStep(events: seq<Event>, n: nat)
    requires n < |events|
    ensures Run(events[..n + 1]) == Step(Run(events[..n]), events[n])
  {
    assert events[..n + 1][..n] == events[..n];
  }

  lemma StepTellsItAll(events: seq<Event>, n: nat, c: Cell)
    requires n < |events| && Ordered(events) && Faultless(events) && events[n].at >= SUCCESS_WRITE_EVERY_MS
    requires Sound(c, events[n].at) && TellsItAll(events, n, c)
    ensures TellsItAll(events, n + 1, Step(c, events[n]))
  {
    assert events[n] in events;
    StepKeepsTidy(c, events[n].at, events[n]);
    StepTells(events, n, c);
    StepFails(events, n, c);
    StepStamp(events, n, c);
    StepStampsFailure(events, n, c);
  }

  lemma {:induction false} RunTells(events: seq<Event>, n: nat) returns (c: Cell)
    requires n <= |events| && Ordered(events) && Faultless(events)
    requires forall e | e in events :: e.at >= SUCCESS_WRITE_EVERY_MS
    ensures c == Run(events[..n]) && TellsItAll(events, n, c)
  {
    if n == 0 {
      NothingToTell(events);
      c := Run(events[..0]);
    } else {
      var before := RunTells(events, n - 1);
      c := NextTold(events, n - 1, before);
    }
  }

  lemma NextTold(events: seq<Event>, n: nat, before: Cell) returns (c: Cell)
    requires n < |events| && Ordered(events) && Faultless(events)
    requires forall e | e in events :: e.at >= SUCCESS_WRITE_EVERY_MS
    requires before == Run(events[..n]) && TellsItAll(events, n, before)
    ensures c == Run(events[..n + 1]) && TellsItAll(events, n + 1, c)
  {
    RunIsSoundThen(events, n);
    assert events[n] in events;
    StepTellsItAll(events, n, before);
    RunStep(events, n);
    c := Step(before, events[n]);
  }

  /**
   * Over every run whose storage calls work (the process may restart): the stored incidents are exactly the episodes
   * of the reports, they are disjoint and far apart, the row points to an open incident exactly while the last
   * report is a failure, the row knows when the last one was, and the success stamp lags less than a minute. The clock is past the first minute of 1970.
   */
  lemma EveryRunTellsItsEpisodes(events: seq<Event>, n: nat)
    requires n <= |events| && Ordered(events) && Faultless(events)
    requires forall e | e in events :: e.at >= SUCCESS_WRITE_EVERY_MS
    ensures TellsItAll(events, n, Run(events[..n]))
  {
    var c := RunTells(events, n);
  }
}
