/**
 * One proposal of the assistant: its person's tabs, any number at once, confirm it or cancel it. Each storage call is
 * one step on its row, and running the change is one step that may throw.
 */
module AssistantActions {
  import opened Texts
  import opened Wrappers

  type Time = int

  const PROPOSAL_TTL_MS := 1_800_000
  const ERROR_MAX := 500

  datatype Status = Pending | Confirmed | Cancelled | Failed

  datatype Row = Row(status: Status, expiresAt: Time, executedAt: Option<Time>, summary: Option<string>, error: Option<string>)

  /** What the card says; a pending row past its time reads as expired. */
  datatype View = ViewPending | ViewExpired | ViewConfirmed | ViewCancelled | ViewFailed

  function StatusOf(r: Row, now: Time): View {
    match r.status
    case Pending => if r.expiresAt <= now then ViewExpired else ViewPending
    case Confirmed => ViewConfirmed
    case Cancelled => ViewCancelled
    case Failed => ViewFailed
  }

  /** The card reads pending until the proposal's time is up, then expired, unless somebody settled it. */
  lemma CardReads(r: Row, now: Time)
    ensures StatusOf(r, now).ViewPending? <==> r.status.Pending? && now < r.expiresAt
    ensures StatusOf(r, now).ViewExpired? <==> r.status.Pending? && now >= r.expiresAt
    ensures StatusOf(r, now).ViewConfirmed? <==> r.status.Confirmed?
    ensures StatusOf(r, now).ViewCancelled? <==> r.status.Cancelled?
  {
  }

  /** Where a tab stands: what it asked, with the time it asked, and what it still has to do. */
  datatype Tab =
    | ConfirmAsked(now: Time)
    | ConfirmRead(now: Time)     // it read the proposal pending
    | Claimed(now: Time)         // its conditional update changed the row
    | Ran(now: Time, result: Result)
    | CancelAsked(now: Time)
    | CancelRead(now: Time)      // it read the proposal pending
    | Finished

  datatype Result = Applied(summary: string) | Threw(error: string)

  /** The row, the tabs, and history: when each claim was made, how often the change ran, what its tab ended with. */
  datatype State = State(row: Row, tabs: seq<Tab>, claims: seq<Time>, runs: nat, ended: seq<Result>)

  datatype Event =
    | Confirm(now: Time)
    | Cancel(now: Time)
    | Advance(tab: nat, outcome: Result)   // how the next step ends, where it may throw: running the change, keeping its summary

  function Propose(now: Time): State {
    State(Row(Pending, now + PROPOSAL_TTL_MS, None, None, None), [], [], 0, [])
  }

  function Step(s: State, e: Event): State {
    match e
    case Confirm(now) => s.(tabs := s.tabs + [ConfirmAsked(now)])
    case Cancel(now) => s.(tabs := s.tabs + [CancelAsked(now)])
    case Advance(i, outcome) =>
      if i >= |s.tabs| then s else
        match s.tabs[i]
        case ConfirmAsked(now) =>
          s.(tabs := s.tabs[i := if StatusOf(s.row, now).ViewPending? then ConfirmRead(now) else Finished])
        case ConfirmRead(now) =>
          if s.row.status.Pending? && s.row.expiresAt > now
          then s.(row := s.row.(status := Confirmed, executedAt := Some(now)), tabs := s.tabs[i := Claimed(now)],
                  claims := s.claims + [now])
          else s.(tabs := s.tabs[i := Finished])
        case Claimed(now) => s.(tabs := s.tabs[i := Ran(now, outcome)], runs := s.runs + 1)
        case Ran(now, Applied(summary)) =>
          if outcome.Threw? then s.(tabs := s.tabs[i := Ran(now, outcome)])
          else s.(row := s.row.(summary := Some(summary)), tabs := s.tabs[i := Finished], ended := s.ended + [Applied(summary)])
        case Ran(now, Threw(error)) =>
          s.(row := s.row.(status := Failed, error := Some(Cut(error, ERROR_MAX))), tabs := s.tabs[i := Finished],
             ended := s.ended + [Threw(error)])
        case CancelAsked(now) =>
          s.(tabs := s.tabs[i := if StatusOf(s.row, now).ViewPending? then CancelRead(now) else Finished])
        case CancelRead(now) => s.(row := s.row.(status := Cancelled), tabs := s.tabs[i := Finished])
        case Finished => s
  }

  function Run(s: State, events: seq<Event>): State {
    if events == [] then s else
      var last := |events| - 1;
      Step(Run(s, events[..last]), events[last])
  }

  /** How many steps a tab may still take. */
  function StepsLeft(t: Tab): nat {
    match t
    case ConfirmAsked(_) => 5
    case ConfirmRead(_) => 4
    case Claimed(_) => 3
    case Ran(_, Applied(_)) => 2
    case Ran(_, Threw(_)) => 1
    case CancelAsked(_) => 2
    case CancelRead(_) => 1
    case Finished => 0
  }

  /** A tab always gets nearer its end, leaves the others where they are, and asking too late ends it with nothing done. */
  lemma TabProgresses(s: State, i: nat, outcome: Result)
    requires i < |s.tabs| && !s.tabs[i].Finished?
    ensures var t := Step(s, Advance(i, outcome));
            && |t.tabs| == |s.tabs| && StepsLeft(t.tabs[i]) < StepsLeft(s.tabs[i])
            && (forall k | 0 <= k < |s.tabs| && k != i :: t.tabs[k] == s.tabs[k])
            && (s.tabs[i].ConfirmAsked? || s.tabs[i].CancelAsked? ==>
                  (s.row.status.Pending? && s.tabs[i].now < s.row.expiresAt) || t == s.(tabs := s.tabs[i := Finished]))
            && (s.tabs[i].ConfirmRead? && (t.row != s.row || t.claims != s.claims) ==>
                  s.row.status.Pending? && s.tabs[i].now < s.row.expiresAt)
  {
  }

  // ─── At most once ────────────────────────────────────────

  function ClaimedTabs(tabs: seq<Tab>): nat {
    if tabs == [] then 0 else
      ClaimedTabs(tabs[..|tabs| - 1]) + if tabs[|tabs| - 1].Claimed? then 1 else 0
  }

  lemma {:induction false} ClaimedUpdate(tabs: seq<Tab>, i: nat, t: Tab)
    requires i < |tabs|
    ensures ClaimedTabs(tabs[i := t])
            == ClaimedTabs(tabs) + (if t.Claimed? then 1 else 0) - (if tabs[i].Claimed? then 1 else 0)
  {
    var last := |tabs| - 1;
    if i == last {
      assert tabs[i := t][..last] == tabs[..last];
    } else {
      assert tabs[i := t][..last] == tabs[..last][i := t];
      ClaimedUpdate(tabs[..last], i, t);
    }
  }

  lemma ClaimedAppend(tabs: seq<Tab>, t: Tab)
    ensures ClaimedTabs(tabs + [t]) == ClaimedTabs(tabs) + if t.Claimed? then 1 else 0
  {
    assert (tabs + [t])[..|tabs|] == tabs;
  }

  /** Every claim took a pending proposal in time; each is about to run its change, or ran it, once. */
  predicate Once(s: State) {
    && |s.claims| <= 1
    && (s.claims != [] ==> !s.row.status.Pending? && s.claims[0] < s.row.expiresAt)
    && s.runs + ClaimedTabs(s.tabs) == |s.claims|
  }

  lemma StepKeepsOnce(s: State, e: Event)
    requires Once(s)
    ensures Once(Step(s, e)) && Step(s, e).row.expiresAt == s.row.expiresAt
  {
    var t := Step(s, e);
    match e
    case Confirm(now) => ClaimedAppend(s.tabs, ConfirmAsked(now));
    case Cancel(now) => ClaimedAppend(s.tabs, CancelAsked(now));
    case Advance(i, _) =>
      if i < |s.tabs| {
        ClaimedUpdate(s.tabs, i, t.tabs[i]);
      }
  }

  /**
   * In every interleaving of confirms and cancels by any number of tabs: the change runs at most once, only after a
   * claim, and the claim was for a time before the proposal expired.
   */
  lemma {:induction false} RunsAtMostOnce(proposedAt: Time, events: seq<Event>)
    ensures var s := Run(Propose(proposedAt), events);
            && Once(s)
            && s.runs <= |s.claims| <= 1
            && (s.runs > 0 ==> s.claims[0] < proposedAt + PROPOSAL_TTL_MS)
            && s.row.expiresAt == proposedAt + PROPOSAL_TTL_MS
  {
    if events != [] {
      var last := |events| - 1;
      RunsAtMostOnce(proposedAt, events[..last]);
      StepKeepsOnce(Run(Propose(proposedAt), events[..last]), events[last]);
    }
  }

  // ─── What CANCELLED means ────────────────────────────────

  /** A proposal shown as cancelled never ran, and never will. */
  predicate CancelledIsFinal(s: State) {
    s.row.status.Cancelled? ==> s.claims == []
  }

  /** A cancel that read the proposal pending writes over a claim made since. */
  predicate OverwritesClaim(s: State, e: Event) {
    e.Advance? && e.tab < |s.tabs| && s.tabs[e.tab].CancelRead? && s.claims != []
  }

  /** One step keeps CANCELLED meaning never run exactly when it is not a cancel that overwrites a claim. */
  lemma StepKeepsCancelledFinal(s: State, e: Event)
    requires Once(s) && CancelledIsFinal(s)
    ensures CancelledIsFinal(Step(s, e)) <==> !OverwritesClaim(s, e)
  {
  }

  lemma RunStep(s: State, events: seq<Event>, n: nat)
    requires n < |events|
    ensures Run(s, events[..n + 1]) == Step(Run(s, events[..n]), events[n])
  {
    assert events[..n + 1][..n] == events[..n];
  }

  lemma {:induction false} CancelledStaysFinal(proposedAt: Time, events: seq<Event>, n: nat)
    requires n <= |events|
    requires forall i | 0 <= i < n :: !OverwritesClaim(Run(Propose(proposedAt), events[..i]), events[i])
    ensures CancelledIsFinal(Run(Propose(proposedAt), events[..n]))
  {
    if n > 0 {
      CancelledStaysFinal(proposedAt, events, n - 1);
      RunsAtMostOnce(proposedAt, events[..n - 1]);
      RunStep(Propose(proposedAt), events, n - 1);
      StepKeepsCancelledFinal(Run(Propose(proposedAt), events[..n - 1]), events[n - 1]);
    }
  }

  /**
   * In every interleaving: a proposal shown as cancelled never ran, at any moment, exactly when no cancel that read it
   * pending writes after a claim; and a cancelled one that never ran never does.
   */
  lemma CancelledNeverRanIff(proposedAt: Time, events: seq<Event>)
    ensures (forall n {:trigger events[..n]} | 0 <= n <= |events| :: CancelledIsFinal(Run(Propose(proposedAt), events[..n]))) <==>
            (forall i | 0 <= i < |events| :: !OverwritesClaim(Run(Propose(proposedAt), events[..i]), events[i]))
    ensures var s := Run(Propose(proposedAt), events); CancelledIsFinal(s) && s.row.status.Cancelled? ==> s.runs == 0
  {
    RunsAtMostOnce(proposedAt, events);
    if forall i | 0 <= i < |events| :: !OverwritesClaim(Run(Propose(proposedAt), events[..i]), events[i]) {
      forall n | 0 <= n <= |events|
        ensures CancelledIsFinal(Run(Propose(proposedAt), events[..n]))
      {
        CancelledStaysFinal(proposedAt, events, n);
      }
    } else {
      var i :| 0 <= i < |events| && OverwritesClaim(Run(Propose(proposedAt), events[..i]), events[i]);
      RunsAtMostOnce(proposedAt, events[..i]);
      RunStep(Propose(proposedAt), events, i);
      var s := Run(Propose(proposedAt), events[..i]);
      if CancelledIsFinal(s) {
        StepKeepsCancelledFinal(s, events[i]);
        assert !CancelledIsFinal(Run(Propose(proposedAt), events[..i + 1]));
      }
    }
  }

  /** Where it fails: one tab reads to cancel, another confirms and applies, the first one writes. */
  lemma CancelledAfterRunning(summary: string)
    ensures var asked := Step(Step(Propose(0), Cancel(1)), Confirm(1));
            var read := Step(Step(asked, Advance(0, Applied(summary))), Advance(1, Applied(summary)));
            var ran := Step(Step(read, Advance(1, Applied(summary))), Advance(1, Applied(summary)));
            var written := Step(Step(ran, Advance(1, Applied(summary))), Advance(0, Applied(summary)));
            written.row.status.Cancelled? && written.runs == 1
  {
  }

  // ─── What a finished run shows ───────────────────────────

  /** A tab between its claim and the end of its run. */
  predicate AtWork(t: Tab) { t.Claimed? || t.Ran? }

  /** The tabs at work. */
  function Working(tabs: seq<Tab>): nat {
    if tabs == [] then 0 else
      Working(tabs[..|tabs| - 1]) + if AtWork(tabs[|tabs| - 1]) then 1 else 0
  }

  lemma {:induction false} WorkingUpdate(tabs: seq<Tab>, i: nat, t: Tab)
    requires i < |tabs|
    ensures Working(tabs[i := t]) == Working(tabs) + (if AtWork(t) then 1 else 0) - (if AtWork(tabs[i]) then 1 else 0)
    ensures AtWork(tabs[i]) ==> Working(tabs) > 0
  {
    var last := |tabs| - 1;
    if i == last {
      assert tabs[i := t][..last] == tabs[..last];
    } else {
      assert tabs[i := t][..last] == tabs[..last][i := t];
      WorkingUpdate(tabs[..last], i, t);
    }
  }

  lemma WorkingAppend(tabs: seq<Tab>, t: Tab)
    ensures Working(tabs + [t]) == Working(tabs) + if AtWork(t) then 1 else 0
  {
    assert (tabs + [t])[..|tabs|] == tabs;
  }

  /** What the card reads, with what it keeps of the run. */
  predicate Shows(r: Row, ended: Result) {
    match ended
    case Applied(summary) => StatusOf(r, 0).ViewConfirmed? && r.summary == Some(summary)
    case Threw(error) => StatusOf(r, 0).ViewFailed? && r.error == Some(Cut(error, 500))
  }

  /** While nobody claimed it a proposal is pending or cancelled; a claimed one is at work, or shows how its run ended. */
  predicate ShowsItsRun(s: State) {
    && Working(s.tabs) + |s.ended| == |s.claims| <= 1
    && (s.claims == [] ==> s.row.status.Pending? || s.row.status.Cancelled?)
    && (s.claims != [] ==> s.row.executedAt == Some(s.claims[0]))
    && (s.claims != [] && s.ended == [] ==> s.row.status.Confirmed?)
    && (s.ended != [] ==> Shows(s.row, s.ended[0]))
  }

  lemma AskKeepsShowing(s: State, e: Event)
    requires ShowsItsRun(s) && !e.Advance?
    ensures ShowsItsRun(Step(s, e))
  {
    WorkingAppend(s.tabs, if e.Confirm? then ConfirmAsked(e.now) else CancelAsked(e.now));
  }

  lemma ClaimKeepsShowing(s: State, i: nat, outcome: Result)
    requires Once(s) && ShowsItsRun(s) && i < |s.tabs| && s.tabs[i].ConfirmRead?
    ensures ShowsItsRun(Step(s, Advance(i, outcome)))
  {
    WorkingUpdate(s.tabs, i, Step(s, Advance(i, outcome)).tabs[i]);
  }

  lemma RunKeepsShowing(s: State, i: nat, outcome: Result)
    requires ShowsItsRun(s) && i < |s.tabs| && AtWork(s.tabs[i])
    ensures ShowsItsRun(Step(s, Advance(i, outcome)))
  {
    WorkingUpdate(s.tabs, i, Step(s, Advance(i, outcome)).tabs[i]);
  }

  lemma CancelKeepsShowing(s: State, i: nat, outcome: Result)
    requires ShowsItsRun(s) && i < |s.tabs| && s.tabs[i].CancelRead? && s.claims == []
    ensures ShowsItsRun(Step(s, Advance(i, outcome)))
  {
    WorkingUpdate(s.tabs, i, Finished);
  }

  lemma ReadKeepsShowing(s: State, i: nat, outcome: Result)
    requires ShowsItsRun(s) && i < |s.tabs| && (s.tabs[i].ConfirmAsked? || s.tabs[i].CancelAsked?)
    ensures ShowsItsRun(Step(s, Advance(i, outcome)))
  {
    WorkingUpdate(s.tabs, i, Step(s, Advance(i, outcome)).tabs[i]);
  }

  lemma StepKeepsShowing(s: State, e: Event)
    requires Once(s) && ShowsItsRun(s) && !OverwritesClaim(s, e)
    ensures ShowsItsRun(Step(s, e))
  {
    if !e.Advance? {
      AskKeepsShowing(s, e);
    } else if e.tab < |s.tabs| {
      match s.tabs[e.tab]
      case ConfirmAsked(_) => ReadKeepsShowing(s, e.tab, e.outcome);
      case CancelAsked(_) => ReadKeepsShowing(s, e.tab, e.outcome);
      case ConfirmRead(_) => ClaimKeepsShowing(s, e.tab, e.outcome);
      case Claimed(_) => RunKeepsShowing(s, e.tab, e.outcome);
      case Ran(_, _) => RunKeepsShowing(s, e.tab, e.outcome);
      case CancelRead(_) => CancelKeepsShowing(s, e.tab, e.outcome);
      case Finished =>
    }
  }

  lemma {:induction false} EveryRunShows(proposedAt: Time, events: seq<Event>, n: nat)
    requires n <= |events|
    requires forall i | 0 <= i < n :: !OverwritesClaim(Run(Propose(proposedAt), events[..i]), events[i])
    ensures ShowsItsRun(Run(Propose(proposedAt), events[..n]))
  {
    if n > 0 {
      EveryRunShows(proposedAt, events, n - 1);
      RunsAtMostOnce(proposedAt, events[..n - 1]);
      RunStep(Propose(proposedAt), events, n - 1);
      StepKeepsShowing(Run(Propose(proposedAt), events[..n - 1]), events[n - 1]);
    }
  }

  /**
   * In every interleaving in which no cancel overwrites a claim: once the tab that claimed the proposal has finished, the
   * card reads confirmed exactly when the change and the keeping of its summary succeeded, and failed exactly when one of
   * them threw; before that, it reads confirmed from the claim on.
   */
  lemma FinishedRunShowsHowItEnded(proposedAt: Time, events: seq<Event>, now: Time)
    requires forall i | 0 <= i < |events| :: !OverwritesClaim(Run(Propose(proposedAt), events[..i]), events[i])
    ensures var s := Run(Propose(proposedAt), events);
            var view := StatusOf(s.row, now);
            && (s.claims == [] ==> !view.ViewConfirmed? && !view.ViewFailed?)
            && (s.claims != [] && Working(s.tabs) > 0 ==> view.ViewConfirmed?)
            && (s.claims != [] && Working(s.tabs) == 0 ==>
                  && |s.ended| == 1
                  && (view.ViewConfirmed? <==> s.ended[0].Applied?) && (view.ViewFailed? <==> s.ended[0].Threw?)
                  && Shows(s.row, s.ended[0]))
  {
    assert events[..|events|] == events;
    EveryRunShows(proposedAt, events, |events|);
  }

  /** A run ends with what its own steps brought: the change's outcome, unless keeping its summary threw. */
  lemma RunEndsWithItsOutcome(s: State, i: nat, change: Result, keeping: Result)
    requires i < |s.tabs| && s.tabs[i].Claimed?
    ensures var ran := Step(s, Advance(i, change));
            var kept := Step(ran, Advance(i, keeping));
            && ran.runs == s.runs + 1 && ran.row == s.row && ran.ended == s.ended
            && (change.Threw? ==> kept.ended == s.ended + [change])
            && (change.Applied? && keeping.Applied? ==> kept.ended == s.ended + [change])
            && (change.Applied? && keeping.Threw? ==>
                  kept.ended == s.ended && Step(kept, Advance(i, change)).ended == s.ended + [keeping])
  {
  }

  // ─── Going back on a change ──────────────────────────────

  datatype Json = Scalar(s: string) | Object(fields: map<string, Json>)

  type Payload = map<string, Json>

  const UNDO := "undo"

  /** What a proposal stores: the change and, beside it, what puts back exactly what it replaces. */
  function Stored(payload: Payload, undo: Option<Payload>): Payload {
    if undo.Some? then payload[UNDO := Object(undo.value)] else payload
  }

  /** What the executor gets: the change alone. */
  function Executed(stored: Payload): Payload {
    stored - {UNDO}
  }

  /** The proposal that goes back on an applied one, and can itself be undone; none when there is nothing to go back to. */
  function ProposeUndo(status: Status, stored: Payload): Option<Payload> {
    if status.Confirmed? && UNDO in stored && stored[UNDO].Object? then Some(Stored(stored[UNDO].fields, Some(Executed(stored)))) else None
  }

  /**
   * Going back twice proposes the original change again, to the letter, exactly when the payload that goes back has no
   * field of its own called "undo"; and what runs in between is that payload, less such a field.
   */
  lemma UndoOfUndo(payload: Payload, undo: Payload)
    requires UNDO !in payload
    ensures var stored := Stored(payload, Some(undo));
            && Executed(stored) == payload
            && ProposeUndo(Confirmed, stored).Some?
            && Executed(ProposeUndo(Confirmed, stored).value) == undo - {UNDO}
            && ProposeUndo(Confirmed, ProposeUndo(Confirmed, stored).value).Some?
            && (ProposeUndo(Confirmed, ProposeUndo(Confirmed, stored).value).value == stored <==> UNDO !in undo)
  {
    var stored := Stored(payload, Some(undo));
    assert Executed(stored) == payload;
    var back := ProposeUndo(Confirmed, stored).value;
    assert Executed(back) == undo - {UNDO};
    var again := ProposeUndo(Confirmed, back).value;
    assert again == Stored(payload, Some(undo - {UNDO}));
    assert again[UNDO] == Object(undo - {UNDO}) && stored[UNDO] == Object(undo);
    if UNDO !in undo {
      assert undo - {UNDO} == undo;
    } else {
      assert UNDO in undo && UNDO !in undo - {UNDO};
    }
  }

  // ─── The service, alone with the row ─────────────────────

  /** One tab that asks and takes its steps with nobody else at work. */
  function Alone(row: Row, runs: nat, ask: Event, outcome: Result): State {
    var step := Advance(0, outcome);
    Step(Step(Step(Step(Step(State(row, [], [], runs, []), ask), step), step), step), step)
  }

  class ActionService {
    var row: Row
    var runs: nat

    constructor (now: Time)
      ensures row == Propose(now).row && runs == 0
    {
      row, runs := Row(Pending, now + PROPOSAL_TTL_MS, None, None, None), 0;
    }

    /** Claims the proposal, runs it and keeps what came of it; a proposal that is not pending is a conflict. */
    method ConfirmBy(now: Time, outcome: Result) returns (conflict: bool)
      modifies this
      ensures conflict <==> !(old(row).status.Pending? && now < old(row).expiresAt)
      ensures conflict ==> row == old(row) && runs == old(runs)
      ensures !conflict ==> runs == old(runs) + 1 && row.executedAt == Some(now) && Shows(row, outcome)
      ensures row == Alone(old(row), old(runs), Confirm(now), outcome).row
      ensures runs == Alone(old(row), old(runs), Confirm(now), outcome).runs
    {
      if !StatusOf(row, now).ViewPending? {
        return true;
      }
      row := row.(status := Confirmed, executedAt := Some(now));
      runs := runs + 1;
      conflict := false;
      match outcome
      case Applied(summary) => row := row.(summary := Some(summary));
      case Threw(error) => row := row.(status := Failed, error := Some(Cut(error, ERROR_MAX)));
    }

    method CancelBy(now: Time) returns (view: View)
      modifies this`row
      ensures row == Alone(old(row), runs, Cancel(now), Applied("")).row
      ensures row.status ==
              if old(row).status.Pending? && now < old(row).expiresAt then Cancelled else old(row).status
      ensures view == match row.status
                      case Pending => ViewExpired
                      case Confirmed => ViewConfirmed
                      case Cancelled => ViewCancelled
                      case Failed => ViewFailed
    {
      if !StatusOf(row, now).ViewPending? {
        return StatusOf(row, now);
      }
      row := row.(status := Cancelled);
      view := StatusOf(row, now);
    }
  }
}
