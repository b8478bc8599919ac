/** The sweep that resumes the bot in the chats whose office side has gone silent. */
module TakeoverTimeout {
  import opened Wrappers
  import opened Chat
  import opened ChatOwnership

  datatype Limits = Limits(operatorIdleMs: Time, quietMs: Time, maxMs: Time)

  datatype Reason = NoTimestamps | OutsideHours | Quiet(ms: Time) | Silent(ms: Time)

  function Later(a: Option<Time>, b: Option<Time>): Option<Time> {
    if a.None? then b else if b.None? then a else if a.value < b.value then b else a
  }

  /** When the last message of the kind was written. */
  function LastWritten(messages: seq<Message>, office: bool): (r: Option<Time>)
    ensures r.Some? ==> exists m | m in messages :: (if office then m.writer.Office() else m.writer.Customer?) && m.at == r.value
    ensures forall m | m in messages && (if office then m.writer.Office() else m.writer.Customer?) ::
              r.Some? && m.at <= r.value
  {
    if messages == [] then None else
      var last := messages[|messages| - 1];
      assert messages == messages[..|messages| - 1] + [last];
      var rest := LastWritten(messages[..|messages| - 1], office);
      if (if office then last.writer.Office() else last.writer.Customer?) then Later(rest, Some(last.at)) else rest
  }

  /** The latest sign of the office: taking the chat over, or writing in it from the panel or the phone. */
  function LastHuman(s: State): Option<Time> {
    Later(s.chat.handedOverAt, LastWritten(s.messages, true))
  }

  function LastCustomer(s: State): Option<Time> {
    LastWritten(s.messages, false)
  }

  /** What the sweep decides, with its reason; none leaves the chat with its person. */
  function ReleaseReason(lastHuman: Option<Time>, lastCustomer: Option<Time>, openNow: bool, now: Time, l: Limits)
    : Option<Reason>
  {
    if lastHuman.None? then Some(NoTimestamps) else
      var operatorIdle := now - lastHuman.value;
      if operatorIdle < l.operatorIdleMs then None
      else if !openNow then Some(OutsideHours)
      else
        var lastAny := if lastCustomer.Some? && lastCustomer.value > lastHuman.value then lastCustomer.value else lastHuman.value;
        var quiet := now - lastAny;
        if quiet >= l.quietMs then Some(Quiet(quiet))
        else if operatorIdle >= l.maxMs then Some(Silent(operatorIdle))
        else None
  }

  /** What the sweep reads says the chat goes back to the bot. */
  predicate Due(s: State, openNow: bool, now: Time, l: Limits) {
    s.chat.botPaused && ReleaseReason(LastHuman(s), LastCustomer(s), openNow, now, l).Some?
  }

  /** The office has been silent since this time: nobody took the chat over or wrote in it after. */
  predicate OfficeSilent(s: State, since: Time) {
    && (s.chat.handedOverAt.Some? ==> s.chat.handedOverAt.value <= since)
    && forall m | m in s.messages && m.writer.Office() :: m.at <= since
  }

  predicate CustomerSilent(s: State, since: Time) {
    forall m | m in s.messages && m.writer.Customer? :: m.at <= since
  }

  /**
   * The office let operatorIdleMs go by in a paused chat; and it is closed now, or nobody at all wrote for quietMs, or the
   * office did not for maxMs.
   */
  predicate Abandoned(s: State, openNow: bool, now: Time, l: Limits) {
    && s.chat.botPaused && OfficeSilent(s, now - l.operatorIdleMs)
    && (|| !openNow
        || (OfficeSilent(s, now - l.quietMs) && CustomerSilent(s, now - l.quietMs))
        || OfficeSilent(s, now - l.maxMs))
  }

  lemma LastHumanIsLatest(s: State, since: Time)
    ensures OfficeSilent(s, since) <==> LastHuman(s).None? || LastHuman(s).value <= since
    ensures CustomerSilent(s, since) <==> LastCustomer(s).None? || LastCustomer(s).value <= since
  {
  }

  /** The sweep is due at a chat, of any state, exactly when the office abandoned it. */
  lemma DueIff(s: State, openNow: bool, now: Time, l: Limits)
    ensures Due(s, openNow, now, l) <==> Abandoned(s, openNow, now, l)
  {
    LastHumanIsLatest(s, now - l.operatorIdleMs);
    LastHumanIsLatest(s, now - l.quietMs);
    LastHumanIsLatest(s, now - l.maxMs);
  }

  /** The sweep's read and write of one chat as a single step. */
  function SweepChat(s: State, openNow: bool, now: Time, l: Limits): State {
    if Due(s, openNow, now, l) then Step(s, AutoRelease(now)) else s
  }

  /** A paused chat of any run has somebody to count the silence from. */
  lemma {:induction false} PausedHasHuman(start: Time, events: seq<Event>)
    ensures var s := Run(NewChat(start), events);
            s.chat.botPaused ==> LastHuman(s).Some?
  {
    EveryRunIsOwned(start, events);
  }

  /**
   * In every reachable state the sweep never gives a chat back before operatorIdleMs of silence of the office, and
   * always does from the larger of operatorIdleMs and maxMs, whatever the hours and whatever the customer wrote.
   */
  lemma SweepWaitsButNotForever(start: Time, events: seq<Event>, openNow: bool, now: Time, l: Limits)
    ensures var s := Run(NewChat(start), events);
            s.chat.botPaused ==>
              && (!SweepChat(s, openNow, now, l).chat.botPaused ==> OfficeSilent(s, now - l.operatorIdleMs))
              && (OfficeSilent(s, now - l.operatorIdleMs) && OfficeSilent(s, now - l.maxMs)
                  ==> !SweepChat(s, openNow, now, l).chat.botPaused)
  {
    DueIff(Run(NewChat(start), events), openNow, now, l);
  }

  /** Whatever the customer wrote, the decision is the one taken without them. */
  ghost predicate IgnoresCustomer(l: Limits) {
    forall human: Time, customer: Option<Time>, openNow: bool, now: Time ::
      ReleaseReason(Some(human), customer, openNow, now, l).Some? <==> ReleaseReason(Some(human), None, openNow, now, l).Some?
  }

  /** With the positive limits the configuration guarantees, that is exactly when another limit makes `maxMs` come first. */
  lemma IgnoresCustomerIff(l: Limits)
    requires l.operatorIdleMs > 0 && l.quietMs > 0 && l.maxMs > 0
    ensures IgnoresCustomer(l) <==> l.maxMs <= l.quietMs || l.maxMs <= l.operatorIdleMs
  {
    if l.operatorIdleMs < l.maxMs && l.quietMs < l.maxMs {
      var now := if l.operatorIdleMs < l.quietMs then l.quietMs else l.operatorIdleMs;
      assert ReleaseReason(Some(0), None, true, now, l).Some?;
      assert ReleaseReason(Some(0), Some(now), true, now, l).None?;
    }
  }

  // ─── The sweep over the whole table ──────────────────────

  /** An abandoned chat is given back and its answered matters resolved; the others are left alone. */
  function Swept(s: State, openNow: bool, now: Time, l: Limits): State {
    if Abandoned(s, openNow, now, l) then Step(Step(s, AutoRelease(now)), ResolveAnswered(now)) else s
  }

  /** A storage call that throws: the chat is untouched, or given back by that very call with its matters as they were. */
  function CutShort(s: State, openNow: bool, now: Time, l: Limits, o: Outcome): State {
    if Abandoned(s, openNow, now, l) && o.Applied() then Step(s, AutoRelease(now)) else s
  }

  /** Where a sweep throws: at which chat, and whether the call that threw took effect. */
  datatype Stop = Stop(chat: nat, outcome: Outcome)

  /** What a sweep leaves of each chat: those before the one it threw at are swept, those after it are not. */
  function AfterSweep(s: State, i: nat, openNow: bool, now: Time, l: Limits, stop: Option<Stop>): State {
    if stop.None? || i < stop.value.chat then Swept(s, openNow, now, l)
    else if i == stop.value.chat then CutShort(s, openNow, now, l, stop.value.outcome)
    else s
  }

  /** How many of the chats were abandoned. */
  function CountDue(states: seq<State>, openNow: seq<bool>, now: Time, l: Limits): nat
    requires |openNow| == |states|
  {
    if states == [] then 0 else
      var last := |states| - 1;
      CountDue(states[..last], openNow[..last], now, l) + if Abandoned(states[last], openNow[last], now, l) then 1 else 0
  }

  lemma CountOneMore(states: seq<State>, openNow: seq<bool>, now: Time, l: Limits, k: nat)
    requires |openNow| == |states| && k < |states|
    ensures CountDue(states[..k + 1], openNow[..k + 1], now, l) ==
            CountDue(states[..k], openNow[..k], now, l) + if Abandoned(states[k], openNow[k], now, l) then 1 else 0
  {
    assert states[..k + 1][..k] == states[..k] && openNow[..k + 1][..k] == openNow[..k];
  }

  class BotTakeoverTimeoutService {
    // The conversations, as the table returns them.
    var conversations: seq<State>
    var running: bool
    const limits: Limits

    constructor (rows: seq<State>, l: Limits)
      ensures conversations == rows && limits == l && !running
    {
      conversations, limits, running := rows, l, false;
    }

    /** Gives back one chat if it is due. */
    method SweepOne(k: nat, openNow: bool, now: Time) returns (done: bool)
      requires k < |conversations|
      modifies this`conversations
      ensures conversations == old(conversations)[k := Swept(old(conversations)[k], openNow, now, limits)]
      ensures done <==> Abandoned(old(conversations)[k], openNow, now, limits)
      ensures conversations[k].chat.botPaused <==> old(conversations)[k].chat.botPaused && !done
      ensures !done ==> conversations == old(conversations)
    {
      var s := conversations[k];
      var lastHuman := Later(s.chat.handedOverAt, LastWritten(s.messages, true));
      var reason := ReleaseReason(lastHuman, LastWritten(s.messages, false), openNow, now, limits);
      done := s.chat.botPaused && reason.Some?;
      DueIff(s, openNow, now, limits);
      if done {
        var released := s.(chat := s.chat.(botPaused := false, assignedTo := None, handedOverAt := None, status := Opened));
        conversations := conversations[k := released.(matters := MapMatters(s.matters, m => ResolveMatter(m, now)))];
      }
    }

    /** A chat at which a storage call throws. */
    method SweepUntilThrow(k: nat, openNow: bool, now: Time, o: Outcome)
      requires k < |conversations|
      modifies this`conversations
      ensures conversations == old(conversations)[k := CutShort(old(conversations)[k], openNow, now, limits, o)]
      ensures !(o.Applied() && Abandoned(old(conversations)[k], openNow, now, limits)) ==> conversations == old(conversations)
      ensures conversations[k].matters == old(conversations)[k].matters
      ensures conversations[k].chat.botPaused <==>
              old(conversations)[k].chat.botPaused && !(o.Applied() && Abandoned(old(conversations)[k], openNow, now, limits))
    {
      var s := conversations[k];
      if o.Applied() && Abandoned(s, openNow, now, limits) {
        conversations := conversations[k := s.(
          chat := s.chat.(botPaused := false, assignedTo := None, handedOverAt := None, status := Opened))];
      }
    }

    /**
     * Gives back every chat that is due and counts them; nothing while another sweep is at work. A storage call that
     * throws ends it there, and then it counts none.
     */
    method ReleaseIdleTakeovers(openNow: seq<bool>, now: Time, stop: Option<Stop>) returns (released: nat)
      requires |openNow| == |conversations|
      requires stop.Some? ==> stop.value.chat < |conversations|
      modifies this`conversations, this`running
      ensures running == old(running) && |conversations| == |old(conversations)|
      ensures old(running) ==> released == 0 && conversations == old(conversations)
      ensures !old(running) ==> forall i | 0 <= i < |conversations| ::
                conversations[i] == AfterSweep(old(conversations)[i], i, openNow[i], now, limits, stop)
      ensures !old(running) && stop.None? ==> forall i | 0 <= i < |conversations| ::
                if Abandoned(old(conversations)[i], openNow[i], now, limits) then !conversations[i].chat.botPaused
                else conversations[i] == old(conversations)[i]
      ensures !old(running) && stop.Some? ==> forall i | stop.value.chat < i < |conversations| ::
                conversations[i] == old(conversations)[i]
      ensures !old(running) ==> released == if stop.None? then CountDue(old(conversations), openNow, now, limits) else 0
    {
      if running {
        return 0;
      }
      running := true;
      released := 0;
      ghost var start := conversations;
      for k := 0 to |conversations|
        invariant running && |conversations| == |start|
        invariant stop.Some? ==> k <= stop.value.chat
        invariant forall i | 0 <= i < k :: conversations[i] == Swept(start[i], openNow[i], now, limits)
        invariant forall i | k <= i < |start| :: conversations[i] == start[i]
        invariant released == CountDue(start[..k], openNow[..k], now, limits)
      {
        if stop.Some? && stop.value.chat == k {
          SweepUntilThrow(k, openNow[k], now, stop.value.outcome);
          running := false;
          return 0;
        }
        var done := SweepOne(k, openNow[k], now);
        released := released + if done then 1 else 0;
        CountOneMore(start, openNow, now, limits, k);
      }
      assert start[..|start|] == start && openNow[..|start|] == openNow;
      running := false;
    }
  }
}
