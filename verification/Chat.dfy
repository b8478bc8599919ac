/**
 * One conversation and its matters, stepped by the customer, the bot, the panel, the phone app and the sweeps.
 * Every step is one storage statement or transaction; an operation of several statements is several steps, and
 * what it read in an earlier one travels in the event, so any interleaving of operations is a run.
 */
module Chat {
  import opened Wrappers

  type Time = int
  type UserId = nat

  // Later texts of the customer go into a request opened less than a day ago.
  const HANDOFF_JOIN_WINDOW_MS := 86_400_000

  /** Who wrote a message: the customer, the bot, an agent in the panel, an employee in the phone app. */
  datatype Writer = Customer | Bot | Agent | App {
    predicate Office() { Agent? || App? }
  }

  /** A stored message; a kept one (the goodbye that closes an idle chat) is not activity. */
  datatype Message = Message(writer: Writer, at: Time, kept: bool)

  datatype ChatStatus = Opened | Waiting | Closed

  datatype Conversation = Conversation(
    status: ChatStatus, botPaused: bool, assignedTo: Option<UserId>, handedOverAt: Option<Time>,
    sessionStartedAt: Time, lastMessageAt: Option<Time>, warnedAt: Option<Time>,
    unreadCount: nat, lastReadAt: Option<Time>)

  datatype MatterKind = Handoff | Cancellation | Quote {
    // A quote is settled elsewhere; the others by what the office writes in the chat.
    predicate OfChat() { !Quote? }
  }
  datatype MatterStatus = Pending | InProgress | Resolved
  datatype Category = Leaving | Payments | Pricing | Claims | Papers | Other

  /** A matter. `movedAt` is history: when somebody last set its status by hand. */
  datatype Matter = Matter(
    kind: MatterKind, category: Category, status: MatterStatus, resolvedAt: Option<Time>,
    createdAt: Time, body: Option<string>, movedAt: Option<Time>)

  /** `sweeps` are the inactivity sweeps that selected this chat and have not claimed it yet; `claims` is history. */
  datatype State = State(
    chat: Conversation, messages: seq<Message>, matters: seq<Matter>, sweeps: seq<Time>, claims: seq<Time>)

  function NewChat(now: Time): State {
    State(Conversation(Opened, false, None, None, now, None, None, 0, None), [], [], [], [])
  }

  datatype Event =
    | SaveMessage(writer: Writer, kept: bool, now: Time)     // from the bot's webhook: Customer or Bot
    | OpenSession(timeout: Time, now: Time)
    | ResetSession(now: Time)
    | ClearUnread(readAt: Time, now: Time)                   // the thread was fetched at readAt
    | Takeover(user: UserId, now: Time)
    | Release(now: Time)
    | AutoRelease(now: Time)
    | AgentReply(now: Time)
    | Echo(wasPaused: bool, now: Time)                       // botPaused as read before the transaction
    | MarkAnswered(answeredAt: Time, now: Time)
    | ResolveAnswered(now: Time)
    | CreateMatter(kind: MatterKind, category: Category, body: Option<string>, now: Time)
    | JoinMatter(id: nat, seen: Matter, category: Category, text: string, now: Time)   // `seen` as read before
    | MoveMatter(id: nat, newCategory: Option<Category>, newStatus: Option<MatterStatus>, now: Time)   // what the office set by hand
    | Requote(id: nat, text: string, now: Time)
    | SweepFind(timeout: Time, reachable: bool, now: Time)   // reachable: it has a number whose bot is on
    | SweepClaim(sweep: nat, now: Time)                      // of those that found the chat, whichever claims it now

  function MarkMatter(m: Matter, answeredAt: Time): Matter {
    if m.kind.OfChat() && m.status.Pending? && m.createdAt <= answeredAt then m.(status := InProgress) else m
  }

  function ResolveMatter(m: Matter, now: Time): Matter {
    if m.kind.OfChat() && m.status.InProgress? then m.(status := Resolved, resolvedAt := Some(now)) else m
  }

  function JoinedBody(seen: Option<string>, body: string): string {
    if seen.Some? && seen.value != "" then seen.value + "\n\n" + body else body
  }

  /** The row a joined text writes: everything it takes from the matter is what was read before. */
  function Joined(m: Matter, seen: Matter, category: Category, body: string, now: Time): Matter {
    m.(body := Some(JoinedBody(seen.body, body)),
       category := if seen.category.Other? then category else seen.category,
       status := Pending, createdAt := now)
  }

  /** A status set by hand carries its date, or clears it; one left as it was leaves the dates too. */
  function MovedMatter(m: Matter, category: Option<Category>, status: Option<MatterStatus>, now: Time): Matter {
    var sorted := m.(category := category.GetOr(m.category));
    if status.None? then sorted else
      sorted.(status := status.value, resolvedAt := if status.value.Resolved? then Some(now) else None, movedAt := Some(now))
  }

  function MapMatters(matters: seq<Matter>, f: Matter -> Matter): (r: seq<Matter>)
    ensures |r| == |matters| && forall i | 0 <= i < |matters| :: r[i] == f(matters[i])
  {
    seq(|matters|, i requires 0 <= i < |matters| => f(matters[i]))
  }

  function Idle(c: Conversation, timeout: Time, now: Time): bool {
    c.warnedAt.None? && c.lastMessageAt.Some? && c.lastMessageAt.value <= now - timeout
  }

  const RELEASED := (c: Conversation) => c.(botPaused := false, assignedTo := None, handedOverAt := None, status := Opened)

  function Step(s: State, e: Event): State {
    var c := s.chat;
    match e
    case SaveMessage(w, kept, now) =>
      var saved := s.(messages := s.messages + [Message(w, now, kept)]);
      if kept then saved else
        saved.(chat := c.(lastMessageAt := Some(now), warnedAt := None,
                          unreadCount := c.unreadCount + if w.Customer? then 1 else 0))
    case OpenSession(timeout, now) =>
      var newSession := c.lastMessageAt.Some? && now - c.lastMessageAt.value > timeout;
      s.(chat := c.(sessionStartedAt := if newSession then now else c.sessionStartedAt,
                    status := if c.status.Closed? then Opened else c.status))
    case ResetSession(now) => s.(chat := c.(sessionStartedAt := now, lastMessageAt := None, warnedAt := None))
    case ClearUnread(readAt, _) =>
      if c.lastMessageAt.Some? && c.lastMessageAt.value > readAt then s else
        s.(chat := c.(unreadCount := 0, lastReadAt := Some(readAt)))
    case Takeover(user, now) =>
      if c.assignedTo.Some? then s else
        s.(chat := c.(botPaused := true, assignedTo := Some(user), handedOverAt := Some(now), status := Waiting))
    case Release(_) => s.(chat := RELEASED(c))
    case AutoRelease(_) => if c.botPaused then s.(chat := RELEASED(c)) else s
    case AgentReply(now) =>
      s.(messages := s.messages + [Message(Agent, now, false)], chat := c.(lastMessageAt := Some(now)))
    case Echo(wasPaused, now) =>
      s.(messages := s.messages + [Message(App, now, false)],
         chat := c.(lastMessageAt := Some(now), warnedAt := None, botPaused := true, status := Opened,
                    handedOverAt := if wasPaused then c.handedOverAt else Some(now)))
    case MarkAnswered(answeredAt, _) => s.(matters := MapMatters(s.matters, m => MarkMatter(m, answeredAt)))
    case ResolveAnswered(now) => s.(matters := MapMatters(s.matters, m => ResolveMatter(m, now)))
    case CreateMatter(kind, category, body, now) =>
      s.(matters := s.matters + [Matter(kind, category, Pending, None, now, body, None)])
    case JoinMatter(id, seen, category, text, now) =>
      if id >= |s.matters| || !s.matters[id].kind.Handoff? then s else
        s.(matters := s.matters[id := Joined(s.matters[id], seen, category, text, now)])
    case MoveMatter(id, category, status, now) =>
      if id >= |s.matters| then s else
        s.(matters := s.matters[id := MovedMatter(s.matters[id], category, status, now)])
    case Requote(id, text, now) =>
      if id >= |s.matters| || !s.matters[id].kind.Quote? then s else
        s.(matters := s.matters[id := s.matters[id].(
             body := Some(text), status := Pending, resolvedAt := None, createdAt := now)])
    case SweepFind(timeout, reachable, now) =>
      if reachable && Idle(c, timeout, now) then s.(sweeps := s.sweeps + [now]) else s
    case SweepClaim(k, now) =>
      if k >= |s.sweeps| then s else
        s.(chat := c.(warnedAt := Some(now)), sweeps := s.sweeps[..k] + s.sweeps[k + 1..], claims := s.claims + [now])
  }

  function Run(s: State, events: seq<Event>): State {
    if events == [] then s else
      var last := |events| - 1;
      Step(Run(s, events[..last]), events[last])
  }

  predicate InOrder(events: seq<Event>) {
    forall i, j | 0 <= i < j < |events| :: events[i].now <= events[j].now
  }

  /** No two steps at the same instant. */
  predicate StrictClock(events: seq<Event>) {
    forall i, j | 0 <= i < j < |events| :: events[i].now < events[j].now
  }

  function Clock(start: Time, events: seq<Event>): Time {
    if events == [] then start else events[|events| - 1].now
  }

  lemma NothingAfterClock(start: Time, events: seq<Event>)
    requires InOrder(events) && forall e | e in events :: start <= e.now
    ensures forall e | e in events :: e.now <= Clock(start, events)
    ensures events != [] ==> Clock(start, events[..|events| - 1]) <= events[|events| - 1].now
  {
    forall e | e in events
      ensures e.now <= Clock(start, events)
    {
      var i :| 0 <= i < |events| && events[i] == e;
      assert i < |events| - 1 ==> events[i].now <= events[|events| - 1].now;
    }
  }

  lemma RunStep(s: State, events: seq<Event>, n: nat)
    requires n < |events|
    ensures Run(s, events[..n + 1]) == Step(Run(s, events[..n]), events[n])
  {
    assert events[..n + 1][..n] == events[..n];
  }

  /** Somebody of the office writes, from the panel or from the phone. */
  predicate OfficeWrites(e: Event) { e.AgentReply? || e.Echo? || (e.SaveMessage? && e.writer.Office()) }

  function OfficeMessage(e: Event): (m: Message)
    requires OfficeWrites(e)
    ensures m.writer.Office() && m.at == e.now
  {
    match e
    case AgentReply(now) => Message(Agent, now, false)
    case Echo(_, now) => Message(App, now, false)
    case SaveMessage(writer, kept, now) => Message(writer, now, kept)
  }

  /** What a step stores. */
  function Said(e: Event): seq<Message> {
    match e
    case SaveMessage(writer, kept, now) => [Message(writer, now, kept)]
    case AgentReply(now) => [Message(Agent, now, false)]
    case Echo(_, now) => [Message(App, now, false)]
    case _ => []
  }

  lemma StepSays(s: State, e: Event)
    ensures Step(s, e).messages == s.messages + Said(e)
  {
  }

  lemma MessageStays(s: State, events: seq<Event>, m: Message, i: nat)
    requires i < |events|
    requires m in Run(s, events[..i]).messages || (OfficeWrites(events[i]) && m == OfficeMessage(events[i]))
    ensures m in Run(s, events[..i + 1]).messages
  {
    RunStep(s, events, i);
    StepSays(Run(s, events[..i]), events[i]);
  }

  /** What the office wrote stays stored. */
  lemma {:induction false} ReplyIsStored(s: State, events: seq<Event>, j: nat, i: nat)
    requires j < i <= |events| && OfficeWrites(events[j])
    ensures OfficeMessage(events[j]) in Run(s, events[..i]).messages
    decreases i
  {
    if j < i - 1 {
      ReplyIsStored(s, events, j, i - 1);
    }
    MessageStays(s, events, OfficeMessage(events[j]), i - 1);
  }
}
