/** The services as they write a conversation's row, its messages and its matters, proved against the steps of a run. */
module ChatService {
  import opened Texts
  import opened Wrappers
  import opened Chat
  import opened ChatRequests

  class ChatRow {
    var status: ChatStatus
    var botPaused: bool
    var assignedToUserId: Option<UserId>
    var handedOverAt: Option<Time>
    var sessionStartedAt: Time
    var lastMessageAt: Option<Time>
    var warnedAt: Option<Time>
    var unreadCount: nat
    var lastReadAt: Option<Time>
    var messages: seq<Message>
    var matters: seq<Matter>
    ghost var sweeps: seq<Time>
    ghost var claims: seq<Time>

    ghost function View(): State
      reads this
    {
      State(Conversation(status, botPaused, assignedToUserId, handedOverAt, sessionStartedAt, lastMessageAt, warnedAt,
                         unreadCount, lastReadAt),
            messages, matters, sweeps, claims)
    }

    constructor (now: Time)
      ensures View() == NewChat(now)
    {
      status, botPaused, assignedToUserId, handedOverAt := Opened, false, None, None;
      sessionStartedAt, lastMessageAt, warnedAt, unreadCount, lastReadAt := now, None, None, 0, None;
      messages, matters, sweeps, claims := [], [], [], [];
    }

    /** The second half of opening the thread: the first half fetched it at `readAt`. */
    method ClearUnreadUpTo(readAt: Time, now: Time)
      modifies this`unreadCount, this`lastReadAt
      ensures View() == Step(old(View()), ClearUnread(readAt, now))
    {
      if lastMessageAt.None? || lastMessageAt.value <= readAt {
        unreadCount := 0;
        lastReadAt := Some(readAt);
      }
    }

    /** Compare and set: only succeeds when nobody has the chat. */
    method TakeoverBy(user: UserId, now: Time) returns (count: nat)
      modifies this
      ensures View() == Step(old(View()), Takeover(user, now))
      ensures count == if old(assignedToUserId).None? then 1 else 0
    {
      if assignedToUserId.Some? {
        return 0;
      }
      botPaused := true;
      assignedToUserId := Some(user);
      handedOverAt := Some(now);
      status := Waiting;
      count := 1;
    }

    method ResolveAnsweredMatters(now: Time)
      modifies this`matters
      ensures View() == Step(old(View()), ResolveAnswered(now))
    {
      matters := MapMatters(matters, m => ResolveMatter(m, now));
    }

    method MarkConversationAnswered(answeredAt: Time, now: Time)
      modifies this`matters
      ensures View() == Step(old(View()), MarkAnswered(answeredAt, now))
    {
      matters := MapMatters(matters, m => MarkMatter(m, answeredAt));
    }

    method HandBack()
      modifies this`botPaused, this`assignedToUserId, this`handedOverAt, this`status
      ensures View() == old(View()).(chat := RELEASED(old(View()).chat))
    {
      botPaused := false;
      assignedToUserId := None;
      handedOverAt := None;
      status := Opened;
    }

    /** Does nothing to a chat given back meanwhile. */
    method AutoReleaseToBot(now: Time) returns (done: bool)
      modifies this
      ensures done <==> old(botPaused)
      ensures View() == if done then Step(Step(old(View()), AutoRelease(now)), ResolveAnswered(now)) else old(View())
    {
      if !botPaused {
        return false;
      }
      HandBack();
      ResolveAnsweredMatters(now);
      done := true;
    }

    /** The transaction of a message sent from the phone app: the chat is a person's from now on. */
    method StoreEcho(now: Time)
      modifies this
      ensures View() == Step(old(View()), Echo(old(botPaused), now))
    {
      if !botPaused {
        handedOverAt := Some(now);
      }
      messages := messages + [Message(App, now, false)];
      lastMessageAt, warnedAt := Some(now), None;
      botPaused, status := true, Opened;
    }

    /** A message sent from the phone app, once per wamid, and then its matters: marked as of the marking. */
    method RecordAgentEcho(duplicate: bool, now: Time, markedAt: Time)
      modifies this
      ensures View() == if duplicate then old(View())
                        else Step(Step(old(View()), Echo(old(botPaused), now)), MarkAnswered(markedAt, markedAt))
    {
      if duplicate {
        return;
      }
      StoreEcho(now);
      MarkConversationAnswered(markedAt, markedAt);
    }

    /** Joins the text to the open request it is about; false when there is none, or when a call threw. */
    method JoinOpenHandoff(body: Option<string>, category: Category, now: Time, calls: Calls) returns (settled: bool)
      modifies this`matters
      ensures (View(), settled) == AfterJoin(old(View()), body, category, now, calls)
    {
      if calls.find.Threw() {
        return false;
      }
      var open := LatestOpen(matters, now - HANDOFF_JOIN_WINDOW_MS);
      if open.None? || !Compatible(matters[open.value].category, category) {
        return false;
      }
      var m := matters[open.value];
      if !Adds(m, body) {
        return true;
      }
      if calls.update.Applied() {
        matters := matters[open.value := Joined(m, m, category, body.value, now)];
      }
      settled := !calls.update.Threw();
    }

    /** The customer asks for the office: an exact repeat changes nothing, an addition joins the open request. */
    method RecordHandoffOf(body: Option<string>, category: Category, now: Time, calls: Calls)
      modifies this`matters
      ensures View() == AfterHandoff(old(View()), body, category, now, calls)
    {
      if !calls.repeat.Threw() && exists m | m in matters :: OpenHandoff(m) && m.body == body {
        return;
      }
      var settled := JoinOpenHandoff(body, category, now, calls);
      if !settled && calls.create.Applied() {
        matters := matters + [Matter(Handoff, category, Pending, None, now, body, None)];
      }
    }
  }
}
