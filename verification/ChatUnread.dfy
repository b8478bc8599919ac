/** The unread counter of a chat: opening the thread clears it, unless a message landed after the fetch. */
module ChatUnread {
  import opened Wrappers
  import opened Chat
  import opened ChatActivity

  predicate FromCustomer(m: Message) { m.writer.Customer? && !m.kept }

  /** The customer messages newer than `since`; all of them when the thread was never opened. */
  function Newer(messages: seq<Message>, since: Option<Time>): nat {
    if messages == [] then 0 else
      var last := messages[|messages| - 1];
      Newer(messages[..|messages| - 1], since)
      + if FromCustomer(last) && (since.None? || since.value < last.at) then 1 else 0
  }

  lemma {:induction false} NoneNewer(messages: seq<Message>, since: Time)
    ensures Newer(messages, Some(since)) == 0 <==> forall m | m in messages && FromCustomer(m) :: m.at <= since
  {
    if messages != [] {
      var last := |messages| - 1;
      NoneNewer(messages[..last], since);
      assert messages == messages[..last] + [messages[last]];
    }
  }

  /** What opening the thread at a time leaves when it clears. */
  function ReadUpTo(s: State, readAt: Time): State {
    s.(chat := s.chat.(unreadCount := 0, lastReadAt := Some(readAt)))
  }

  /**
   * In every run without resets: opening the thread clears the counter and keeps when it was read exactly when nothing
   * was written after that, and otherwise changes nothing.
   */
  lemma OpeningClearsIff(start: Time, events: seq<Event>, readAt: Time, now: Time)
    requires InOrder(events) && (forall e | e in events :: start <= e.now) && NoReset(events)
    ensures var s := Run(NewChat(start), events);
            Step(s, ClearUnread(readAt, now)) ==
            if WrittenAfter(s, readAt) then s else ReadUpTo(s, readAt)
  {
    StampIsLastActivity(start, events, readAt);
  }

  /**
   * In every reachable state, resets included: while a customer message newer than the fetch is stored, the clear
   * drops it exactly when lastMessageAt is null, which only a reset after the message leaves so.
   */
  lemma ClearDropsOnlyAfterReset(start: Time, events: seq<Event>, readAt: Time, now: Time)
    requires InOrder(events) && forall e | e in events :: start <= e.now
    requires Newer(Run(NewChat(start), events).messages, Some(readAt)) > 0
    ensures var s := Run(NewChat(start), events);
            Step(s, ClearUnread(readAt, now)) == if s.chat.lastMessageAt.None? then ReadUpTo(s, readAt) else s
  {
    EveryRunIsStamped(start, events);
    NoneNewer(Run(NewChat(start), events).messages, readAt);
  }

  /** The counter counts what was saved since the last effective clear. */
  predicate Counts(s: State) {
    s.chat.unreadCount == Newer(s.messages, s.chat.lastReadAt)
  }

  // Without a reset, a chat with no stamp has no customer message.
  predicate NeverReset(s: State) {
    s.chat.lastMessageAt.None? ==> forall m | m in s.messages :: !FromCustomer(m)
  }

  lemma NewerAppend(messages: seq<Message>, m: Message, since: Option<Time>)
    ensures Newer(messages + [m], since)
            == Newer(messages, since) + if FromCustomer(m) && (since.None? || since.value < m.at) then 1 else 0
  {
    assert (messages + [m])[..|messages|] == messages;
  }

  predicate Stores(e: Event) { e.SaveMessage? || e.AgentReply? || e.Echo? }

  lemma StoredMessage(s: State, e: Event) returns (m: Message)
    requires Stores(e)
    ensures Step(s, e).messages == s.messages + [m] && m.at == e.now
    ensures Step(s, e).chat.unreadCount == s.chat.unreadCount + if FromCustomer(m) then 1 else 0
    ensures Step(s, e).chat.lastReadAt == s.chat.lastReadAt
    ensures Step(s, e).chat.lastMessageAt.None? ==> s.chat.lastMessageAt.None? && !FromCustomer(m)
  {
    m := Step(s, e).messages[|s.messages|];
  }

  lemma MessageCounts(s: State, e: Event)
    requires Counts(s) && NeverReset(s) && Stores(e)
    requires s.chat.lastReadAt.Some? ==> s.chat.lastReadAt.value < e.now
    ensures Counts(Step(s, e)) && NeverReset(Step(s, e)) && Step(s, e).chat.lastReadAt == s.chat.lastReadAt
  {
    var m := StoredMessage(s, e);
    NewerAppend(s.messages, m, s.chat.lastReadAt);
  }

  lemma ClearCounts(s: State, before: Time, e: Event)
    requires Stamped(s, before) && Counts(s) && NeverReset(s) && e.ClearUnread?
    ensures Counts(Step(s, e)) && NeverReset(Step(s, e))
    ensures Step(s, e).chat.lastReadAt == s.chat.lastReadAt || Step(s, e).chat.lastReadAt == Some(e.readAt)
  {
    NoneNewer(s.messages, e.readAt);
  }

  lemma OthersCount(s: State, e: Event)
    requires Counts(s) && NeverReset(s) && !e.ResetSession? && !e.ClearUnread? && !Stores(e)
    ensures Counts(Step(s, e)) && NeverReset(Step(s, e)) && Step(s, e).chat.lastReadAt == s.chat.lastReadAt
  {
  }

  lemma StepKeepsCounts(s: State, before: Time, e: Event)
    requires Stamped(s, before) && Counts(s) && NeverReset(s)
    requires before < e.now && (s.chat.lastReadAt.Some? ==> s.chat.lastReadAt.value < e.now)
    requires !e.ResetSession? && (e.ClearUnread? ==> e.readAt < e.now)
    ensures var t := Step(s, e);
            && Counts(t) && NeverReset(t)
            && (t.chat.lastReadAt.Some? ==> t.chat.lastReadAt.value < e.now)
  {
    if Stores(e) {
      MessageCounts(s, e);
    } else if e.ClearUnread? {
      ClearCounts(s, before, e);
    } else {
      OthersCount(s, e);
    }
  }

  /** What the fetches of a run are: taken before the clear they lead to. */
  predicate FetchesFirst(events: seq<Event>) {
    forall e | e in events && e.ClearUnread? :: e.readAt < e.now
  }

  lemma ClearReads(s: State, clock: Time, readAt: Time, now: Time)
    requires Stamped(s, clock) && NeverReset(s)
    ensures Step(s, ClearUnread(readAt, now)) != s ==> Newer(s.messages, Some(readAt)) == 0
  {
    NoneNewer(s.messages, readAt);
  }

  /**
   * Over every interleaving of fetches, clears, incoming messages and replies on a strict clock with no reset: the
   * counter is the number of customer messages saved after the last effective clear read the thread, and no clear
   * drops a message newer than its fetch.
   */
  lemma {:induction false} UnreadCountsWhatIsNew(start: Time, events: seq<Event>)
    requires StrictClock(events) && FetchesFirst(events)
    requires forall e | e in events :: start < e.now && !e.ResetSession?
    ensures var s := Run(NewChat(start), events);
            && Counts(s) && NeverReset(s)
            && (s.chat.lastReadAt.Some? ==> s.chat.lastReadAt.value <= Clock(start, events))
            && (forall readAt, now :: Step(s, ClearUnread(readAt, now)) != s ==> Newer(s.messages, Some(readAt)) == 0)
  {
    var s := Run(NewChat(start), events);
    if events != [] {
      var last := |events| - 1;
      var before := Run(NewChat(start), events[..last]);
      UnreadCountsWhatIsNew(start, events[..last]);
      EveryRunIsStamped(start, events[..last]);
      assert events[last] in events;
      StepKeepsCounts(before, Clock(start, events[..last]), events[last]);
    }
    EveryRunIsStamped(start, events);
    forall readAt, now
      ensures Step(s, ClearUnread(readAt, now)) != s ==> Newer(s.messages, Some(readAt)) == 0
    {
      ClearReads(s, Clock(start, events), readAt, now);
    }
  }

  /** With a reset between the fetch and the clear, a message nobody saw stops being counted. */
  lemma ResetLosesAMessage()
    ensures var s := Run(NewChat(0), [SaveMessage(Customer, false, 2), ResetSession(3), ClearUnread(1, 4)]);
            s.chat.unreadCount == 0 && Newer(s.messages, Some(1)) == 1
  {
    var e0, e1, e2 := SaveMessage(Customer, false, 2), ResetSession(3), ClearUnread(1, 4);
    assert [e0, e1, e2][..2] == [e0, e1];
    assert [e0, e1][..1] == [e0];
    assert Run(NewChat(0), [e0]) == Step(NewChat(0), e0);
    NewerAppend([], Message(Customer, 2, false), Some(1));
  }
}
