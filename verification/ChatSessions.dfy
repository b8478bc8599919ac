/** What the steps of a chat do to its session and to who has it. */
module ChatSessions {
  import opened Wrappers
  import opened Chat
  import opened ChatActivity

  // ─── Sessions ────────────────────────────────────────────

  /**
   * In every run without resets: a message arriving starts a new session exactly when somebody wrote before and nobody
   * within the timeout, and leaves everything else alone.
   */
  lemma SessionStartsIff(start: Time, events: seq<Event>, timeout: Time, now: Time)
    requires InOrder(events) && (forall e | e in events :: start <= e.now) && NoReset(events)
    ensures var s := Run(NewChat(start), events);
            var t := Step(s, OpenSession(timeout, now));
            && t == s.(chat := s.chat.(sessionStartedAt := t.chat.sessionStartedAt))
            && t.chat.sessionStartedAt == (if (exists m | m in s.messages :: !m.kept) && !WrittenAfter(s, now - timeout - 1)
                                           then now else s.chat.sessionStartedAt)
  {
    var s := Run(NewChat(start), events);
    StampIsLastActivity(start, events, now - timeout - 1);
    EveryRunIsStampedOnce(start, events);
    EveryRunRemembers(start, events);
    EveryRunIsHeld(start, events);
    if s.chat.lastMessageAt.Some? {
      var m :| m in s.messages && !m.kept && s.chat.lastMessageAt.value <= m.at <= s.chat.lastMessageAt.value;
    }
  }

  /** A chat closed before, which no step here does, opens again when somebody writes; any other is as open as it was. */
  lemma ArrivalReopens(s: State, timeout: Time, now: Time)
    ensures !Step(s, OpenSession(timeout, now)).chat.status.Closed?
    ensures !s.chat.status.Closed? ==> Step(s, OpenSession(timeout, now)).chat.status == s.chat.status
    ensures s.chat.status.Closed? ==> Step(s, OpenSession(timeout, now)).chat.status.Opened?
  {
  }

  /**
   * A reset starts the session over: no goodbye is due, even if one was claimed a silence of the office's next words is,
   * the next message starts no other session, and the rest stays.
   */
  lemma ResetStartsOver(s: State, now: Time, later: Time, timeout: Time)
    ensures var t := Step(s, ResetSession(now));
            && t.messages == s.messages && t.matters == s.matters && t.claims == s.claims
            && t.chat.botPaused == s.chat.botPaused && t.chat.assignedTo == s.chat.assignedTo
            && t.chat.handedOverAt == s.chat.handedOverAt && t.chat.unreadCount == s.chat.unreadCount
            && t.chat.sessionStartedAt == now
            && Step(t, OpenSession(timeout, later)).chat.sessionStartedAt == now
            && Step(t, SweepFind(timeout, true, later)) == t
            && (timeout >= 0 ==>
                  Step(Step(t, AgentReply(later)), SweepFind(timeout, true, later + timeout)).sweeps == s.sweeps + [later + timeout])
  {
  }

  // ─── Who has the chat ────────────────────────────────────

  /** With the bot, as a new chat is: nobody has it and nothing waits. */
  predicate WithTheBot(c: Conversation) {
    !c.botPaused && c.assignedTo.None? && c.handedOverAt.None? && c.status.Opened?
  }

  /** A takeover holds the chat for its person from then on, and giving it back undoes it to the letter. */
  lemma TakeoverIsUndone(s: State, user: UserId, at: Time, now: Time)
    requires s.chat.assignedTo.None?
    ensures var taken := Step(s, Takeover(user, at));
            && taken.chat.assignedTo == Some(user) && taken.chat.botPaused && taken.chat.handedOverAt == Some(at)
            && taken.chat.status.Waiting? && taken.messages == s.messages && taken.matters == s.matters
            && taken.chat.unreadCount == s.chat.unreadCount
            && WithTheBot(Step(taken, Release(now)).chat)
            && Step(taken, AutoRelease(now)) == Step(taken, Release(now))
            && (WithTheBot(s.chat) ==> Step(taken, Release(now)) == s)
  {
  }

  /** The sweep gives back what is paused by then, as a person would, and touches nothing else. */
  lemma AutoReleaseIff(s: State, now: Time)
    ensures s.chat.botPaused ==> Step(s, AutoRelease(now)) == Step(s, Release(now))
                                 && WithTheBot(Step(s, AutoRelease(now)).chat)
    ensures !s.chat.botPaused ==> Step(s, AutoRelease(now)) == s
  {
  }

  /** The first message from the phone since the chat was the bot's stamps the handover; a later one leaves the stamp. */
  lemma EchoHolds(s: State, now: Time)
    ensures var t := Step(s, Echo(s.chat.botPaused, now));
            && t.chat.botPaused && t.chat.status.Opened? && t.chat.assignedTo == s.chat.assignedTo
            && t.chat.handedOverAt == (if s.chat.botPaused then s.chat.handedOverAt else Some(now))
            && t.chat.unreadCount == s.chat.unreadCount && t.matters == s.matters
  {
  }

  /** A waiting chat is held by somebody; one that is not paused is the bot's. */
  predicate Held(c: Conversation) {
    && !c.status.Closed?
    && (c.status.Waiting? ==> c.botPaused && c.assignedTo.Some?)
    && (!c.botPaused ==> WithTheBot(c))
  }

  lemma StepKeepsHeld(s: State, e: Event)
    requires Held(s.chat)
    ensures Held(Step(s, e).chat)
  {
  }

  lemma {:induction false} EveryRunIsHeld(start: Time, events: seq<Event>)
    ensures Held(Run(NewChat(start), events).chat)
  {
    if events != [] {
      EveryRunIsHeld(start, events[..|events| - 1]);
      StepKeepsHeld(Run(NewChat(start), events[..|events| - 1]), events[|events| - 1]);
    }
  }
}
