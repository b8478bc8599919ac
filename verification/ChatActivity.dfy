/** What the row of a chat remembers of its messages: when somebody last wrote. */
module ChatActivity {
  import opened Wrappers
  import opened Chat

  /** A message that counts as activity, written in the given span. */
  predicate WrittenIn(s: State, from: Time, to: Time) {
    exists m | m in s.messages :: !m.kept && from <= m.at <= to
  }

  /** The activity the row remembers is a stored message's. */
  predicate Remembers(s: State) {
    s.chat.lastMessageAt.Some? ==> WrittenIn(s, s.chat.lastMessageAt.value, s.chat.lastMessageAt.value)
  }

  lemma StillWritten(s: State, e: Event, from: Time, to: Time)
    requires WrittenIn(s, from, to)
    ensures WrittenIn(Step(s, e), from, to)
  {
    assert forall m | m in s.messages :: m in Step(s, e).messages;
  }

  lemma WrittenWider(s: State, from: Time, to: Time, from': Time, to': Time)
    requires WrittenIn(s, from, to) && from' <= from && to <= to'
    ensures WrittenIn(s, from', to')
  {
  }

  lemma StepKeepsRemembering(s: State, e: Event)
    requires Remembers(s)
    ensures Remembers(Step(s, e))
  {
    var t := Step(s, e);
    if t.chat.lastMessageAt.Some? {
      if t.chat.lastMessageAt == s.chat.lastMessageAt {
        StillWritten(s, e, s.chat.lastMessageAt.value, s.chat.lastMessageAt.value);
      } else {
        assert t.messages[|s.messages|] in t.messages;
      }
    }
  }

  lemma {:induction false} EveryRunRemembers(start: Time, events: seq<Event>)
    ensures Remembers(Run(NewChat(start), events))
  {
    if events != [] {
      var last := |events| - 1;
      EveryRunRemembers(start, events[..last]);
      StepKeepsRemembering(Run(NewChat(start), events[..last]), events[last]);
    }
  }

  /** Activity is stamped: none is newer than lastMessageAt, unless a reset cleared it. */
  predicate Stamped(s: State, now: Time) {
    && (forall m | m in s.messages :: m.at <= now)
    && (s.chat.lastMessageAt.Some? ==>
          && s.chat.lastMessageAt.value <= now
          && forall m | m in s.messages && !m.kept :: m.at <= s.chat.lastMessageAt.value)
  }

  lemma StepKeepsStamped(s: State, before: Time, e: Event)
    requires Stamped(s, before) && before <= e.now
    ensures Stamped(Step(s, e), e.now)
  {
    var t := Step(s, e);
    forall m | m in t.messages
      ensures m.at <= e.now
      ensures t.chat.lastMessageAt.Some? && !m.kept ==> m.at <= t.chat.lastMessageAt.value
    {
      assert m in s.messages || m == t.messages[|s.messages|];
    }
  }

  lemma {:induction false} EveryRunIsStamped(start: Time, events: seq<Event>)
    requires InOrder(events) && forall e | e in events :: start <= e.now
    ensures Stamped(Run(NewChat(start), events), Clock(start, events))
  {
    if events != [] {
      var last := |events| - 1;
      EveryRunIsStamped(start, events[..last]);
      NothingAfterClock(start, events);
      StepKeepsStamped(Run(NewChat(start), events[..last]), Clock(start, events[..last]), events[last]);
    }
  }

  predicate NoReset(events: seq<Event>) { forall e | e in events :: !e.ResetSession? }

  /** Without a reset a chat forgets nothing: with no stamp there was no activity. */
  lemma {:induction false} EveryRunIsStampedOnce(start: Time, events: seq<Event>)
    requires NoReset(events)
    ensures var s := Run(NewChat(start), events);
            s.chat.lastMessageAt.None? ==> forall m | m in s.messages :: m.kept
  {
    if events != [] {
      var last := |events| - 1;
      assert events[last] in events && forall e | e in events[..last] :: e in events;
      EveryRunIsStampedOnce(start, events[..last]);
      StepSays(Run(NewChat(start), events[..last]), events[last]);
    }
  }

  predicate WrittenAfter(s: State, time: Time) { exists m | m in s.messages :: !m.kept && m.at > time }

  /** In every run without resets the stamp is the time of the last activity. */
  lemma StampIsLastActivity(start: Time, events: seq<Event>, time: Time)
    requires InOrder(events) && (forall e | e in events :: start <= e.now) && NoReset(events)
    ensures var s := Run(NewChat(start), events);
            WrittenAfter(s, time) <==> s.chat.lastMessageAt.Some? && s.chat.lastMessageAt.value > time
  {
    var s := Run(NewChat(start), events);
    EveryRunRemembers(start, events);
    EveryRunIsStamped(start, events);
    EveryRunIsStampedOnce(start, events);
    if s.chat.lastMessageAt.Some? && s.chat.lastMessageAt.value > time {
      var m :| m in s.messages && !m.kept && s.chat.lastMessageAt.value <= m.at <= s.chat.lastMessageAt.value;
    }
  }
}
