/** The takeover sweep reads a chat and writes it later: what happened in between decides whether somebody is interrupted. */
module SplitSweep {
  import opened Wrappers
  import opened Chat
  import opened ChatOwnership
  import opened TakeoverTimeout

  /** Somebody takes the chat over: the compare and set finds nobody on it. */
  predicate Takes(s: State, e: Event) { e.Takeover? && s.chat.assignedTo.None? }

  predicate NobodyWrites(events: seq<Event>, i: nat, j: nat) {
    forall k | i <= k < j && k < |events| :: !OfficeWrites(events[k])
  }

  /** Somebody took the chat over between the two and nobody gave it back since. */
  predicate TakeoverStands(start: Time, events: seq<Event>, i: nat, j: nat)
    requires j <= |events|
  {
    exists k | i <= k < j :: StandsFrom(start, events, k, j)
  }

  predicate StandsFrom(start: Time, events: seq<Event>, k: nat, j: nat)
    requires k < j <= |events|
  {
    Takes(Run(NewChat(start), events[..k]), events[k]) && Kept(events, k + 1, j)
  }

  predicate Kept(events: seq<Event>, i: nat, j: nat) {
    forall k | i <= k < j && k < |events| :: !GivesBack(events[k])
  }

  predicate After(events: seq<Event>, i: nat, j: nat, now: Time) {
    forall k | i <= k < j && k < |events| :: events[k].now >= now
  }

  // ─── What a step does to the silence ─────────────────────

  /** A chat with the bot has no takeover time left. */
  predicate Unheld(s: State) { !s.chat.botPaused ==> s.chat.handedOverAt.None? }

  lemma {:induction false} EveryRunIsUnheld(start: Time, events: seq<Event>)
    ensures Unheld(Run(NewChat(start), events))
  {
    if events != [] {
      EveryRunIsUnheld(start, events[..|events| - 1]);
    }
  }

  lemma MessagesAsBefore(s: State, e: Event)
    requires !OfficeWrites(e)
    ensures forall m: Message | m.writer.Office() :: m in Step(s, e).messages <==> m in s.messages
  {
  }

  lemma HoldAfter(s: State, e: Event)
    requires !OfficeWrites(e) && Unheld(s)
    ensures Step(s, e).chat.handedOverAt ==
              if GivesBack(e) then None else if Takes(s, e) then Some(e.now) else s.chat.handedOverAt
  {
  }

  // ─── Between the read and the write ──────────────────────

  lemma {:induction false} QuietMessages(start: Time, events: seq<Event>, i: nat, j: nat, since: Time)
    requires i <= j <= |events| && NobodyWrites(events, i, j)
    requires forall m | m in Run(NewChat(start), events[..i]).messages && m.writer.Office() :: m.at <= since
    ensures forall m | m in Run(NewChat(start), events[..j]).messages && m.writer.Office() :: m.at <= since
    decreases j - i
  {
    if i < j {
      QuietMessages(start, events, i, j - 1, since);
      RunStep(NewChat(start), events, j - 1);
      MessagesAsBefore(Run(NewChat(start), events[..j - 1]), events[j - 1]);
    }
  }

  /** While nobody writes, the chat is held since after the read exactly when a takeover made since still stands. */
  lemma {:induction false} HeldSinceIff(start: Time, events: seq<Event>, i: nat, j: nat, since: Time)
    requires i <= j <= |events| && NobodyWrites(events, i, j) && After(events, i, j, since + 1)
    requires var before := Run(NewChat(start), events[..i]).chat.handedOverAt; before.Some? ==> before.value <= since
    ensures var held := Run(NewChat(start), events[..j]).chat.handedOverAt;
            (held.Some? && held.value > since) <==> TakeoverStands(start, events, i, j)
    decreases j - i
  {
    if i < j {
      var s, e := Run(NewChat(start), events[..j - 1]), events[j - 1];
      HeldSinceIff(start, events, i, j - 1, since);
      RunStep(NewChat(start), events, j - 1);
      EveryRunIsUnheld(start, events[..j - 1]);
      HoldAfter(s, e);
      StandsStep(start, events, i, j);
    }
  }

  lemma StandsOn(start: Time, events: seq<Event>, i: nat, j: nat)
    requires i < j <= |events|
    requires || Takes(Run(NewChat(start), events[..j - 1]), events[j - 1])
             || (TakeoverStands(start, events, i, j - 1) && !GivesBack(events[j - 1]))
    ensures TakeoverStands(start, events, i, j)
  {
    if Takes(Run(NewChat(start), events[..j - 1]), events[j - 1]) {
      assert StandsFrom(start, events, j - 1, j);
    } else {
      var k :| i <= k < j - 1 && StandsFrom(start, events, k, j - 1);
      assert StandsFrom(start, events, k, j);
    }
  }

  lemma StoodBefore(start: Time, events: seq<Event>, i: nat, j: nat)
    requires i < j <= |events| && TakeoverStands(start, events, i, j)
    ensures || Takes(Run(NewChat(start), events[..j - 1]), events[j - 1])
            || (TakeoverStands(start, events, i, j - 1) && !GivesBack(events[j - 1]))
  {
    var k :| i <= k < j && StandsFrom(start, events, k, j);
    if k < j - 1 {
      assert StandsFrom(start, events, k, j - 1);
    }
  }

  lemma StandsStep(start: Time, events: seq<Event>, i: nat, j: nat)
    requires i < j <= |events|
    ensures TakeoverStands(start, events, i, j) <==>
              || Takes(Run(NewChat(start), events[..j - 1]), events[j - 1])
              || (TakeoverStands(start, events, i, j - 1) && !GivesBack(events[j - 1]))
  {
    if TakeoverStands(start, events, i, j) {
      StoodBefore(start, events, i, j);
    } else if Takes(Run(NewChat(start), events[..j - 1]), events[j - 1])
              || (TakeoverStands(start, events, i, j - 1) && !GivesBack(events[j - 1])) {
      StandsOn(start, events, i, j);
    }
  }

  /**
   * The sweep reads a chat after i events and writes it after j, with anything in between: the chat it gives back
   * still has operatorIdleMs of office silence, as of the reading, exactly when nobody of the office wrote in between
   * and no takeover made in between stands. Whatever happened, the write leaves the chat with the bot.
   */
  lemma SplitSweepInterruptsIff(start: Time, events: seq<Event>, i: nat, j: nat, openNow: bool, now: Time, l: Limits, at: Time)
    requires i <= j <= |events| && After(events, i, j, now) && l.operatorIdleMs > 0
    requires Abandoned(Run(NewChat(start), events[..i]), openNow, now, l)
    ensures var t := Run(NewChat(start), events[..j]);
            && !Step(t, AutoRelease(at)).chat.botPaused
            && (OfficeSilent(t, now - l.operatorIdleMs) <==> NobodyWrites(events, i, j) && !TakeoverStands(start, events, i, j))
  {
    var since := now - l.operatorIdleMs;
    if NobodyWrites(events, i, j) {
      QuietMessages(start, events, i, j, since);
      HeldSinceIff(start, events, i, j, since);
    } else {
      var k :| i <= k < j && k < |events| && OfficeWrites(events[k]);
      ReplyIsStored(NewChat(start), events, k, j);
    }
  }

  /** Read and write are not one step: a reply that lands between them is interrupted the same instant. */
  lemma ReplyBetweenReadAndWrite(l: Limits)
    requires l.operatorIdleMs > 0
    ensures var t := if l.operatorIdleMs < l.maxMs then l.maxMs else l.operatorIdleMs;
            var read := Step(NewChat(0), Takeover(7, 0));
            var replied := Step(read, AgentReply(t));
            && ReleaseReason(LastHuman(read), LastCustomer(read), true, t, l).Some?
            && LastHuman(replied) == Some(t)
            && !Step(replied, AutoRelease(t)).chat.botPaused
  {
    var read := Step(NewChat(0), Takeover(7, 0));
    assert Step(read, AgentReply(1)).messages == [Message(Agent, 1, false)];
  }
}
