/** The matters of a chat: settled only once the office answered. */
module ChatMatters {
  import opened Wrappers
  import opened Chat

  // ─── Settled only once answered ──────────────────────────

  /** The office wrote, or somebody moved the matter by hand, after the last text that joined it. */
  predicate Answered(s: State, m: Matter) {
    || (m.movedAt.Some? && m.createdAt <= m.movedAt.value)
    || exists x | x in s.messages :: x.writer.Office() && m.createdAt <= x.at
  }

  predicate Handled(s: State, now: Time) {
    forall m | m in s.matters :: m.createdAt <= now && (m.kind.OfChat() && !m.status.Pending? ==> Answered(s, m))
  }

  /** A marking that reaches a matter whose last text came after everything the office wrote. */
  predicate MarksUnanswered(s: State, e: Event) {
    e.MarkAnswered? && exists m | m in s.matters :: MarkMatter(m, e.answeredAt) != m && !Answered(s, m)
  }

  lemma AnsweredStays(s: State, e: Event, m: Matter)
    requires Answered(s, m)
    ensures Answered(Step(s, e), m)
  {
    assert forall x | x in s.messages :: x in Step(s, e).messages;
  }

  lemma StepHandles(s: State, before: Time, e: Event, i: nat)
    requires Handled(s, before) && before <= e.now && !MarksUnanswered(s, e)
    requires i < |Step(s, e).matters|
    ensures var m := Step(s, e).matters[i];
            m.createdAt <= e.now && (m.kind.OfChat() && !m.status.Pending? ==> Answered(Step(s, e), m))
  {
    var t := Step(s, e);
    if i < |s.matters| {
      var m := s.matters[i];
      assert m in s.matters;
      if m.kind.OfChat() && (!m.status.Pending? || t.matters[i] == MarkMatter(m, before)) && Answered(s, m) {
        AnsweredStays(s, e, m);
      }
    }
  }

  /** One step leaves every matter in progress or resolved answered exactly when it marks no unanswered one. */
  lemma StepKeepsHandled(s: State, before: Time, e: Event)
    requires Handled(s, before) && before <= e.now
    ensures Handled(Step(s, e), e.now) <==> !MarksUnanswered(s, e)
  {
    var t := Step(s, e);
    if MarksUnanswered(s, e) {
      var m :| m in s.matters && MarkMatter(m, e.answeredAt) != m && !Answered(s, m);
      var i :| 0 <= i < |s.matters| && s.matters[i] == m;
      assert t.matters[i] in t.matters;
      assert !Answered(t, t.matters[i]);
    } else {
      forall m | m in t.matters
        ensures m.createdAt <= e.now && (m.kind.OfChat() && !m.status.Pending? ==> Answered(t, m))
      {
        var i :| 0 <= i < |t.matters| && t.matters[i] == m;
        StepHandles(s, before, e, i);
      }
    }
  }

  predicate MarksOnlyAnswered(start: Time, events: seq<Event>) {
    forall i | 0 <= i < |events| :: !MarksUnanswered(Run(NewChat(start), events[..i]), events[i])
  }

  lemma {:induction false} MarkedRunIsHandled(start: Time, events: seq<Event>)
    requires InOrder(events) && forall e | e in events :: start <= e.now
    requires MarksOnlyAnswered(start, events)
    ensures Handled(Run(NewChat(start), events), Clock(start, events))
  {
    if events != [] {
      var last := |events| - 1;
      forall i | 0 <= i < last
        ensures !MarksUnanswered(Run(NewChat(start), events[..last][..i]), events[..last][i])
      {
        assert events[..last][..i] == events[..i];
      }
      MarkedRunIsHandled(start, events[..last]);
      NothingAfterClock(start, events);
      StepKeepsHandled(Run(NewChat(start), events[..last]), Clock(start, events[..last]), events[last]);
    }
  }

  /** The run is handled all along exactly when no marking of it reaches an unanswered matter. */
  lemma HandledAllAlongIff(start: Time, events: seq<Event>)
    requires InOrder(events) && forall e | e in events :: start <= e.now
    ensures MarksOnlyAnswered(start, events) <==>
            forall n {:trigger events[..n]} | 0 <= n <= |events| :: Handled(Run(NewChat(start), events[..n]), Clock(start, events[..n]))
  {
    if MarksOnlyAnswered(start, events) {
      forall n | 0 <= n <= |events|
        ensures Handled(Run(NewChat(start), events[..n]), Clock(start, events[..n]))
      {
        assert forall i | 0 <= i < n :: events[..n][..i] == events[..i];
        MarkedRunIsHandled(start, events[..n]);
      }
    } else {
      var i :| 0 <= i < |events| && MarksUnanswered(Run(NewChat(start), events[..i]), events[i]);
      UnansweredMarkIsUnhandled(start, events, i);
    }
  }

  lemma UnansweredMarkIsUnhandled(start: Time, events: seq<Event>, i: nat)
    requires InOrder(events) && (forall e | e in events :: start <= e.now) && i < |events|
    requires MarksUnanswered(Run(NewChat(start), events[..i]), events[i])
    ensures !Handled(Run(NewChat(start), events[..i]), Clock(start, events[..i]))
            || !Handled(Run(NewChat(start), events[..i + 1]), Clock(start, events[..i + 1]))
  {
    if Handled(Run(NewChat(start), events[..i]), Clock(start, events[..i])) {
      NothingAfterClock(start, events[..i + 1]);
      assert events[..i + 1][..i] == events[..i];
      StepKeepsHandled(Run(NewChat(start), events[..i]), Clock(start, events[..i]), events[i]);
      RunStep(NewChat(start), events, i);
    }
  }

  // ─── Markings follow replies ─────────────────────────────

  /** The customer asks the office for something: a matter of the chat is opened or added to. */
  predicate AsksOffice(e: Event) { e.JoinMatter? || (e.CreateMatter? && e.kind.OfChat()) }

  predicate NothingAsked(events: seq<Event>, from: nat, until: nat) {
    forall k | from <= k < until && k < |events| :: !AsksOffice(events[k])
  }

  /** The marking of a panel reply: stamped with the reply it follows, however many steps later it runs. */
  predicate MarksPanelReply(events: seq<Event>, i: nat)
    requires i < |events|
  {
    events[i].MarkAnswered? && exists j | 0 <= j < i :: events[j].AgentReply? && events[j].now == events[i].answeredAt
  }

  /** The marking of an app reply: stamped with its own time, and the customer asked for nothing since the reply. */
  predicate MarksAppReply(events: seq<Event>, i: nat)
    requires i < |events|
  {
    events[i].MarkAnswered? && exists j | 0 <= j < i :: events[j].Echo? && NothingAsked(events, j + 1, i)
  }

  /** Every marking belongs to a reply that came before it. */
  predicate MarksFollowReplies(events: seq<Event>) {
    forall i | 0 <= i < |events| && events[i].MarkAnswered? :: MarksPanelReply(events, i) || MarksAppReply(events, i)
  }

  /** No matter's last text is from later than the given time. */
  predicate AskedBy(s: State, time: Time) { forall m | m in s.matters && m.kind.OfChat() :: m.createdAt <= time }

  lemma StepAsks(s: State, e: Event, time: Time)
    requires AskedBy(s, time)
    ensures AskedBy(Step(s, e), if AsksOffice(e) && time < e.now then e.now else time)
  {
    var t := Step(s, e);
    forall m | m in t.matters && m.kind.OfChat()
      ensures m.createdAt <= if AsksOffice(e) && time < e.now then e.now else time
    {
      var i :| 0 <= i < |t.matters| && t.matters[i] == m;
      if i < |s.matters| {
        assert s.matters[i] in s.matters;
        StepKeepsKind(s, e, i);
      }
    }
  }

  lemma StepKeepsKind(s: State, e: Event, i: nat)
    requires i < |s.matters|
    ensures i < |Step(s, e).matters| && Step(s, e).matters[i].kind == s.matters[i].kind
    ensures s.matters[i].kind.OfChat() ==>
              Step(s, e).matters[i].createdAt == s.matters[i].createdAt
              || (e.JoinMatter? && Step(s, e).matters[i].createdAt == e.now)
  {
  }

  lemma {:induction false} AskedInThePast(start: Time, events: seq<Event>)
    requires InOrder(events) && forall e | e in events :: start <= e.now
    ensures AskedBy(Run(NewChat(start), events), Clock(start, events))
  {
    if events != [] {
      var last := |events| - 1;
      AskedInThePast(start, events[..last]);
      NothingAfterClock(start, events);
      StepAsks(Run(NewChat(start), events[..last]), events[last], Clock(start, events[..last]));
    }
  }

  lemma {:induction false} NothingNewAsked(start: Time, events: seq<Event>, from: nat, until: nat, time: Time)
    requires from <= until <= |events| && NothingAsked(events, from, until)
    requires AskedBy(Run(NewChat(start), events[..from]), time)
    ensures AskedBy(Run(NewChat(start), events[..until]), time)
    decreases until
  {
    if from < until {
      NothingNewAsked(start, events, from, until - 1, time);
      RunStep(NewChat(start), events, until - 1);
      StepAsks(Run(NewChat(start), events[..until - 1]), events[until - 1], time);
    }
  }

  /** A marking stamped with a stored reply's time reaches no matter whose last text came after that reply. */
  lemma PanelMarksOnlyAnswered(start: Time, events: seq<Event>, i: nat)
    requires i < |events| && MarksPanelReply(events, i)
    ensures !MarksUnanswered(Run(NewChat(start), events[..i]), events[i])
  {
    var j :| 0 <= j < i && events[j].AgentReply? && events[j].now == events[i].answeredAt;
    ReplyIsStored(NewChat(start), events, j, i);
  }

  /** Nor does one that follows an app reply with nothing asked in between. */
  lemma AppMarksOnlyAnswered(start: Time, events: seq<Event>, i: nat)
    requires InOrder(events) && (forall e | e in events :: start <= e.now)
    requires i < |events| && MarksAppReply(events, i)
    ensures !MarksUnanswered(Run(NewChat(start), events[..i]), events[i])
  {
    var j :| 0 <= j < i && events[j].Echo? && NothingAsked(events, j + 1, i);
    EchoAnswersAll(start, events, j);
    NothingNewAsked(start, events, j + 1, i, events[j].now);
    ReplyIsStored(NewChat(start), events, j, i);
  }

  /** When the app reply comes, whatever was asked was asked before it. */
  lemma EchoAnswersAll(start: Time, events: seq<Event>, j: nat)
    requires InOrder(events) && (forall e | e in events :: start <= e.now) && j < |events| && events[j].Echo?
    ensures AskedBy(Run(NewChat(start), events[..j + 1]), events[j].now)
  {
    AskedInThePast(start, events[..j]);
    NothingAfterClock(start, events[..j + 1]);
    assert events[..j + 1][..j] == events[..j];
    RunStep(NewChat(start), events, j);
    StepAsks(Run(NewChat(start), events[..j]), events[j], events[j].now);
  }

  lemma MarkingsReachAnsweredOnly(start: Time, events: seq<Event>)
    requires InOrder(events) && (forall e | e in events :: start <= e.now)
    requires MarksFollowReplies(events)
    ensures MarksOnlyAnswered(start, events)
  {
    forall i | 0 <= i < |events|
      ensures !MarksUnanswered(Run(NewChat(start), events[..i]), events[i])
    {
      if events[i].MarkAnswered? {
        if MarksPanelReply(events, i) {
          PanelMarksOnlyAnswered(start, events, i);
        } else {
          AppMarksOnlyAnswered(start, events, i);
        }
      }
    }
  }

  /** In every run whose markings follow replies, a chat matter in progress or resolved is answered. */
  lemma EveryRunIsHandled(start: Time, events: seq<Event>)
    requires InOrder(events) && forall e | e in events :: start <= e.now
    requires MarksFollowReplies(events)
    ensures Handled(Run(NewChat(start), events), Clock(start, events))
  {
    MarkingsReachAnsweredOnly(start, events);
    MarkedRunIsHandled(start, events);
  }

  lemma ResolvesOnlyAnswered(s: State, clock: Time, now: Time, i: nat)
    requires Handled(s, clock) && i < |s.matters|
    ensures var before, after := s.matters[i], Step(s, ResolveAnswered(now)).matters[i];
            && (after != before ==> after == before.(status := Resolved, resolvedAt := Some(now)) && Answered(s, before))
            && (before.status.Pending? ==> after == before)
  {
    assert s.matters[i] in s.matters;
  }

  /**
   * In every run in which each marking belongs to a reply before it, a panel one however late, an app one while the
   * customer asks for nothing new: handing the chat back resolves a matter only if the office wrote, or someone moved
   * it by hand, after the last text joined to it; matters still pending are left alone.
   */
  lemma HandBackResolvesOnlyAnswered(start: Time, events: seq<Event>, now: Time, i: nat)
    requires InOrder(events) && (forall e | e in events :: start <= e.now) && MarksFollowReplies(events)
    requires i < |Run(NewChat(start), events).matters|
    ensures var s := Run(NewChat(start), events);
            var before, after := s.matters[i], Step(s, ResolveAnswered(now)).matters[i];
            && (after != before ==> after == before.(status := Resolved, resolvedAt := Some(now)) && Answered(s, before))
            && (before.status.Pending? ==> after == before)
  {
    EveryRunIsHandled(start, events);
    ResolvesOnlyAnswered(Run(NewChat(start), events), Clock(start, events), now, i);
  }

  /** The employee wrote, the customer asked after, and the late marking of the app settles what nobody answered. */
  lemma LateAppMarkingSettlesUnanswered()
    ensures var asked := Step(Step(NewChat(0), Echo(false, 1)), CreateMatter(Handoff, Other, Some("a"), 2));
            var t := Step(Step(asked, MarkAnswered(3, 3)), ResolveAnswered(4));
            t.matters[0].status.Resolved? && !Answered(t, t.matters[0])
  {
  }
}
