/** The matters of a chat: RESOLVED goes with its date. */
module ChatResolved {
  import opened Wrappers
  import opened Chat

  predicate Dated(m: Matter) { m.status.Resolved? <==> m.resolvedAt.Some? }

  predicate AllDated(s: State) { forall m | m in s.matters :: Dated(m) }

  /** A text read an open matter, and joins it after somebody resolved it. */
  predicate JoinsResolved(s: State, e: Event) {
    e.JoinMatter? && e.id < |s.matters| && s.matters[e.id].kind.Handoff? && s.matters[e.id].status.Resolved?
  }

  lemma StepMatter(s: State, e: Event, i: nat)
    requires i < |Step(s, e).matters|
    ensures i >= |s.matters| ==> Step(s, e).matters[i].status.Pending? && Step(s, e).matters[i].resolvedAt.None?
    ensures i < |s.matters| && Dated(s.matters[i]) && !(JoinsResolved(s, e) && e.id == i) ==> Dated(Step(s, e).matters[i])
  {
  }

  /** One step keeps RESOLVED and resolvedAt together exactly when it does not join a resolved matter. */
  lemma StepKeepsDated(s: State, e: Event)
    requires AllDated(s)
    ensures AllDated(Step(s, e)) <==> !JoinsResolved(s, e)
  {
    var t := Step(s, e);
    if JoinsResolved(s, e) {
      assert s.matters[e.id] in s.matters && t.matters[e.id] in t.matters;
    } else {
      forall m | m in t.matters
        ensures Dated(m)
      {
        var i :| 0 <= i < |t.matters| && t.matters[i] == m;
        if i < |s.matters| {
          assert s.matters[i] in s.matters;
        }
        StepMatter(s, e, i);
      }
    }
  }

  predicate JoinsOpenOnly(start: Time, events: seq<Event>) {
    forall i | 0 <= i < |events| :: !JoinsResolved(Run(NewChat(start), events[..i]), events[i])
  }

  lemma {:induction false} OpenJoinsKeepDated(start: Time, events: seq<Event>)
    requires JoinsOpenOnly(start, events)
    ensures AllDated(Run(NewChat(start), events))
  {
    if events != [] {
      var last := |events| - 1;
      forall i | 0 <= i < last
        ensures !JoinsResolved(Run(NewChat(start), events[..last][..i]), events[..last][i])
      {
        assert events[..last][..i] == events[..i];
      }
      OpenJoinsKeepDated(start, events[..last]);
      StepKeepsDated(Run(NewChat(start), events[..last]), events[last]);
    }
  }

  lemma OpenJoinsBefore(start: Time, events: seq<Event>, n: nat)
    requires n <= |events| && JoinsOpenOnly(start, events)
    ensures JoinsOpenOnly(start, events[..n])
  {
    assert forall i | 0 <= i < n :: events[..n][..i] == events[..i];
  }

  /** A run keeps RESOLVED and resolvedAt together at every moment exactly when none of its texts joins a resolved matter. */
  lemma DatedAllAlongIff(start: Time, events: seq<Event>)
    ensures JoinsOpenOnly(start, events) <==>
            forall n {:trigger events[..n]} | 0 <= n <= |events| :: AllDated(Run(NewChat(start), events[..n]))
  {
    if JoinsOpenOnly(start, events) {
      forall n | 0 <= n <= |events|
        ensures AllDated(Run(NewChat(start), events[..n]))
      {
        OpenJoinsBefore(start, events, n);
        OpenJoinsKeepDated(start, events[..n]);
      }
    } else {
      var i :| 0 <= i < |events| && JoinsResolved(Run(NewChat(start), events[..i]), events[i]);
      RunStep(NewChat(start), events, i);
      if AllDated(Run(NewChat(start), events[..i])) {
        StepKeepsDated(Run(NewChat(start), events[..i]), events[i]);
        assert !AllDated(Run(NewChat(start), events[..i + 1]));
      }
    }
  }

  /** The step may resolve the matter: the chat is handed back, or somebody resolves it by hand. */
  predicate Resolves(e: Event, id: nat) {
    e.ResolveAnswered? || (e.MoveMatter? && e.id == id && e.newStatus == Some(Resolved))
  }

  /** The join at a position read its matter open after `read` events, and nothing resolves that matter in between. */
  predicate ReadsOpen(start: Time, events: seq<Event>, write: nat, read: nat)
    requires write < |events| && events[write].JoinMatter?
  {
    && read <= write && OpenAt(Run(NewChat(start), events[..read]), events[write].id)
    && forall k | read <= k < write :: !Resolves(events[k], events[write].id)
  }

  predicate OpenAt(s: State, id: nat) { id < |s.matters| && !s.matters[id].status.Resolved? }

  predicate JoinsReadOpen(start: Time, events: seq<Event>, readings: seq<nat>) {
    |readings| == |events| && forall i | 0 <= i < |events| && events[i].JoinMatter? :: ReadsOpen(start, events, i, readings[i])
  }

  lemma StepKeepsOpen(s: State, e: Event, id: nat)
    requires OpenAt(s, id) && !Resolves(e, id)
    ensures OpenAt(Step(s, e), id)
  {
  }

  lemma {:induction false} OpenStays(start: Time, events: seq<Event>, id: nat, read: nat, write: nat)
    requires read <= write <= |events| && OpenAt(Run(NewChat(start), events[..read]), id)
    requires forall k | read <= k < write :: !Resolves(events[k], id)
    ensures OpenAt(Run(NewChat(start), events[..write]), id)
    decreases write - read
  {
    if read < write {
      OpenStays(start, events, id, read, write - 1);
      RunStep(NewChat(start), events, write - 1);
      StepKeepsOpen(Run(NewChat(start), events[..write - 1]), events[write - 1], id);
    }
  }

  /**
   * In every interleaving in which no matter is resolved between a text's reading it open and joining it, a matter is
   * RESOLVED exactly when resolvedAt is set.
   */
  lemma EveryRunIsDated(start: Time, events: seq<Event>, readings: seq<nat>)
    requires JoinsReadOpen(start, events, readings)
    ensures AllDated(Run(NewChat(start), events))
  {
    forall i | 0 <= i < |events|
      ensures !JoinsResolved(Run(NewChat(start), events[..i]), events[i])
    {
      if events[i].JoinMatter? {
        assert ReadsOpen(start, events, i, readings[i]);
        OpenStays(start, events, events[i].id, readings[i], i);
      }
    }
    OpenJoinsKeepDated(start, events);
  }

  /** Whatever the interleaving, a RESOLVED matter has its date: only the other half can fail. */
  lemma {:induction false} ResolvedHasItsDate(start: Time, events: seq<Event>)
    ensures forall m | m in Run(NewChat(start), events).matters :: m.status.Resolved? ==> m.resolvedAt.Some?
  {
    if events != [] {
      var last := |events| - 1;
      var s, t := Run(NewChat(start), events[..last]), Run(NewChat(start), events);
      ResolvedHasItsDate(start, events[..last]);
      forall m | m in t.matters && m.status.Resolved?
        ensures m.resolvedAt.Some?
      {
        var i :| 0 <= i < |t.matters| && t.matters[i] == m;
        if i < |s.matters| {
          assert s.matters[i] in s.matters;
        } else {
          StepMatter(s, events[last], i);
        }
      }
    }
  }

  /** The text read the matter open, the chat was handed back, and the text leaves it PENDING with a resolution date. */
  lemma JoinAfterHandBackKeepsTheDate()
    ensures var asked := Step(NewChat(0), CreateMatter(Handoff, Other, Some("a"), 1));
            var handled := Step(Step(asked, AgentReply(2)), MarkAnswered(2, 3));
            var t := Step(Step(handled, ResolveAnswered(4)), JoinMatter(0, handled.matters[0], Other, "b", 5));
            t.matters[0].status.Pending? && t.matters[0].resolvedAt == Some(4)
  {
  }
}
