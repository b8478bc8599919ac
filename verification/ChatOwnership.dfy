/** Who a chat is with: taking it over, giving it back. */
module ChatOwnership {
  import opened Wrappers
  import opened Chat

  predicate Owned(s: State) {
    s.chat.assignedTo.Some? ==> s.chat.botPaused
  }

  predicate GivesBack(e: Event) { e.Release? || e.AutoRelease? }

  /** A person is on the chat, or wrote in it: there is something to count the operator's silence from. */
  predicate Traced(s: State) {
    s.chat.botPaused ==> s.chat.handedOverAt.Some? || exists m | m in s.messages :: m.writer.Office()
  }

  lemma StepKeepsOwned(s: State, e: Event)
    requires Owned(s)
    ensures Owned(Step(s, e))
    ensures s.chat.assignedTo.Some? && Step(s, e).chat.assignedTo != s.chat.assignedTo
            ==> GivesBack(e) && Step(s, e).chat.assignedTo.None?
  {
  }

  lemma StepKeepsTraced(s: State, e: Event)
    requires Traced(s)
    ensures Traced(Step(s, e))
  {
    var t := Step(s, e);
    assert forall m | m in s.messages :: m in t.messages;
    if e.Echo? {
      assert Message(App, e.now, false) in t.messages;
    }
  }

  /** In every interleaving an assigned chat is paused, and a paused chat was taken by somebody. */
  lemma {:induction false} EveryRunIsOwned(start: Time, events: seq<Event>)
    ensures Owned(Run(NewChat(start), events)) && Traced(Run(NewChat(start), events))
  {
    if events != [] {
      var last := |events| - 1;
      EveryRunIsOwned(start, events[..last]);
      StepKeepsOwned(Run(NewChat(start), events[..last]), events[last]);
      StepKeepsTraced(Run(NewChat(start), events[..last]), events[last]);
    }
  }

  /** Between two different owners, however the steps interleave, the chat was given back. */
  lemma {:induction false} OwnerChangesThroughRelease(start: Time, events: seq<Event>, i: nat, j: nat)
    requires i <= j <= |events|
    requires var before, after := Run(NewChat(start), events[..i]), Run(NewChat(start), events[..j]);
             before.chat.assignedTo.Some? && after.chat.assignedTo != before.chat.assignedTo
    ensures exists k | i <= k < j :: GivesBack(events[k])
    decreases j - i
  {
    var s, t := Run(NewChat(start), events[..j - 1]), Run(NewChat(start), events[..j]);
    assert events[..j][..j - 1] == events[..j - 1];
    EveryRunIsOwned(start, events[..j - 1]);
    StepKeepsOwned(s, events[j - 1]);
    if s.chat.assignedTo != Run(NewChat(start), events[..i]).chat.assignedTo {
      OwnerChangesThroughRelease(start, events, i, j - 1);
    } else {
      assert GivesBack(events[j - 1]);
    }
  }
}
