/** What each step does to a matter, and what no step does. */
module ChatMoves {
  import opened Wrappers
  import opened Chat

  /** After a reply and its marking no matter of the chat asked by then still waits; one asked later does. */
  lemma MarkingLeavesNoneWaiting(s: State, answeredAt: Time, now: Time, i: nat)
    requires i < |s.matters|
    ensures var before, after := s.matters[i], Step(s, MarkAnswered(answeredAt, now)).matters[i];
            && after == before.(status := after.status)
            && (before.kind != Quote && before.createdAt <= answeredAt ==> !after.status.Pending?)
            && (before.kind == Quote || answeredAt < before.createdAt || !before.status.Pending? ==> after == before)
            && (after.status != before.status ==> after.status.InProgress?)
  {
  }

  /** Handing back leaves none of the chat's in progress: those are resolved then, and nothing else is touched. */
  lemma ResolvingLeavesNoneInProgress(s: State, now: Time, i: nat)
    requires i < |s.matters|
    ensures var before, after := s.matters[i], Step(s, ResolveAnswered(now)).matters[i];
            && (before.kind != Quote ==> !after.status.InProgress?)
            && (before.kind == Quote || !before.status.InProgress? ==> after == before)
            && (after != before ==> after.status.Resolved? && after.resolvedAt == Some(now)
                                    && after == before.(status := Resolved, resolvedAt := Some(now)))
  {
  }

  /** By hand: what is set is what was asked and the rest stays; only RESOLVED has a date, the moment's. */
  lemma MovedByHand(s: State, id: nat, category: Option<Category>, status: Option<MatterStatus>, now: Time)
    requires id < |s.matters|
    ensures var before, after := s.matters[id], Step(s, MoveMatter(id, category, status, now)).matters[id];
            && after.category == (if category.Some? then category.value else before.category)
            && after.status == (if status.Some? then status.value else before.status)
            && after.resolvedAt == (if status.None? then before.resolvedAt else if status == Some(Resolved) then Some(now) else None)
            && after.movedAt == (if status.Some? then Some(now) else before.movedAt)
            && after.kind == before.kind && after.body == before.body && after.createdAt == before.createdAt
  {
  }

  /** A text joined to a request it read as it is: the request waits again from now, and keeps whatever it was sorted as. */
  lemma JoinedWaitsAgain(s: State, id: nat, category: Category, text: string, now: Time)
    requires id < |s.matters| && s.matters[id].kind.Handoff?
    ensures var before, after := s.matters[id], Step(s, JoinMatter(id, s.matters[id], category, text, now)).matters[id];
            && after.kind.Handoff? && after.status.Pending? && after.createdAt == now
            && (before.category != Other ==> after.category == before.category)
            && (before.category == Other ==> after.category == category)
            && after.body == Some(if before.body.GetOr("") == "" then text else before.body.value + "\n\n" + text)
            && after.resolvedAt == before.resolvedAt && after.movedAt == before.movedAt
  {
  }

  /** A quote asked for again waits again with its new text; no other kind of matter can be asked for so. */
  lemma RequotedWaitsAgain(s: State, id: nat, text: string, now: Time)
    requires id < |s.matters|
    ensures var t := Step(s, Requote(id, text, now));
            && (s.matters[id].kind != Quote ==> t == s)
            && (s.matters[id].kind == Quote ==>
                  var after := t.matters[id];
                  && after.status.Pending? && after.resolvedAt.None? && after.createdAt == now && after.body == Some(text)
                  && after.kind == Quote && after.category == s.matters[id].category)
  {
  }

  /** The matter a step is about; marking and handing back are about all of them. */
  predicate Concerns(e: Event, id: nat) {
    || ((e.JoinMatter? || e.MoveMatter? || e.Requote?) && e.id == id)
    || e.MarkAnswered? || e.ResolveAnswered?
  }

  /** No other step touches a matter that is there, and none takes one away; a new one comes last, waiting. */
  lemma OthersStay(s: State, e: Event, id: nat)
    requires id < |Step(s, e).matters|
    ensures |s.matters| <= |Step(s, e).matters| <= |s.matters| + if e.CreateMatter? then 1 else 0
    ensures id < |s.matters| && !Concerns(e, id) ==> Step(s, e).matters[id] == s.matters[id]
    ensures id >= |s.matters| ==>
              Step(s, e).matters[id] == Matter(e.kind, e.category, Pending, None, e.now, e.body, None)
  {
  }
}
