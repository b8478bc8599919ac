/** What the customer asks the office for: recorded, joined to an open request, and which texts stay written. */
module ChatRequests {
  import opened Texts
  import opened Wrappers
  import opened Chat

  // ─── Recording a request for the office ──────────────────

  predicate OpenHandoff(m: Matter) { m.kind.Handoff? && !m.status.Resolved? }

  /** The newest open request created since the given time. */
  function LatestOpen(matters: seq<Matter>, since: Time): (r: Option<nat>)
    ensures r.Some? ==> r.value < |matters| && OpenHandoff(matters[r.value]) && since <= matters[r.value].createdAt
    ensures forall i | 0 <= i < |matters| && OpenHandoff(matters[i]) && since <= matters[i].createdAt ::
              r.Some? && matters[i].createdAt <= matters[r.value].createdAt
  {
    if matters == [] then None else
      var last := |matters| - 1;
      var rest := LatestOpen(matters[..last], since);
      if OpenHandoff(matters[last]) && since <= matters[last].createdAt
         && (rest.None? || matters[rest.value].createdAt <= matters[last].createdAt)
      then Some(last) else rest
  }

  predicate Compatible(open: Category, asked: Category) {
    open == asked || open.Other? || asked.Other?
  }

  /** The same request is open already. */
  predicate Repeats(s: State, body: Option<string>) {
    exists m | m in s.matters :: OpenHandoff(m) && m.body == body
  }

  /** The open request the text is about. */
  function Joinable(s: State, category: Category, now: Time): (r: Option<nat>)
    ensures r.Some? ==> r.value < |s.matters| && OpenHandoff(s.matters[r.value])
  {
    var open := LatestOpen(s.matters, now - HANDOFF_JOIN_WINDOW_MS);
    if open.Some? && Compatible(s.matters[open.value].category, category) then open else None
  }

  /** The text says something the request does not. */
  predicate Adds(m: Matter, body: Option<string>) {
    body.Some? && body.value != "" && !(m.body.Some? && Contains(m.body.value, body.value))
  }

  /** How each storage call of a recording ends, in the order they are made. */
  datatype Calls = Calls(repeat: Outcome, find: Outcome, update: Outcome, create: Outcome)

  function Created(s: State, body: Option<string>, category: Category, now: Time, o: Outcome): State {
    if o.Applied() then Step(s, CreateMatter(Handoff, category, body, now)) else s
  }

  function JoinedTo(s: State, id: nat, body: string, category: Category, now: Time, o: Outcome): State
    requires id < |s.matters|
  {
    if o.Applied() then Step(s, JoinMatter(id, s.matters[id], category, body, now)) else s
  }

  /** The attempt to join the open request, and whether it settled the matter: a failed one did not. */
  function AfterJoin(s: State, body: Option<string>, category: Category, now: Time, calls: Calls): (State, bool) {
    var open := if calls.find.Threw() then None else Joinable(s, category, now);
    if open.None? then (s, false)
    else if !Adds(s.matters[open.value], body) then (s, true)
    else (JoinedTo(s, open.value, body.value, category, now, calls.update), !calls.update.Threw())
  }

  /**
   * What recording a request leaves: an exact repeat changes nothing, an addition joins the open request, anything
   * else is a new one; and so is an addition whose join threw.
   */
  function AfterHandoff(s: State, body: Option<string>, category: Category, now: Time, calls: Calls): State {
    if !calls.repeat.Threw() && Repeats(s, body) then s else
      var (joined, settled) := AfterJoin(s, body, category, now, calls);
      if settled then joined else Created(joined, body, category, now, calls.create)
  }

  lemma JoinedContains(seen: Option<string>, text: string)
    ensures Contains(JoinedBody(seen, text), text)
    ensures seen.Some? ==> Contains(JoinedBody(seen, text), seen.value)
  {
    var joined := JoinedBody(seen, text);
    assert FoundAt(joined, text, |joined| - |text|);
    if seen.Some? {
      assert FoundAt(joined, seen.value, 0);
    }
  }

  // ─── Where a request goes ────────────────────────────────

  /** An open request of the last day, with none newer after it. */
  predicate Newest(s: State, i: nat, now: Time) {
    && i < |s.matters| && OpenWithinADay(s.matters[i], now)
    && forall j | 0 <= j < |s.matters| && OpenWithinADay(s.matters[j], now) ::
         s.matters[j].createdAt <= s.matters[i].createdAt && (j > i ==> s.matters[j].createdAt < s.matters[i].createdAt)
  }

  predicate OpenWithinADay(m: Matter, now: Time) {
    m.kind.Handoff? && !m.status.Resolved? && now - 86_400_000 <= m.createdAt
  }

  /** The same sort of request, or one of the two not sorted. */
  predicate SameSort(a: Category, b: Category) { a.Other? || b.Other? || a == b }

  lemma {:induction false} LatestIsNewest(matters: seq<Matter>, since: Time, i: nat)
    requires i < |matters| && OpenHandoff(matters[i]) && since <= matters[i].createdAt
    requires forall j | 0 <= j < |matters| && OpenHandoff(matters[j]) && since <= matters[j].createdAt ::
               matters[j].createdAt <= matters[i].createdAt && (j > i ==> matters[j].createdAt < matters[i].createdAt)
    ensures LatestOpen(matters, since) == Some(i)
  {
    var last := |matters| - 1;
    if i < last {
      LatestIsNewest(matters[..last], since, i);
    }
  }

  lemma LatestOpenIff(s: State, i: nat, now: Time)
    ensures LatestOpen(s.matters, now - 86_400_000) == Some(i) ==> i < |s.matters| && OpenWithinADay(s.matters[i], now)
    ensures Newest(s, i, now) ==> LatestOpen(s.matters, now - 86_400_000) == Some(i)
    ensures LatestOpen(s.matters, now - 86_400_000).None? <==> forall j | 0 <= j < |s.matters| :: !OpenWithinADay(s.matters[j], now)
  {
    if Newest(s, i, now) {
      LatestIsNewest(s.matters, now - 86_400_000, i);
    }
  }

  const NO_FAULTS := Calls(Done, Done, Done, Done)

  predicate Asked(s: State, body: Option<string>) {
    exists i | 0 <= i < |s.matters| :: s.matters[i].kind.Handoff? && !s.matters[i].status.Resolved? && s.matters[i].body == body
  }

  /**
   * While storage works, a request goes to one place: nowhere when the same one is open; to the newest open request of the
   * last day when it is of the same sort and does not say it already; and to a new matter otherwise.
   */
  lemma RequestGoes(s: State, body: Option<string>, category: Category, now: Time, i: nat)
    ensures var t := AfterHandoff(s, body, category, now, NO_FAULTS);
            && (Asked(s, body) ==> t == s)
            && (!Asked(s, body) && Newest(s, i, now) && SameSort(s.matters[i].category, category) ==>
                  if body.GetOr("") != "" && !(s.matters[i].body.Some? && Contains(s.matters[i].body.value, body.value))
                  then t == Step(s, JoinMatter(i, s.matters[i], category, body.value, now))
                  else t == s)
            && (!Asked(s, body) && Newest(s, i, now) && !SameSort(s.matters[i].category, category) ==>
                  t == Step(s, CreateMatter(Handoff, category, body, now)))
            && (!Asked(s, body) && (forall j | 0 <= j < |s.matters| :: !OpenWithinADay(s.matters[j], now)) ==>
                  t == Step(s, CreateMatter(Handoff, category, body, now)))
  {
    LatestOpenIff(s, i, now);
    AskedIffRepeats(s, body);
  }

  lemma AskedIffRepeats(s: State, body: Option<string>)
    ensures Asked(s, body) <==> Repeats(s, body)
  {
    if Repeats(s, body) {
      var m :| m in s.matters && OpenHandoff(m) && m.body == body;
      var i :| 0 <= i < |s.matters| && s.matters[i] == m;
    }
  }

  /** With a call refused, a request is not lost while another call can still open a matter for it; and nothing is written by one that was refused. */
  lemma RefusedCallsWriteNothing(s: State, body: Option<string>, category: Category, now: Time, calls: Calls)
    ensures calls.update.Refused? && calls.create.Refused? ==> AfterHandoff(s, body, category, now, calls) == s
    ensures calls.find.Threw() && calls.create.Applied() && (calls.repeat.Threw() || !Asked(s, body)) ==>
              AfterHandoff(s, body, category, now, calls) == Step(s, CreateMatter(Handoff, category, body, now))
  {
    AskedIffRepeats(s, body);
  }

  // ─── Texts that are written ──────────────────────────────

  /** A text the office has to see: some open request of the chat has it written. */
  predicate Written(s: State, text: string) {
    exists m | m in s.matters :: OpenHandoff(m) && m.body.Some? && Contains(m.body.value, text)
  }

  /** The join finds its row. */
  predicate Joins(s: State, e: Event) {
    e.JoinMatter? && e.id < |s.matters| && s.matters[e.id].kind.Handoff?
  }

  /** The request at a position has the text written, open or not. */
  predicate Recorded(s: State, id: nat, text: string) {
    && id < |s.matters| && s.matters[id].kind.Handoff?
    && s.matters[id].body.Some? && Contains(s.matters[id].body.value, text)
  }

  /** Some other open request has the text written. */
  predicate WrittenElsewhere(s: State, id: nat, text: string) {
    exists i | 0 <= i < |s.matters| && i != id :: OpenHandoff(s.matters[i]) && Recorded(s, i, text)
  }

  lemma WrittenIsRecorded(s: State, text: string)
    ensures Written(s, text) <==> exists i | 0 <= i < |s.matters| :: OpenHandoff(s.matters[i]) && Recorded(s, i, text)
  {
    if Written(s, text) {
      var m :| m in s.matters && OpenHandoff(m) && m.body.Some? && Contains(m.body.value, text);
      var i :| 0 <= i < |s.matters| && s.matters[i] == m;
      assert Recorded(s, i, text);
    }
    if i :| 0 <= i < |s.matters| && OpenHandoff(s.matters[i]) && Recorded(s, i, text) {
      assert s.matters[i] in s.matters;
    }
  }

  // ─── One join ────────────────────────────────────────────

  lemma JoinWrites(s: State, e: Event, i: nat)
    requires Joins(s, e) && i < |s.matters|
    ensures |Step(s, e).matters| == |s.matters|
    ensures i != e.id ==> Step(s, e).matters[i] == s.matters[i]
    ensures i == e.id ==> OpenHandoff(Step(s, e).matters[i])
                          && Step(s, e).matters[i].body == Some(JoinedBody(e.seen.body, e.text))
  {
  }

  /**
   * Whatever the join read: afterwards a text is written exactly when the row read and the new text hold it, or
   * another open request does.
   */
  lemma JoinKeepsTextIff(s: State, e: Event, earlier: string)
    requires Joins(s, e)
    ensures Written(Step(s, e), earlier) <==>
            Contains(JoinedBody(e.seen.body, e.text), earlier) || WrittenElsewhere(s, e.id, earlier)
  {
    var t := Step(s, e);
    WrittenIsRecorded(t, earlier);
    JoinWrites(s, e, e.id);
    if i :| 0 <= i < |t.matters| && OpenHandoff(t.matters[i]) && Recorded(t, i, earlier) {
      JoinWrites(s, e, i);
      assert i != e.id ==> Recorded(s, i, earlier);
    }
    if Contains(JoinedBody(e.seen.body, e.text), earlier) {
      assert Recorded(t, e.id, earlier);
    }
    if i :| 0 <= i < |s.matters| && i != e.id && OpenHandoff(s.matters[i]) && Recorded(s, i, earlier) {
      JoinWrites(s, e, i);
      assert Recorded(t, i, earlier);
    }
  }

  /** The joined request had a text of its own to lose. */
  predicate HoldsText(s: State, id: nat) {
    id < |s.matters| && OpenHandoff(s.matters[id]) && s.matters[id].body.Some?
  }

  /** A join loses no text at all exactly when the text its row had by then is in what it writes, or in another open request. */
  lemma JoinLosesNothingIff(s: State, e: Event)
    requires Joins(s, e)
    ensures (forall earlier :: Written(s, earlier) ==> Written(Step(s, e), earlier)) <==>
            (HoldsText(s, e.id) ==>
               || Contains(JoinedBody(e.seen.body, e.text), s.matters[e.id].body.value)
               || WrittenElsewhere(s, e.id, s.matters[e.id].body.value))
  {
    if HoldsText(s, e.id) {
      var body := s.matters[e.id].body.value;
      ContainsItself(body);
      assert Recorded(s, e.id, body);
      WrittenIsRecorded(s, body);
      JoinKeepsTextIff(s, e, body);
      if Contains(JoinedBody(e.seen.body, e.text), body) || WrittenElsewhere(s, e.id, body) {
        forall earlier | Written(s, earlier)
          ensures Written(Step(s, e), earlier)
        {
          KeptThroughBody(s, e, earlier);
        }
      }
    } else {
      forall earlier | Written(s, earlier)
        ensures Written(Step(s, e), earlier)
      {
        WrittenIsRecorded(s, earlier);
        JoinKeepsTextIff(s, e, earlier);
      }
    }
  }

  lemma KeptThroughBody(s: State, e: Event, earlier: string)
    requires Joins(s, e) && HoldsText(s, e.id) && Written(s, earlier)
    requires var body := s.matters[e.id].body.value;
             Contains(JoinedBody(e.seen.body, e.text), body) || WrittenElsewhere(s, e.id, body)
    ensures Written(Step(s, e), earlier)
  {
    var body := s.matters[e.id].body.value;
    WrittenIsRecorded(s, earlier);
    JoinKeepsTextIff(s, e, earlier);
    var i :| 0 <= i < |s.matters| && OpenHandoff(s.matters[i]) && Recorded(s, i, earlier);
    if i == e.id {
      if Contains(JoinedBody(e.seen.body, e.text), body) {
        ContainsThrough(JoinedBody(e.seen.body, e.text), body, earlier);
      } else {
        var k :| 0 <= k < |s.matters| && k != e.id && OpenHandoff(s.matters[k]) && Recorded(s, k, body);
        ContainsThrough(s.matters[k].body.value, body, earlier);
        assert Recorded(s, k, earlier);
      }
    }
  }

  /** A join that read the text its row still has keeps every text, and writes its own. */
  lemma CurrentJoinLosesNothing(s: State, e: Event, earlier: string)
    requires Joins(s, e) && e.seen.body == s.matters[e.id].body
    ensures Written(Step(s, e), e.text)
    ensures Written(s, earlier) ==> Written(Step(s, e), earlier)
  {
    JoinedContains(e.seen.body, e.text);
    JoinKeepsTextIff(s, e, e.text);
    JoinLosesNothingIff(s, e);
  }

  // ─── Every run ───────────────────────────────────────────

  /** Nothing else was joined to the request between the reading and the writing. */
  predicate Undisturbed(events: seq<Event>, id: nat, read: nat, write: nat) {
    forall k | read <= k < write && k < |events| :: !(events[k].JoinMatter? && events[k].id == id)
  }

  /** The join at a position took its row from the state after `read` events, and no join of that row came in between. */
  predicate ReadsUndisturbed(start: Time, events: seq<Event>, write: nat, read: nat)
    requires write < |events| && events[write].JoinMatter?
  {
    && read <= write && events[write].id < |Run(NewChat(start), events[..read]).matters|
    && events[write].seen == Run(NewChat(start), events[..read]).matters[events[write].id]
    && Undisturbed(events, events[write].id, read, write)
  }

  predicate JoinsUndisturbed(start: Time, events: seq<Event>, readings: seq<nat>) {
    |readings| == |events| && forall i | 0 <= i < |events| && events[i].JoinMatter? :: ReadsUndisturbed(start, events, i, readings[i])
  }

  lemma StepKeepsText(s: State, e: Event, id: nat)
    requires id < |s.matters| && !(e.JoinMatter? && e.id == id)
    ensures id < |Step(s, e).matters| && Step(s, e).matters[id].kind == s.matters[id].kind
    ensures s.matters[id].kind.Handoff? ==> Step(s, e).matters[id].body == s.matters[id].body
  {
  }

  lemma {:induction false} TextStays(start: Time, events: seq<Event>, id: nat, read: nat, write: nat)
    requires read <= write <= |events| && Undisturbed(events, id, read, write)
    requires id < |Run(NewChat(start), events[..read]).matters|
    ensures var before, after := Run(NewChat(start), events[..read]), Run(NewChat(start), events[..write]);
            && id < |after.matters| && after.matters[id].kind == before.matters[id].kind
            && (before.matters[id].kind.Handoff? ==> after.matters[id].body == before.matters[id].body)
    decreases write - read
  {
    if read < write {
      TextStays(start, events, id, read, write - 1);
      RunStep(NewChat(start), events, write - 1);
      StepKeepsText(Run(NewChat(start), events[..write - 1]), events[write - 1], id);
    }
  }

  lemma StepKeepsRecorded(s: State, e: Event, id: nat, text: string)
    requires Recorded(s, id, text)
    requires e.JoinMatter? && e.id == id ==> e.seen.body == s.matters[id].body
    ensures Recorded(Step(s, e), id, text)
  {
    if e.JoinMatter? && e.id == id {
      JoinWrites(s, e, id);
      JoinedContains(e.seen.body, e.text);
      ContainsThrough(JoinedBody(e.seen.body, e.text), s.matters[id].body.value, text);
    } else {
      StepKeepsText(s, e, id);
    }
  }

  lemma ReadsTheLatest(start: Time, events: seq<Event>, readings: seq<nat>, id: nat, k: nat)
    requires JoinsUndisturbed(start, events, readings) && k < |events| && events[k].JoinMatter? && events[k].id == id
    requires id < |Run(NewChat(start), events[..k]).matters| && Run(NewChat(start), events[..k]).matters[id].kind.Handoff?
    ensures events[k].seen.body == Run(NewChat(start), events[..k]).matters[id].body
  {
    assert ReadsUndisturbed(start, events, k, readings[k]);
    TextStays(start, events, id, readings[k], k);
  }

  lemma RecordedNext(start: Time, events: seq<Event>, readings: seq<nat>, id: nat, text: string, k: nat)
    requires JoinsUndisturbed(start, events, readings) && k < |events|
    requires Recorded(Run(NewChat(start), events[..k]), id, text)
    ensures Recorded(Run(NewChat(start), events[..k + 1]), id, text)
  {
    if events[k].JoinMatter? && events[k].id == id {
      ReadsTheLatest(start, events, readings, id, k);
    }
    RunStep(NewChat(start), events, k);
    StepKeepsRecorded(Run(NewChat(start), events[..k]), events[k], id, text);
  }

  lemma {:induction false} RecordedStays(start: Time, events: seq<Event>, readings: seq<nat>, id: nat, text: string, i: nat, j: nat)
    requires JoinsUndisturbed(start, events, readings) && i <= j <= |events|
    requires Recorded(Run(NewChat(start), events[..i]), id, text)
    ensures Recorded(Run(NewChat(start), events[..j]), id, text)
    decreases j - i
  {
    if i < j {
      RecordedStays(start, events, readings, id, text, i, j - 1);
      RecordedNext(start, events, readings, id, text, j - 1);
    }
  }

  /** The request an event writes its text in, when it writes one. */
  function Writes(s: State, e: Event): Option<(nat, string)> {
    match e
    case CreateMatter(Handoff, _, Some(text), _) => Some((|s.matters|, text))
    case JoinMatter(id, _, _, text, _) => if Joins(s, e) then Some((id, text)) else None
    case _ => None
  }

  lemma WritesIt(s: State, e: Event)
    requires Writes(s, e).Some?
    ensures Recorded(Step(s, e), Writes(s, e).value.0, Writes(s, e).value.1)
  {
    var (id, text) := Writes(s, e).value;
    ContainsItself(text);
    if e.JoinMatter? {
      JoinWrites(s, e, id);
      JoinedContains(e.seen.body, text);
    }
  }

  /**
   * In every interleaving in which no join of a request falls between another's reading and writing of it, every text
   * a customer ever sent to the office is still in its request at the end, whatever else happened to it.
   */
  lemma NoTextIsLost(start: Time, events: seq<Event>, readings: seq<nat>, i: nat)
    requires JoinsUndisturbed(start, events, readings) && i < |events|
    requires Writes(Run(NewChat(start), events[..i]), events[i]).Some?
    ensures var (id, text) := Writes(Run(NewChat(start), events[..i]), events[i]).value;
            Recorded(Run(NewChat(start), events), id, text)
  {
    var s := Run(NewChat(start), events[..i]);
    var (id, text) := Writes(s, events[i]).value;
    WritesIt(s, events[i]);
    RunStep(NewChat(start), events, i);
    RecordedStays(start, events, readings, id, text, i + 1, |events|);
    assert events[..|events|] == events;
  }

  /** Two texts joined at the same moment from the same reading: the second write drops the first text. */
  lemma ConcurrentJoinsLoseAText()
    ensures var s := Step(NewChat(0), CreateMatter(Handoff, Other, Some("a"), 1));
            var read := s.matters[0];
            var t := Step(Step(s, JoinMatter(0, read, Other, "b", 2)), JoinMatter(0, read, Other, "c", 2));
            t.matters[0].body == Some("a" + "\n\n" + "c")
  {
  }

  // ─── Recording, whatever its storage calls do ────────────

  lemma CreatedKeeps(s: State, body: Option<string>, category: Category, now: Time, o: Outcome, earlier: string)
    ensures Written(s, earlier) ==> Written(Created(s, body, category, now, o), earlier)
    ensures o.Applied() && body.Some? ==> Written(Created(s, body, category, now, o), body.value)
  {
    var t := Created(s, body, category, now, o);
    assert forall m | m in s.matters :: m in t.matters;
    if o.Applied() && body.Some? {
      assert t.matters[|s.matters|] in t.matters;
      ContainsItself(body.value);
    }
  }

  lemma JoinedToKeeps(s: State, id: nat, body: string, category: Category, now: Time, o: Outcome, earlier: string)
    requires id < |s.matters| && OpenHandoff(s.matters[id])
    ensures Written(s, earlier) ==> Written(JoinedTo(s, id, body, category, now, o), earlier)
    ensures o.Applied() ==> Written(JoinedTo(s, id, body, category, now, o), body)
  {
    CurrentJoinLosesNothing(s, JoinMatter(id, s.matters[id], category, body, now), earlier);
  }

  lemma NothingToAdd(s: State, body: Option<string>, category: Category, now: Time)
    requires body.Some? && body.value != ""
    requires Repeats(s, body) || (Joinable(s, category, now).Some? && !Adds(s.matters[Joinable(s, category, now).value], body))
    ensures Written(s, body.value)
  {
    if Repeats(s, body) {
      var m :| m in s.matters && OpenHandoff(m) && m.body == body;
      ContainsItself(body.value);
    } else {
      assert s.matters[Joinable(s, category, now).value] in s.matters;
    }
  }

  lemma JoinLosesNoText(s: State, body: Option<string>, category: Category, now: Time, calls: Calls, earlier: string)
    ensures var (t, settled) := AfterJoin(s, body, category, now, calls);
            && (Written(s, earlier) ==> Written(t, earlier))
            && (settled && body.Some? && body.value != "" ==> Written(t, body.value))
  {
    var open := Joinable(s, category, now);
    if !calls.find.Threw() && open.Some? {
      if Adds(s.matters[open.value], body) {
        JoinedToKeeps(s, open.value, body.value, category, now, calls.update, earlier);
      } else if body.Some? && body.value != "" {
        NothingToAdd(s, body, category, now);
      }
    }
  }

  /**
   * Alone, whatever its storage calls do, recording a request loses no text already written; and it leaves its own
   * written too, unless the last call, that opens a new request, was refused.
   */
  lemma HandoffLosesNoText(s: State, body: Option<string>, category: Category, now: Time, calls: Calls, earlier: string)
    ensures Written(s, earlier) ==> Written(AfterHandoff(s, body, category, now, calls), earlier)
    ensures body.Some? && body.value != "" && calls.create.Applied()
            ==> Written(AfterHandoff(s, body, category, now, calls), body.value)
  {
    if !calls.repeat.Threw() && Repeats(s, body) {
      if body.Some? && body.value != "" {
        NothingToAdd(s, body, category, now);
      }
    } else {
      JoinLosesNoText(s, body, category, now, calls, earlier);
      CreatedKeeps(AfterJoin(s, body, category, now, calls).0, body, category, now, calls.create, earlier);
    }
  }
}
