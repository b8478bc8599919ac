/** The inactivity goodbye: one silence is claimed once. */
module ChatGoodbye {
  import opened Wrappers
  import opened Chat
  import opened ChatActivity

  /** Between two claims of the chat somebody wrote, and a whole timeout of silence followed. */
  predicate Spaced(s: State, timeout: Time) {
    forall i | 1 <= i < |s.claims| :: SpacedAt(s, timeout, i)
  }

  predicate SpacedAt(s: State, timeout: Time, i: nat)
    requires 1 <= i < |s.claims|
  {
    WrittenIn(s, s.claims[i - 1], s.claims[i] - timeout)
  }

  /** What is known of the last claim: the row cannot be due again before somebody writes after it. */
  predicate Rearms(s: State, timeout: Time, now: Time) {
    s.claims != [] ==>
      var last := s.claims[|s.claims| - 1];
      && last <= now
      && (s.chat.warnedAt.None? && s.chat.lastMessageAt.Some? ==> last <= s.chat.lastMessageAt.value)
      && (s.sweeps != [] ==> WrittenIn(s, last, s.sweeps[0] - timeout))
  }

  predicate Armed(s: State, timeout: Time, now: Time) {
    && |s.sweeps| <= 1 && (s.sweeps != [] ==> s.sweeps[0] <= now)
    && Remembers(s) && Rearms(s, timeout, now) && Spaced(s, timeout)
  }

  lemma ClaimsGrow(s: State, e: Event)
    ensures Step(s, e).claims == s.claims || (e.SweepClaim? && e.sweep < |s.sweeps| && Step(s, e).claims == s.claims + [e.now])
  {
  }

  lemma NewClaimIsSpaced(s: State, timeout: Time, now: Time, e: Event)
    requires Rearms(s, timeout, now) && s.claims != [] && s.sweeps != [] && s.sweeps[0] <= now <= e.now
    ensures WrittenIn(Step(s, e), s.claims[|s.claims| - 1], e.now - timeout)
  {
    var last := s.claims[|s.claims| - 1];
    StillWritten(s, e, last, s.sweeps[0] - timeout);
    WrittenWider(Step(s, e), last, s.sweeps[0] - timeout, last, e.now - timeout);
  }

  lemma OldClaimIsSpaced(s: State, timeout: Time, e: Event, i: nat)
    requires Spaced(s, timeout) && 1 <= i < |s.claims|
    ensures WrittenIn(Step(s, e), s.claims[i - 1], s.claims[i] - timeout)
  {
    assert SpacedAt(s, timeout, i);
    StillWritten(s, e, s.claims[i - 1], s.claims[i] - timeout);
  }

  lemma StepKeepsSpaced(s: State, timeout: Time, now: Time, e: Event)
    requires Armed(s, timeout, now) && now <= e.now
    ensures Spaced(Step(s, e), timeout)
  {
    var t := Step(s, e);
    ClaimsGrow(s, e);
    forall i | 1 <= i < |t.claims|
      ensures SpacedAt(t, timeout, i)
    {
      if i < |s.claims| {
        OldClaimIsSpaced(s, timeout, e, i);
      } else {
        NewClaimIsSpaced(s, timeout, now, e);
      }
    }
  }

  lemma FoundIsSilent(s: State, timeout: Time, now: Time, e: Event)
    requires Remembers(s) && Rearms(s, timeout, now) && now <= e.now
    requires e.SweepFind? && e.timeout == timeout && s.sweeps == []
    ensures Rearms(Step(s, e), timeout, e.now)
  {
    if s.claims != [] && Step(s, e).sweeps != [] {
      var l := s.chat.lastMessageAt.value;
      WrittenWider(Step(s, e), l, l, s.claims[|s.claims| - 1], e.now - timeout);
    }
  }

  lemma ClaimRearms(s: State, timeout: Time, e: Event)
    requires |s.sweeps| == 1 && e.SweepClaim? && e.sweep == 0
    ensures Rearms(Step(s, e), timeout, e.now)
  {
  }

  lemma OtherRearms(s: State, timeout: Time, now: Time, e: Event)
    requires Rearms(s, timeout, now) && now <= e.now && !e.SweepFind? && (e.SweepClaim? ==> e.sweep >= |s.sweeps|)
    ensures Rearms(Step(s, e), timeout, e.now)
  {
    var t := Step(s, e);
    assert t.claims == s.claims && t.sweeps == s.sweeps;
    if s.claims != [] && s.sweeps != [] {
      StillWritten(s, e, s.claims[|s.claims| - 1], s.sweeps[0] - timeout);
    }
  }

  lemma StepRearms(s: State, timeout: Time, now: Time, e: Event)
    requires |s.sweeps| <= 1 && Rearms(s, timeout, now) && now <= e.now && !e.SweepFind?
    ensures Rearms(Step(s, e), timeout, e.now)
  {
    if e.SweepClaim? && e.sweep < |s.sweeps| {
      ClaimRearms(s, timeout, e);
    } else {
      OtherRearms(s, timeout, now, e);
    }
  }

  lemma StepKeepsArmed(s: State, timeout: Time, now: Time, e: Event)
    requires Armed(s, timeout, now) && now <= e.now
    requires e.SweepFind? ==> e.timeout == timeout && s.sweeps == []
    ensures Armed(Step(s, e), timeout, e.now)
  {
    StepKeepsSpaced(s, timeout, now, e);
    StepKeepsRemembering(s, e);
    if e.SweepFind? {
      FoundIsSilent(s, timeout, now, e);
    } else {
      StepRearms(s, timeout, now, e);
    }
    SweepsStayFew(s, e);
  }

  lemma SweepsStayFew(s: State, e: Event)
    requires |s.sweeps| <= 1 && (e.SweepFind? ==> s.sweeps == [])
    ensures Step(s, e).sweeps == s.sweeps || Step(s, e).sweeps == [] || Step(s, e).sweeps == [e.now]
  {
  }

  lemma SpacedIsATimeoutApart(s: State, timeout: Time)
    requires Spaced(s, timeout)
    ensures forall i {:trigger s.claims[i]} | 1 <= i < |s.claims| :: s.claims[i] - s.claims[i - 1] >= timeout
  {
    forall i {:trigger s.claims[i]} | 1 <= i < |s.claims|
      ensures s.claims[i] - s.claims[i - 1] >= timeout
    {
      assert SpacedAt(s, timeout, i);
    }
  }

  /** Inactivity sweeps run one after another, all with the same timeout. */
  predicate OneSweepAtATime(start: Time, events: seq<Event>, timeout: Time) {
    forall i | 0 <= i < |events| && events[i].SweepFind? ::
      events[i].timeout == timeout && Run(NewChat(start), events[..i]).sweeps == []
  }

  /**
   * Whatever else interleaves with the two statements of a sweep, a chat is claimed at most once per silence: between
   * two claims somebody wrote (a stored goodbye does not count) and the chat then stayed silent for the whole timeout.
   */
  lemma {:induction false} OneGoodbyePerSilence(start: Time, events: seq<Event>, timeout: Time)
    requires InOrder(events) && forall e | e in events :: start <= e.now
    requires OneSweepAtATime(start, events, timeout)
    ensures Armed(Run(NewChat(start), events), timeout, Clock(start, events))
    ensures var s := Run(NewChat(start), events);
            forall i {:trigger s.claims[i]} | 1 <= i < |s.claims| :: s.claims[i] - s.claims[i - 1] >= timeout
  {
    if events != [] {
      var last := |events| - 1;
      forall i | 0 <= i < last && events[..last][i].SweepFind?
        ensures events[..last][i].timeout == timeout && Run(NewChat(start), events[..last][..i]).sweeps == []
      {
        assert events[..last][..i] == events[..i];
        assert events[i].SweepFind?;
      }
      OneGoodbyePerSilence(start, events[..last], timeout);
      NothingAfterClock(start, events);
      StepKeepsArmed(Run(NewChat(start), events[..last]), timeout, Clock(start, events[..last]), events[last]);
    }
    SpacedIsATimeoutApart(Run(NewChat(start), events), timeout);
  }

  // ─── Sweeps that overlap ─────────────────────────────────

  function LastClaim(s: State): Time
    requires s.claims != []
  {
    s.claims[|s.claims| - 1]
  }

  /** Sweeps that found the chat after it was last claimed: somebody had written since, and then nobody for a timeout. */
  predicate FindsAreSilences(s: State, timeout: Time)
    requires s.claims != []
  {
    forall k | 0 <= k < |s.sweeps| :: FindIsSilence(s, timeout, k)
  }

  predicate FindIsSilence(s: State, timeout: Time, k: nat)
    requires s.claims != [] && k < |s.sweeps|
  {
    LastClaim(s) < s.sweeps[k] ==> WrittenIn(s, LastClaim(s), s.sweeps[k] - timeout)
  }

  /** What any number of sweeps, claiming in any order, leave known of a chat. */
  predicate Tracked(s: State, timeout: Time, now: Time) {
    && Remembers(s) && (forall f | f in s.sweeps :: f <= now) && (forall c | c in s.claims :: c <= now)
    && (s.claims != [] ==>
          && (s.chat.warnedAt.None? && s.chat.lastMessageAt.Some? ==> LastClaim(s) <= s.chat.lastMessageAt.value)
          && FindsAreSilences(s, timeout))
  }

  lemma FindIsTracked(s: State, timeout: Time, now: Time, e: Event)
    requires Tracked(s, timeout, now) && now <= e.now && e.SweepFind? && e.timeout == timeout
    ensures Tracked(Step(s, e), timeout, e.now)
  {
    var t := Step(s, e);
    if s.claims != [] {
      forall k | 0 <= k < |t.sweeps|
        ensures FindIsSilence(t, timeout, k)
      {
        if k < |s.sweeps| {
          assert FindIsSilence(s, timeout, k);
        } else {
          var l := s.chat.lastMessageAt.value;
          WrittenWider(t, l, l, LastClaim(t), e.now - timeout);
        }
      }
    }
  }

  lemma ClaimIsTracked(s: State, timeout: Time, now: Time, e: Event)
    requires Tracked(s, timeout, now) && now <= e.now && e.SweepClaim? && e.sweep < |s.sweeps|
    ensures Tracked(Step(s, e), timeout, e.now)
  {
    var t := Step(s, e);
    assert t.claims == s.claims + [e.now];
    forall f | f in t.sweeps
      ensures f <= e.now
    {
      assert f in s.sweeps;
    }
    forall k | 0 <= k < |t.sweeps|
      ensures FindIsSilence(t, timeout, k)
    {
      assert t.sweeps[k] in t.sweeps;
    }
    StepKeepsRemembering(s, e);
  }

  lemma FindStays(s: State, timeout: Time, e: Event, k: nat)
    requires s.claims != [] && k < |s.sweeps| && FindIsSilence(s, timeout, k)
    requires Step(s, e).claims == s.claims && Step(s, e).sweeps == s.sweeps
    ensures FindIsSilence(Step(s, e), timeout, k)
  {
    if LastClaim(s) < s.sweeps[k] {
      StillWritten(s, e, LastClaim(s), s.sweeps[k] - timeout);
    }
  }

  lemma RowAfter(s: State, e: Event, claim: Time)
    requires claim <= e.now
    requires s.chat.warnedAt.None? && s.chat.lastMessageAt.Some? ==> claim <= s.chat.lastMessageAt.value
    ensures var t := Step(s, e); t.chat.warnedAt.None? && t.chat.lastMessageAt.Some? ==> claim <= t.chat.lastMessageAt.value
  {
  }

  lemma SweepsStay(s: State, e: Event)
    requires !e.SweepFind? && (e.SweepClaim? ==> e.sweep >= |s.sweeps|)
    ensures Step(s, e).claims == s.claims && Step(s, e).sweeps == s.sweeps
  {
  }

  lemma OtherIsTracked(s: State, timeout: Time, now: Time, e: Event)
    requires Tracked(s, timeout, now) && now <= e.now && !e.SweepFind? && (e.SweepClaim? ==> e.sweep >= |s.sweeps|)
    ensures Tracked(Step(s, e), timeout, e.now)
  {
    var t := Step(s, e);
    StepKeepsRemembering(s, e);
    SweepsStay(s, e);
    if s.claims != [] {
      assert LastClaim(s) in s.claims;
      RowAfter(s, e, LastClaim(s));
      forall k | 0 <= k < |t.sweeps|
        ensures FindIsSilence(t, timeout, k)
      {
        FindStays(s, timeout, e, k);
      }
    }
  }

  lemma StepTracks(s: State, timeout: Time, now: Time, e: Event)
    requires Tracked(s, timeout, now) && now <= e.now && (e.SweepFind? ==> e.timeout == timeout)
    ensures Tracked(Step(s, e), timeout, e.now)
  {
    if e.SweepFind? {
      FindIsTracked(s, timeout, now, e);
    } else if e.SweepClaim? && e.sweep < |s.sweeps| {
      ClaimIsTracked(s, timeout, now, e);
    } else {
      OtherIsTracked(s, timeout, now, e);
    }
  }

  predicate SameTimeout(events: seq<Event>, timeout: Time) {
    forall e | e in events && e.SweepFind? :: e.timeout == timeout
  }

  lemma {:induction false} EveryRunIsTracked(start: Time, events: seq<Event>, timeout: Time)
    requires InOrder(events) && (forall e | e in events :: start <= e.now) && SameTimeout(events, timeout)
    ensures Tracked(Run(NewChat(start), events), timeout, Clock(start, events))
  {
    if events != [] {
      var last := |events| - 1;
      EveryRunIsTracked(start, events[..last], timeout);
      NothingAfterClock(start, events);
      StepTracks(Run(NewChat(start), events[..last]), timeout, Clock(start, events[..last]), events[last]);
    }
  }

  /** The sweep claims the chat again, and a timeout has not passed since it found it. */
  predicate ClaimsAgain(s: State, e: Event) { e.SweepClaim? && e.sweep < |s.sweeps| && s.claims != [] }

  /** The chat was last claimed before this sweep found it. */
  predicate ClaimedBeforeFound(s: State, e: Event)
    requires ClaimsAgain(s, e)
  {
    LastClaim(s) < s.sweeps[e.sweep]
  }

  predicate Prompt(s: State, e: Event, timeout: Time)
    requires ClaimsAgain(s, e)
  {
    e.now < s.sweeps[e.sweep] + timeout
  }

  lemma NewSilenceIff(s: State, e: Event, timeout: Time, now: Time)
    requires timeout > 0 && Tracked(s, timeout, now) && now <= e.now && ClaimsAgain(s, e)
    ensures WrittenIn(s, LastClaim(s), s.sweeps[e.sweep] - timeout) <==> ClaimedBeforeFound(s, e)
    ensures Prompt(s, e, timeout) ==>
              (WrittenIn(Step(s, e), LastClaim(s), e.now - timeout) <==> ClaimedBeforeFound(s, e))
  {
    var found := s.sweeps[e.sweep];
    assert Step(s, e).messages == s.messages;
    if LastClaim(s) < found {
      assert found in s.sweeps && FindIsSilence(s, timeout, e.sweep);
      WrittenWider(Step(s, e), LastClaim(s), found - timeout, LastClaim(s), e.now - timeout);
    }
  }

  /** A step writes nothing that counts before it. */
  lemma NoneWrittenBefore(s: State, e: Event, from: Time, to: Time)
    requires to < e.now
    ensures WrittenIn(Step(s, e), from, to) <==> WrittenIn(s, from, to)
  {
    StepSays(s, e);
    if WrittenIn(s, from, to) {
      StillWritten(s, e, from, to);
    }
  }

  lemma OldSpacing(s: State, timeout: Time, now: Time, e: Event, i: nat)
    requires timeout > 0 && Tracked(s, timeout, now) && now <= e.now && 1 <= i < |s.claims|
    ensures 1 <= i < |Step(s, e).claims| && (SpacedAt(Step(s, e), timeout, i) <==> SpacedAt(s, timeout, i))
  {
    assert s.claims[i] in s.claims;
    ClaimsGrow(s, e);
    NoneWrittenBefore(s, e, s.claims[i - 1], s.claims[i] - timeout);
  }

  lemma SpacedNextIff(s: State, timeout: Time, now: Time, e: Event)
    requires timeout > 0 && Tracked(s, timeout, now) && now <= e.now && (ClaimsAgain(s, e) ==> Prompt(s, e, timeout))
    ensures Spaced(Step(s, e), timeout) <==> Spaced(s, timeout) && (ClaimsAgain(s, e) ==> ClaimedBeforeFound(s, e))
  {
    var t := Step(s, e);
    ClaimsGrow(s, e);
    forall i | 1 <= i < |s.claims|
      ensures SpacedAt(t, timeout, i) <==> SpacedAt(s, timeout, i)
    {
      OldSpacing(s, timeout, now, e, i);
    }
    if ClaimsAgain(s, e) {
      NewSilenceIff(s, e, timeout, now);
      assert SpacedAt(t, timeout, |s.claims|) <==> ClaimedBeforeFound(s, e);
    }
  }

  /** A sweep claims what it found before a timeout passes. */
  predicate PromptClaims(start: Time, events: seq<Event>, timeout: Time) {
    forall n | 0 <= n < |events| :: PromptAt(start, events, timeout, n)
  }

  predicate PromptAt(start: Time, events: seq<Event>, timeout: Time, n: nat)
    requires n < |events|
  {
    var s := Run(NewChat(start), events[..n]);
    ClaimsAgain(s, events[n]) ==> Prompt(s, events[n], timeout)
  }

  /** No sweep claims the chat after another claimed it since the first one found it. */
  predicate NoClaimOverlaps(start: Time, events: seq<Event>) {
    forall n | 0 <= n < |events| :: NoOverlapAt(start, events, n)
  }

  predicate NoOverlapAt(start: Time, events: seq<Event>, n: nat)
    requires n < |events|
  {
    var s := Run(NewChat(start), events[..n]);
    ClaimsAgain(s, events[n]) ==> ClaimedBeforeFound(s, events[n])
  }

  lemma NoOverlapNext(start: Time, events: seq<Event>)
    requires events != []
    ensures NoClaimOverlaps(start, events) <==>
            NoClaimOverlaps(start, events[..|events| - 1]) && NoOverlapAt(start, events, |events| - 1)
  {
    var front := events[..|events| - 1];
    forall n | 0 <= n < |front|
      ensures NoOverlapAt(start, front, n) <==> NoOverlapAt(start, events, n)
    {
      assert front[..n] == events[..n];
    }
  }

  lemma PromptBefore(start: Time, events: seq<Event>, timeout: Time)
    requires events != [] && PromptClaims(start, events, timeout)
    ensures PromptClaims(start, events[..|events| - 1], timeout) && PromptAt(start, events, timeout, |events| - 1)
  {
    var front := events[..|events| - 1];
    forall n | 0 <= n < |front|
      ensures PromptAt(start, front, timeout, n)
    {
      assert front[..n] == events[..n] && PromptAt(start, events, timeout, n);
    }
  }

  /**
   * With any number of sweeps overlapping, their claims in any order: between every two claims of the chat somebody
   * wrote and a whole timeout of silence followed, exactly when each claim was made by a sweep that found the chat
   * after it was last claimed.
   */
  lemma {:induction false} OneGoodbyePerSilenceIff(start: Time, events: seq<Event>, timeout: Time)
    requires InOrder(events) && (forall e | e in events :: start <= e.now)
    requires timeout > 0 && SameTimeout(events, timeout) && PromptClaims(start, events, timeout)
    ensures Spaced(Run(NewChat(start), events), timeout) <==> NoClaimOverlaps(start, events)
  {
    if events != [] {
      var last := |events| - 1;
      PromptBefore(start, events, timeout);
      OneGoodbyePerSilenceIff(start, events[..last], timeout);
      EveryRunIsTracked(start, events[..last], timeout);
      NothingAfterClock(start, events);
      SpacedNextIff(Run(NewChat(start), events[..last]), timeout, Clock(start, events[..last]), events[last]);
      NoOverlapNext(start, events);
    }
  }

  /** Each claim on its own: it is of a new silence exactly when the chat was last claimed before this sweep found it. */
  lemma ClaimsANewSilenceIff(start: Time, events: seq<Event>, timeout: Time, claim: Event)
    requires InOrder(events) && (forall e | e in events :: start <= e.now) && Clock(start, events) <= claim.now
    requires timeout > 0 && SameTimeout(events, timeout)
    requires ClaimsAgain(Run(NewChat(start), events), claim)
    ensures var s := Run(NewChat(start), events);
            && (WrittenIn(s, LastClaim(s), s.sweeps[claim.sweep] - timeout) <==> ClaimedBeforeFound(s, claim))
            && (Prompt(s, claim, timeout) ==>
                  (WrittenIn(Step(s, claim), LastClaim(s), claim.now - timeout) <==> ClaimedBeforeFound(s, claim)))
  {
    EveryRunIsTracked(start, events, timeout);
    NewSilenceIff(Run(NewChat(start), events), claim, timeout, Clock(start, events));
  }

  // ─── When a chat is due ──────────────────────────────────

  /** What starts a new silence: a message of the customer, the bot or the phone app; a reply from the panel does not. */
  predicate Rearming(m: Message) { !m.kept && !m.writer.Agent? }

  predicate RearmedSince(s: State, claim: Time) { exists m | m in s.messages :: Rearming(m) && m.at > claim }

  /** The row says it was warned exactly while nothing rearmed it after the last claim. */
  predicate WarnedIsClaimed(s: State) {
    s.chat.warnedAt.Some? <==> s.claims != [] && !RearmedSince(s, LastClaim(s))
  }

  predicate FromWebhook(e: Event) { e.SaveMessage? ==> !e.writer.Office() }

  lemma RearmedNext(s: State, e: Event, claim: Time)
    ensures RearmedSince(Step(s, e), claim) <==> RearmedSince(s, claim) || exists m | m in Said(e) :: Rearming(m) && m.at > claim
  {
    StepSays(s, e);
    assert forall m | m in s.messages :: m in Step(s, e).messages;
  }

  lemma StepKeepsWarned(s: State, now: Time, e: Event)
    requires WarnedIsClaimed(s) && now < e.now && FromWebhook(e) && !e.ResetSession?
    requires (forall c | c in s.claims :: c <= now) && (forall m | m in s.messages :: m.at <= now)
    ensures WarnedIsClaimed(Step(s, e))
  {
    ClaimsGrow(s, e);
    if s.claims != [] {
      assert LastClaim(s) in s.claims;
      RearmedNext(s, e, LastClaim(s));
    }
    if e.SaveMessage? || e.Echo? {
      assert Said(e)[0] in Said(e);
    }
  }

  lemma {:induction false} EveryRunWarnsWhatItClaimed(start: Time, events: seq<Event>, timeout: Time)
    requires StrictClock(events) && (forall e | e in events :: start <= e.now && FromWebhook(e))
    requires NoReset(events) && SameTimeout(events, timeout)
    ensures WarnedIsClaimed(Run(NewChat(start), events))
  {
    if events != [] {
      var last := |events| - 1;
      var front := events[..last];
      assert events[last] in events && forall e | e in front :: e in events;
      EveryRunWarnsWhatItClaimed(start, front, timeout);
      if front == [] {
        assert Run(NewChat(start), front) == NewChat(start);
        StepKeepsWarned(NewChat(start), events[last].now - 1, events[last]);
      } else {
        EveryRunIsTracked(start, front, timeout);
        EveryRunIsStamped(start, front);
        StepKeepsWarned(Run(NewChat(start), front), Clock(start, front), events[last]);
      }
    }
  }

  /**
   * A sweep selects a chat exactly when its number is attended by the bot, somebody wrote in it, nobody for the whole
   * timeout, and the customer, the bot or the phone wrote since it was last claimed, if it ever was.
   */
  lemma SelectedIff(start: Time, events: seq<Event>, timeout: Time, reachable: bool, now: Time)
    requires StrictClock(events) && (forall e | e in events :: start <= e.now && FromWebhook(e))
    requires NoReset(events) && SameTimeout(events, timeout)
    ensures var s := Run(NewChat(start), events);
            Step(s, SweepFind(timeout, reachable, now)) ==
            if && reachable && (exists m | m in s.messages :: !m.kept)
               && !WrittenAfter(s, now - timeout)
               && (s.claims == [] || RearmedSince(s, LastClaim(s)))
            then s.(sweeps := s.sweeps + [now]) else s
  {
    var s := Run(NewChat(start), events);
    EveryRunWarnsWhatItClaimed(start, events, timeout);
    StampIsLastActivity(start, events, now - timeout);
    EveryRunRemembers(start, events);
    EveryRunIsStampedOnce(start, events);
    if s.chat.lastMessageAt.Some? {
      var m :| m in s.messages && !m.kept && s.chat.lastMessageAt.value <= m.at <= s.chat.lastMessageAt.value;
    }
  }

  /** Two sweeps that overlap claim the same silence twice. */
  lemma OverlappingSweepsClaimTwice(timeout: Time)
    requires timeout >= 0
    ensures var quiet := Step(NewChat(0), SaveMessage(Bot, false, 0));
            var found := Step(Step(quiet, SweepFind(timeout, true, timeout)), SweepFind(timeout, true, timeout));
            Step(Step(found, SweepClaim(0, timeout)), SweepClaim(0, timeout)).claims == [timeout, timeout]
  {
  }

  // ─── The sweep over the whole table ──────────────────────

  /** A chat once the sweep selected it, and once it claimed it too. */
  function Selected(s: State, timeout: Time, now: Time): State { Step(s, SweepFind(timeout, true, now)) }

  function Claimed(s: State, timeout: Time, now: Time, at: Time): State {
    var found := Selected(s, timeout, now);
    Step(found, SweepClaim(if found.sweeps == [] then 0 else |found.sweeps| - 1, at))
  }

  class BotService {
    // The conversations, as the table returns them, and whether each has a number whose bot is on.
    var conversations: seq<State>
    var reachable: seq<bool>

    ghost predicate Valid()
      reads this
    {
      |reachable| == |conversations|
    }

    ghost predicate Due(i: nat, timeout: Time, now: Time)
      reads this
      requires Valid() && i < |conversations|
    {
      reachable[i] && Idle(conversations[i].chat, timeout, now)
    }

    constructor (rows: seq<State>, on: seq<bool>)
      requires |on| == |rows|
      ensures Valid() && conversations == rows && reachable == on
    {
      conversations, reachable := rows, on;
    }

    /** At most `limit` silent chats, all of them when they are fewer. */
    method FindSilent(limit: nat, timeout: Time, now: Time) returns (found: seq<nat>)
      requires Valid()
      ensures |found| <= limit && forall k | 0 <= k < |found| :: found[k] < |conversations| && Due(found[k], timeout, now)
      ensures forall j, k | 0 <= j < k < |found| :: found[j] < found[k]
      ensures |found| < limit ==> forall i | 0 <= i < |conversations| && Due(i, timeout, now) :: i in found
    {
      found := [];
      for i := 0 to |conversations|
        invariant |found| <= limit
        invariant forall k | 0 <= k < |found| :: found[k] < i && Due(found[k], timeout, now)
        invariant forall j, k | 0 <= j < k < |found| :: found[j] < found[k]
        invariant |found| < limit ==> forall k | 0 <= k < i && Due(k, timeout, now) :: k in found
      {
        var c := conversations[i].chat;
        if |found| < limit && reachable[i] && c.warnedAt.None? && c.lastMessageAt.Some?
           && c.lastMessageAt.value <= now - timeout {
          found := found + [i];
        }
      }
    }

    /** A sweep that nothing interrupts claims every chat it found, and no other. */
    method ClaimPendingWarnings(limit: nat, timeout: Time, now: Time, at: Time) returns (found: seq<nat>)
      requires Valid()
      modifies this`conversations
      ensures Valid() && |found| <= limit && |conversations| == |old(conversations)|
      ensures forall i | i in found :: i < |conversations| && old(Due(i, timeout, now))
      ensures |found| < limit ==> forall i | 0 <= i < |conversations| && old(Due(i, timeout, now)) :: i in found
      ensures forall i | 0 <= i < |conversations| ::
                conversations[i] == if i in found then Claimed(old(conversations)[i], timeout, now, at)
                                    else old(conversations)[i]
    {
      found := FindSilent(limit, timeout, now);
      ghost var start := conversations;
      for k := 0 to |found|
        invariant |conversations| == |start|
        invariant forall i | 0 <= i < |start| ::
                    conversations[i] == if i in found[..k] then Claimed(start[i], timeout, now, at) else start[i]
      {
        var i, s := found[k], conversations[found[k]];
        assert i !in found[..k] && found[..k + 1] == found[..k] + [i];
        var selected := s.(sweeps := s.sweeps + [now]);
        conversations := conversations[i := selected.(chat := selected.chat.(warnedAt := Some(at)),
                                                      sweeps := s.sweeps, claims := selected.claims + [at])];
        assert conversations[i] == Claimed(start[i], timeout, now, at);
      }
      assert found[..|found|] == found;
    }
  }
}
