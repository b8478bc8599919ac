/** How many questions a person may ask: a sliding hour over the times of the accepted ones. */
module QuestionLimit {
  type Time = int
  type UserId = nat

  const HOUR_MS := 3_600_000
  const MAX_QUESTIONS_PER_HOUR := 60

  /** The times newer than `since`, in their order. */
  function Recent(times: seq<Time>, since: Time): (r: seq<Time>)
    ensures |r| <= |times|
  {
    if times == [] then [] else
      var last := |times| - 1;
      Recent(times[..last], since) + if times[last] > since then [times[last]] else []
  }

  /** Every question accepted, judged by the full history: fewer than the maximum in the hour before it. */
  function Accepted(times: seq<Time>): (r: seq<Time>)
    ensures |r| <= |times|
  {
    if times == [] then [] else
      var last := |times| - 1;
      var before := Accepted(times[..last]);
      if |Recent(before, times[last] - HOUR_MS)| < MAX_QUESTIONS_PER_HOUR then before + [times[last]] else before
  }

  /** How many of the times fall in the hour that starts at `from`. */
  function InHour(times: seq<Time>, from: Time): nat {
    if times == [] then 0 else
      var last := |times| - 1;
      InHour(times[..last], from) + if from <= times[last] < from + 3_600_000 then 1 else 0
  }

  lemma {:induction false} HourIsRecent(times: seq<Time>, from: Time, now: Time)
    requires now < from + HOUR_MS
    ensures InHour(times, from) <= |Recent(times, now - HOUR_MS)|
  {
    if times != [] {
      HourIsRecent(times[..|times| - 1], from, now);
    }
  }

  lemma AcceptedAppend(history: seq<Time>, now: Time)
    ensures Accepted(history + [now]) ==
            if |Recent(Accepted(history), now - HOUR_MS)| < MAX_QUESTIONS_PER_HOUR
            then Accepted(history) + [now] else Accepted(history)
  {
    assert (history + [now])[..|history|] == history;
  }

  lemma InHourAppend(times: seq<Time>, t: Time, from: Time)
    ensures InHour(times + [t], from) == InHour(times, from) + if from <= t < from + HOUR_MS then 1 else 0
  {
    assert (times + [t])[..|times|] == times;
  }

  lemma OneMoreInHour(before: seq<Time>, now: Time, from: Time)
    requires InHour(before, from) <= MAX_QUESTIONS_PER_HOUR
    requires |Recent(before, now - HOUR_MS)| < MAX_QUESTIONS_PER_HOUR
    ensures InHour(before + [now], from) <= MAX_QUESTIONS_PER_HOUR
  {
    InHourAppend(before, now, from);
    if from <= now < from + HOUR_MS {
      HourIsRecent(before, from, now);
    }
  }

  /** In any hour at all, at most 60 questions of a person are accepted. */
  lemma {:induction false} NoHourExceedsTheLimit(times: seq<Time>, from: Time)
    ensures InHour(Accepted(times), from) <= 60
  {
    if times != [] {
      var last := |times| - 1;
      var before := Accepted(times[..last]);
      NoHourExceedsTheLimit(times[..last], from);
      if |Recent(before, times[last] - HOUR_MS)| < MAX_QUESTIONS_PER_HOUR {
        OneMoreInHour(before, times[last], from);
      }
    }
  }

  predicate NotAfter(times: seq<Time>, now: Time) { forall t | t in times :: t <= now }

  /** The recent times are those of the hour that ends now. */
  lemma {:induction false} RecentIsTheHour(times: seq<Time>, now: Time)
    requires NotAfter(times, now)
    ensures |Recent(times, now - HOUR_MS)| == InHour(times, now - HOUR_MS + 1)
  {
    if times != [] {
      var last := |times| - 1;
      assert times[last] in times && forall t | t in times[..last] :: t in times;
      RecentIsTheHour(times[..last], now);
    }
  }

  lemma {:induction false} AcceptedWereAsked(times: seq<Time>, t: Time)
    requires t in Accepted(times)
    ensures t in times
  {
    var last := |times| - 1;
    if t != times[last] {
      AcceptedWereAsked(times[..last], t);
    }
  }

  /**
   * While time moves on, a question is accepted exactly when fewer than 60 were in the hour that ends with it; one older
   * than that counts no more.
   */
  lemma AcceptedIff(history: seq<Time>, now: Time)
    requires NotAfter(history, now)
    ensures Accepted(history + [now]) ==
            if InHour(Accepted(history), now - HOUR_MS + 1) < 60 then Accepted(history) + [now] else Accepted(history)
  {
    forall t | t in Accepted(history)
      ensures t <= now
    {
      AcceptedWereAsked(history, t);
    }
    RecentIsTheHour(Accepted(history), now);
    AcceptedAppend(history, now);
  }

  // ─── The list in memory ──────────────────────────────────

  lemma {:induction false} RecentAppend(times: seq<Time>, more: seq<Time>, since: Time)
    ensures Recent(times + more, since) == Recent(times, since) + Recent(more, since)
  {
    if more == [] {
      assert times + more == times;
    } else {
      var last := |more| - 1;
      assert (times + more)[..|times| + last] == times + more[..last];
      RecentAppend(times, more[..last], since);
    }
  }

  /** Dropping old times first loses nothing a later look needs. */
  lemma {:induction false} PrunedIsEnough(times: seq<Time>, early: Time, late: Time)
    requires early <= late
    ensures Recent(Recent(times, early), late) == Recent(times, late)
  {
    if times != [] {
      var last := |times| - 1;
      PrunedIsEnough(times[..last], early, late);
      RecentAppend(Recent(times[..last], early), if times[last] > early then [times[last]] else [], late);
      assert [times[last]][..0] == [];
    }
  }

  /** The kept list is the full history less some times that no later look reaches. */
  ghost predicate Stands(kept: seq<Time>, history: seq<Time>, now: Time) {
    exists since {:trigger Recent(history, since)} :: since <= now - HOUR_MS && kept == Recent(history, since)
  }

  /** The kept list finds the same recent times as the full history. */
  lemma KeptIsEnough(kept: seq<Time>, history: seq<Time>, before: Time, now: Time)
    requires Stands(kept, history, before) && before <= now
    ensures Recent(kept, now - HOUR_MS) == Recent(history, now - HOUR_MS)
  {
    var since :| since <= before - HOUR_MS && kept == Recent(history, since);
    PrunedIsEnough(history, since, now - HOUR_MS);
  }

  lemma PruneAndAdd(history: seq<Time>, now: Time)
    ensures Stands(Recent(history, now - HOUR_MS) + [now], history + [now], now)
  {
    assert (history + [now])[..|history|] == history;
    assert Recent(history + [now], now - HOUR_MS) == Recent(history, now - HOUR_MS) + [now];
  }

  lemma StandsLater(kept: seq<Time>, history: seq<Time>, before: Time, now: Time)
    requires Stands(kept, history, before) && before <= now
    ensures Stands(kept, history, now)
  {
  }

  /** A person's list, empty until they ask. */
  function Of(lists: map<UserId, seq<Time>>, user: UserId): seq<Time> {
    if user in lists then lists[user] else []
  }

  /** Everybody's list stands for the accepted part of what they asked. */
  ghost predicate AllStand(asked: map<UserId, seq<Time>>, questions: map<UserId, seq<Time>>, now: Time) {
    forall user :: Stands(Of(asked, user), Accepted(Of(questions, user)), now)
  }

  /** Nothing was asked later than now. */
  ghost predicate AllAskedBy(questions: map<UserId, seq<Time>>, now: Time) {
    forall user :: NotAfter(Of(questions, user), now)
  }

  lemma OneMoreAsked(questions: map<UserId, seq<Time>>, user: UserId, before: Time, now: Time)
    requires AllAskedBy(questions, before) && before <= now
    ensures AllAskedBy(questions[user := Of(questions, user) + [now]], now)
  {
    var after := questions[user := Of(questions, user) + [now]];
    forall u {:trigger Of(after, u)}
      ensures NotAfter(Of(after, u), now)
    {
      assert NotAfter(Of(questions, u), before);
    }
  }

  /** What the recent list decides is what the hour of accepted questions decides. */
  lemma HourDecides(asked: map<UserId, seq<Time>>, questions: map<UserId, seq<Time>>, user: UserId, before: Time, now: Time)
    requires AllStand(asked, questions, before) && AllAskedBy(questions, before) && before <= now
    ensures |Recent(Of(asked, user), now - HOUR_MS)| == InHour(Accepted(Of(questions, user)), now - HOUR_MS + 1)
  {
    SameDecision(asked, questions, user, before, now);
    var history := Of(questions, user);
    assert NotAfter(history, before);
    forall t | t in Accepted(history)
      ensures t <= now
    {
      AcceptedWereAsked(history, t);
    }
    RecentIsTheHour(Accepted(history), now);
  }

  /** A list changes only with its history, and both as they should; the others stand on. */
  lemma OneListChanges(asked: map<UserId, seq<Time>>, questions: map<UserId, seq<Time>>, user: UserId, before: Time,
                       kept: seq<Time>, history: seq<Time>, now: Time)
    requires AllStand(asked, questions, before) && before <= now
    requires Stands(kept, Accepted(history), now)
    ensures AllStand(asked[user := kept], questions[user := history], now)
  {
    var asked', questions' := asked[user := kept], questions[user := history];
    forall u {:trigger Of(asked', u)}
      ensures Stands(Of(asked', u), Accepted(Of(questions', u)), now)
    {
      assert Stands(Of(asked, u), Accepted(Of(questions, u)), before);
      StandsLater(Of(asked, u), Accepted(Of(questions, u)), before, now);
    }
  }

  lemma OnlyHistoryChanges(asked: map<UserId, seq<Time>>, questions: map<UserId, seq<Time>>, user: UserId, before: Time,
                           history: seq<Time>, now: Time)
    requires AllStand(asked, questions, before) && before <= now
    requires Stands(Of(asked, user), Accepted(history), now)
    ensures AllStand(asked, questions[user := history], now)
  {
    var questions' := questions[user := history];
    forall u {:trigger Of(asked, u)}
      ensures Stands(Of(asked, u), Accepted(Of(questions', u)), now)
    {
      assert Stands(Of(asked, u), Accepted(Of(questions, u)), before);
      StandsLater(Of(asked, u), Accepted(Of(questions, u)), before, now);
    }
  }

  /** What the kept list decides is what the full history decides, and it goes on standing for it. */
  lemma KeptDecides(kept: seq<Time>, history: seq<Time>, before: Time, now: Time)
    requires Stands(kept, Accepted(history), before) && before <= now
    ensures Recent(kept, now - HOUR_MS) == Recent(Accepted(history), now - HOUR_MS)
    ensures Stands(if |Recent(kept, now - HOUR_MS)| < MAX_QUESTIONS_PER_HOUR then Recent(kept, now - HOUR_MS) + [now] else kept,
                   Accepted(history + [now]), now)
  {
    KeptIsEnough(kept, Accepted(history), before, now);
    AcceptedAppend(history, now);
    PruneAndAdd(Accepted(history), now);
    StandsLater(kept, Accepted(history), before, now);
  }

  lemma StandsFor(asked: map<UserId, seq<Time>>, questions: map<UserId, seq<Time>>, user: UserId, now: Time)
    requires AllStand(asked, questions, now)
    ensures Stands(Of(asked, user), Accepted(Of(questions, user)), now)
  {
  }

  lemma SameDecision(asked: map<UserId, seq<Time>>, questions: map<UserId, seq<Time>>, user: UserId, before: Time, now: Time)
    requires AllStand(asked, questions, before) && before <= now
    ensures Recent(Of(asked, user), now - HOUR_MS) == Recent(Accepted(Of(questions, user)), now - HOUR_MS)
  {
    StandsFor(asked, questions, user, before);
    KeptDecides(Of(asked, user), Of(questions, user), before, now);
  }

  lemma OneMoreAccepted(asked: map<UserId, seq<Time>>, questions: map<UserId, seq<Time>>, user: UserId, before: Time, now: Time)
    requires AllStand(asked, questions, before) && before <= now
    requires |Recent(Of(asked, user), now - HOUR_MS)| < MAX_QUESTIONS_PER_HOUR
    ensures AllStand(asked[user := Recent(Of(asked, user), now - HOUR_MS) + [now]],
                     questions[user := Of(questions, user) + [now]], now)
  {
    var recent, history := Recent(Of(asked, user), now - HOUR_MS), Of(questions, user);
    StandsFor(asked, questions, user, before);
    KeptDecides(Of(asked, user), history, before, now);
    OneListChanges(asked, questions, user, before, recent + [now], history + [now], now);
  }

  lemma OneMoreRefused(asked: map<UserId, seq<Time>>, questions: map<UserId, seq<Time>>, user: UserId, before: Time, now: Time)
    requires AllStand(asked, questions, before) && before <= now
    requires |Recent(Of(asked, user), now - HOUR_MS)| >= MAX_QUESTIONS_PER_HOUR
    ensures AllStand(asked, questions[user := Of(questions, user) + [now]], now)
  {
    StandsFor(asked, questions, user, before);
    KeptDecides(Of(asked, user), Of(questions, user), before, now);
    OnlyHistoryChanges(asked, questions, user, before, Of(questions, user) + [now], now);
  }

  class AssistantService {
    var asked: map<UserId, seq<Time>>
    // What each person asked, and when: the history the decisions are about.
    ghost var questions: map<UserId, seq<Time>>

    constructor ()
      ensures asked == map[] && questions == map[]
    {
      asked, questions := map[], map[];
    }

    ghost predicate Valid(now: Time)
      reads this
    {
      AllStand(asked, questions, now) && AllAskedBy(questions, now)
    }

    /** A question is accepted exactly when fewer than 60 accepted ones, of all there ever were, lie in the hour that ends now. */
    method CountQuestion(user: UserId, now: Time, ghost before: Time) returns (accepted: bool)
      requires Valid(before) && before <= now
      modifies this
      ensures Valid(now) && questions == old(questions)[user := Of(old(questions), user) + [now]]
      ensures accepted <==> InHour(Accepted(Of(old(questions), user)), now - HOUR_MS + 1) < 60
      ensures forall other | other != user :: Of(asked, other) == Of(old(asked), other)
    {
      var recent := Recent(Of(asked, user), now - HOUR_MS);
      HourDecides(asked, questions, user, before, now);
      OneMoreAsked(questions, user, before, now);
      accepted := |recent| < MAX_QUESTIONS_PER_HOUR;
      if accepted {
        OneMoreAccepted(asked, questions, user, before, now);
        asked := asked[user := recent + [now]];
      } else {
        OneMoreRefused(asked, questions, user, before, now);
      }
      questions := questions[user := Of(questions, user) + [now]];
    }
  }
}
