/** A number at its plan's limit: what moves it on, how far, and when its pause ends. */
module PlanLimit {
  import opened Wrappers

  type Period = int

  datatype Plan = Plan(id: int, messages: int, isTrial: bool, isActive: bool)

  /** What of a number's row decides its limit and whether it is paused. */
  datatype NumberRow = NumberRow(
    planId: Option<int>, extraBlocks: int, extraBlocksPeriod: Option<Period>, upgraded: bool,
    pausedPeriod: Option<Period>, pauseConfirmed: bool)

  /** The catalog comes smallest first, with one row per id; every plan includes messages. */
  predicate ValidCatalog(catalog: seq<Plan>) {
    && (forall i, j | 0 <= i < j < |catalog| :: catalog[i].messages <= catalog[j].messages && catalog[i].id != catalog[j].id)
    && forall p | p in catalog :: p.messages >= 1
  }

  // ─── The limit a month is billed on ──────────────────────

  function FindPlan(catalog: seq<Plan>, id: int): Option<Plan> {
    if catalog == [] then None else if catalog[0].id == id then Some(catalog[0]) else FindPlan(catalog[1..], id)
  }

  function Paid(catalog: seq<Plan>): (r: seq<Plan>)
    ensures forall p | p in r :: p in catalog && p.isActive && !p.isTrial
    ensures forall p | p in catalog && p.isActive && !p.isTrial :: p in r
  {
    if catalog == [] then [] else
      (if catalog[0].isActive && !catalog[0].isTrial then [catalog[0]] else []) + Paid(catalog[1..])
  }

  function NotTrial(catalog: seq<Plan>): seq<Plan> {
    if catalog == [] then [] else (if catalog[0].isTrial then [] else [catalog[0]]) + NotTrial(catalog[1..])
  }

  /** The plan the number is on: the assigned one, while it holds, or the smallest paid one. */
  function AssignedPlan(planId: Option<int>, catalog: seq<Plan>, firstMonth: bool): Option<Plan> {
    var own := if planId.Some? then FindPlan(catalog, planId.value) else None;
    if own.Some? && (!own.value.isTrial || firstMonth) then own
    else if Paid(catalog) != [] then Some(Paid(catalog)[0])
    else if NotTrial(catalog) != [] then Some(NotTrial(catalog)[0])
    else None
  }

  function AcceptedBlocks(n: NumberRow, period: Period): int {
    if n.extraBlocksPeriod == Some(period) then n.extraBlocks else 0
  }

  /** A plan with nothing to multiply takes no blocks. */
  function WithBlocks(messages: int, blocks: int, blockMessages: int): int {
    if blocks <= 0 || messages <= 0 then messages else messages + blocks * blockMessages
  }

  /** How many messages the month includes; none when there is no plan to put the number on. */
  function LimitOf(n: NumberRow, catalog: seq<Plan>, period: Period, firstMonth: bool, blockMessages: int): Option<int> {
    var plan := AssignedPlan(n.planId, catalog, firstMonth);
    if plan.None? then None else Some(WithBlocks(plan.value.messages, AcceptedBlocks(n, period), blockMessages))
  }

  predicate LimitReached(limit: int, messages: int) { limit > 0 && messages >= limit }

  // ─── Answering at the limit ──────────────────────────────

  function Covering(paid: seq<Plan>, messages: int): Option<Plan> {
    if paid == [] then None else if paid[0].messages > messages then Some(paid[0]) else Covering(paid[1..], messages)
  }

  /** Enough blocks for what is over the plan, and one more. */
  function BlocksPast(over: int, block: int): int
    requires block > 0
  {
    over / block + 1
  }

  datatype Answer = NotPaused | NoPlans | Answered(row: NumberRow)

  /** The plan an answer moves the number to, with enough blocks when it does not cover the messages. */
  function MoveTo(n: NumberRow, plan: Plan, covers: bool, messages: int, period: Period, blockMessages: int): (row: NumberRow)
    requires blockMessages > 0
  {
    var moved :=
      if covers then n.(planId := Some(plan.id), extraBlocks := 0, extraBlocksPeriod := None)
      else n.(planId := Some(plan.id), extraBlocks := BlocksPast(messages - plan.messages, blockMessages),
              extraBlocksPeriod := Some(period));
    moved.(upgraded := true, pausedPeriod := None, pauseConfirmed := false)
  }

  /** "continue": the smallest plan with more messages, else the largest with the fewest blocks that go past them. */
  function Continue(n: NumberRow, catalog: seq<Plan>, messages: int, period: Period, blockMessages: int): Answer
    requires blockMessages > 0
  {
    if n.pausedPeriod != Some(period) then NotPaused else
      var paid := Paid(catalog);
      var covering := Covering(paid, messages);
      if covering.Some? then Answered(MoveTo(n, covering.value, true, messages, period, blockMessages))
      else if paid != [] then Answered(MoveTo(n, paid[|paid| - 1], false, messages, period, blockMessages))
      else NoPlans
  }

  /** "pause": the number stays paused until the month ends. */
  function StayPaused(n: NumberRow, period: Period): Answer {
    if n.pausedPeriod != Some(period) then NotPaused else Answered(n.(pauseConfirmed := true))
  }

  /** The SuperAdmin's choice: a paid plan replaces any block, and ends the pause when it is bigger than the month's messages. */
  function AssignPlan(n: NumberRow, plan: Plan, messages: int): NumberRow {
    var moved := n.(planId := Some(plan.id), upgraded := false, extraBlocks := 0, extraBlocksPeriod := None);
    if plan.messages > messages then moved.(pausedPeriod := None, pauseConfirmed := false) else moved
  }

  // ─── What the answers guarantee ──────────────────────────

  lemma {:induction false} FindPlanFinds(catalog: seq<Plan>, p: Plan)
    requires ValidCatalog(catalog) && p in catalog
    ensures FindPlan(catalog, p.id) == Some(p)
  {
    if catalog[0] != p {
      var i :| 0 < i < |catalog| && catalog[i] == p;
      assert catalog[1..][i - 1] == p;
      FindPlanFinds(catalog[1..], p);
    }
  }

  lemma {:induction false} PaidAscends(catalog: seq<Plan>)
    requires ValidCatalog(catalog)
    ensures AscendingPlans(Paid(catalog))
  {
    if catalog != [] {
      PaidAscends(catalog[1..]);
      forall p | p in Paid(catalog[1..])
        ensures catalog[0].messages <= p.messages
      {
        var k :| 0 <= k < |catalog[1..]| && catalog[1..][k] == p;
      }
    }
  }

  lemma {:induction false} CoveringIsSmallest(paid: seq<Plan>, messages: int)
    requires AscendingPlans(paid)
    ensures var c := Covering(paid, messages);
            && (c.Some? ==> c.value in paid && c.value.messages > messages
                            && forall p | p in paid && p.messages > messages :: c.value.messages <= p.messages)
            && (c.None? ==> forall p | p in paid :: p.messages <= messages)
  {
    if paid != [] && paid[0].messages <= messages {
      CoveringIsSmallest(paid[1..], messages);
    }
  }

  /** A limit on offer: one of the paid plans', or the largest one's with some blocks. */
  predicate Offered(paid: seq<Plan>, blockMessages: int, limit: int, blocks: nat)
    requires paid != []
  {
    (exists p | p in paid :: p.messages == limit) || (blocks > 0 && limit == paid[|paid| - 1].messages + blocks * blockMessages)
  }

  lemma SomeBlocks(over: int, block: int)
    requires over >= 0 && block > 0
    ensures BlocksPast(over, block) >= 1
  {
    FewestBlocks(over, block, 0);
  }

  lemma FewestBlocks(over: int, block: int, blocks: nat)
    requires over >= 0 && block > 0
    ensures BlocksPast(over, block) > 0
    ensures over < BlocksPast(over, block) * block
    ensures over < blocks * block ==> BlocksPast(over, block) * block <= blocks * block
  {
    var q := over / block;
    assert over == q * block + over % block;
    assert (q + 1) * block == q * block + block;
    if blocks <= q {
      MulMonotone(blocks, q, block);
    } else {
      MulMonotone(q + 1, blocks, block);
    }
  }

  lemma MulMonotone(a: int, b: int, c: int)
    requires a <= b && c > 0
    ensures a * c <= b * c
  {
  }

  predicate AscendingPlans(paid: seq<Plan>) {
    forall i, j | 0 <= i < j < |paid| :: paid[i].messages <= paid[j].messages
  }

  /** The plan an answer moves the number to, and the limit that gives it. */
  function Target(paid: seq<Plan>, messages: int): Plan
    requires paid != []
  {
    Covering(paid, messages).GetOr(paid[|paid| - 1])
  }

  function LimitOn(plan: Plan, covers: bool, messages: int, blockMessages: int): int
    requires blockMessages > 0
  {
    if covers then plan.messages
    else WithBlocks(plan.messages, BlocksPast(messages - plan.messages, blockMessages), blockMessages)
  }

  function TargetLimit(paid: seq<Plan>, messages: int, blockMessages: int): int
    requires paid != [] && blockMessages > 0
  {
    LimitOn(Target(paid, messages), Covering(paid, messages).Some?, messages, blockMessages)
  }

  /** A paid plan assigned by its id is the one the number is on. */
  lemma AssignedById(catalog: seq<Plan>, p: Plan, firstMonth: bool)
    requires ValidCatalog(catalog) && p in catalog && !p.isTrial
    ensures AssignedPlan(Some(p.id), catalog, firstMonth) == Some(p)
  {
    FindPlanFinds(catalog, p);
  }

  lemma TargetIsPaid(catalog: seq<Plan>, messages: int)
    requires ValidCatalog(catalog) && Paid(catalog) != []
    ensures Target(Paid(catalog), messages) in catalog && !Target(Paid(catalog), messages).isTrial
  {
    var paid := Paid(catalog);
    PaidAscends(catalog);
    CoveringIsSmallest(paid, messages);
    assert paid[|paid| - 1] in paid;
  }

  /** The row moved to a paid plan is billed on that plan, with the blocks it was moved with. */
  lemma LimitAfterMove(n: NumberRow, catalog: seq<Plan>, plan: Plan, covers: bool, messages: int, period: Period,
                       firstMonth: bool, blockMessages: int)
    requires ValidCatalog(catalog) && blockMessages > 0 && plan in catalog && !plan.isTrial
    ensures LimitOf(MoveTo(n, plan, covers, messages, period, blockMessages), catalog, period, firstMonth, blockMessages) ==
            Some(LimitOn(plan, covers, messages, blockMessages))
  {
    AssignedById(catalog, plan, firstMonth);
    var row := MoveTo(n, plan, covers, messages, period, blockMessages);
    assert AcceptedBlocks(row, period) == if covers then 0 else BlocksPast(messages - plan.messages, blockMessages);
  }

  lemma ContinueIsAMove(n: NumberRow, catalog: seq<Plan>, messages: int, period: Period, blockMessages: int)
    requires blockMessages > 0 && n.pausedPeriod == Some(period) && Paid(catalog) != []
    ensures var paid := Paid(catalog);
            Continue(n, catalog, messages, period, blockMessages) ==
            Answered(MoveTo(n, Target(paid, messages), Covering(paid, messages).Some?, messages, period, blockMessages))
  {
  }

  lemma LimitAfterContinue(n: NumberRow, catalog: seq<Plan>, messages: int, period: Period, firstMonth: bool, blockMessages: int)
    requires ValidCatalog(catalog) && blockMessages > 0
    requires n.pausedPeriod == Some(period) && Paid(catalog) != []
    ensures var answer := Continue(n, catalog, messages, period, blockMessages);
            && answer.Answered? && answer.row.pausedPeriod.None?
            && LimitOf(answer.row, catalog, period, firstMonth, blockMessages)
               == Some(TargetLimit(Paid(catalog), messages, blockMessages))
  {
    var paid := Paid(catalog);
    var plan, covers := Target(paid, messages), Covering(paid, messages).Some?;
    ContinueIsAMove(n, catalog, messages, period, blockMessages);
    TargetIsPaid(catalog, messages);
    LimitAfterMove(n, catalog, plan, covers, messages, period, firstMonth, blockMessages);
  }

  /** The limit is above the messages, whether a plan covers them or the largest takes blocks. */
  lemma TargetIsAbove(paid: seq<Plan>, messages: nat, blockMessages: int)
    requires AscendingPlans(paid) && paid != [] && blockMessages > 0 && forall p | p in paid :: p.messages >= 1
    ensures TargetLimit(paid, messages, blockMessages) > messages
  {
    CoveringIsSmallest(paid, messages);
    var largest := paid[|paid| - 1];
    assert largest in paid;
    if Covering(paid, messages).None? {
      FewestBlocks(messages - largest.messages, blockMessages, 0);
    }
  }

  /** No limit on offer above the messages is smaller. */
  lemma TargetIsLeast(paid: seq<Plan>, messages: int, blockMessages: int, other: int, blocks: nat)
    requires AscendingPlans(paid) && paid != [] && blockMessages > 0
    requires Offered(paid, blockMessages, other, blocks) && other > messages
    ensures TargetLimit(paid, messages, blockMessages) <= other
  {
    CoveringIsSmallest(paid, messages);
    var covering, largest := Covering(paid, messages), paid[|paid| - 1];
    assert largest in paid;
    if covering.None? {
      FewestBlocks(messages - largest.messages, blockMessages, blocks);
    } else if blocks > 0 {
      assert covering.value.messages <= largest.messages by {
        var k :| 0 <= k < |paid| && paid[k] == covering.value;
      }
      MulMonotone(0, blocks, blockMessages);
    }
  }

  /**
   * Continuing at the limit leaves the number unpaused on a limit strictly above the month's messages, so it does not
   * pause again for them, and on the least such limit on offer.
   */
  lemma ContinueEndsAboveAndLeast(n: NumberRow, catalog: seq<Plan>, messages: nat, period: Period, firstMonth: bool,
                                  blockMessages: int)
    requires ValidCatalog(catalog) && blockMessages > 0
    requires n.pausedPeriod == Some(period) && Paid(catalog) != []
    ensures var answer := Continue(n, catalog, messages, period, blockMessages);
            && answer.Answered? && answer.row.pausedPeriod.None?
            && var limit := LimitOf(answer.row, catalog, period, firstMonth, blockMessages);
               && limit.Some? && limit.value > messages && !LimitReached(limit.value, messages)
               && forall other, blocks: nat | Offered(Paid(catalog), blockMessages, other, blocks) && other > messages ::
                    limit.value <= other
  {
    LimitAfterContinue(n, catalog, messages, period, firstMonth, blockMessages);
    PaidAscends(catalog);
    TargetIsAbove(Paid(catalog), messages, blockMessages);
    forall other, blocks: nat | Offered(Paid(catalog), blockMessages, other, blocks) && other > messages
      ensures TargetLimit(Paid(catalog), messages, blockMessages) <= other
    {
      TargetIsLeast(Paid(catalog), messages, blockMessages, other, blocks);
    }
  }

  /** The SuperAdmin's choice puts the number on that plan's own limit, and ends the pause exactly when it exceeds the messages. */
  lemma AssignedPlanEndsThePauseOnlyAbove(n: NumberRow, catalog: seq<Plan>, plan: Plan, messages: nat, period: Period,
                                          firstMonth: bool, blockMessages: int)
    requires ValidCatalog(catalog) && plan in catalog && plan.isActive && !plan.isTrial
    requires n.pausedPeriod == Some(period)
    ensures var row := AssignPlan(n, plan, messages);
            && LimitOf(row, catalog, period, firstMonth, blockMessages) == Some(plan.messages)
            && (row.pausedPeriod.None? <==> plan.messages > messages)
  {
    FindPlanFinds(catalog, plan);
  }

  // ─── Which plan, which limit, which answer ───────────────

  predicate Holds(p: Plan, planId: Option<int>, firstMonth: bool) { planId == Some(p.id) && (!p.isTrial || firstMonth) }

  predicate OnSale(p: Plan) { p.isActive && !p.isTrial }

  predicate NoneHolds(catalog: seq<Plan>, planId: Option<int>, firstMonth: bool) {
    forall p | p in catalog :: !Holds(p, planId, firstMonth)
  }

  predicate NothingOnSale(catalog: seq<Plan>) { forall p | p in catalog :: !OnSale(p) }

  predicate SmallestOnSale(p: Plan, catalog: seq<Plan>) {
    p in catalog && OnSale(p) && forall q | q in catalog && OnSale(q) :: p.messages <= q.messages
  }

  predicate SmallestNoTrial(p: Plan, catalog: seq<Plan>) {
    p in catalog && !p.isTrial && forall q | q in catalog && !q.isTrial :: p.messages <= q.messages
  }

  lemma {:induction false} NotTrialFirst(catalog: seq<Plan>)
    requires ValidCatalog(catalog)
    ensures NotTrial(catalog) == [] ==> forall p | p in catalog :: p.isTrial
    ensures NotTrial(catalog) != [] ==> SmallestNoTrial(NotTrial(catalog)[0], catalog)
  {
    if catalog != [] {
      NotTrialFirst(catalog[1..]);
      forall p | p in catalog
        ensures p == catalog[0] || p in catalog[1..]
        ensures catalog[0].messages <= p.messages
      {
        var k :| 0 <= k < |catalog| && catalog[k] == p;
        assert k > 0 ==> catalog[1..][k - 1] == p;
      }
      assert forall p | p in catalog[1..] :: p in catalog;
    }
  }

  lemma {:induction false} PaidFirst(catalog: seq<Plan>)
    requires ValidCatalog(catalog) && Paid(catalog) != []
    ensures SmallestOnSale(Paid(catalog)[0], catalog)
  {
    var paid := Paid(catalog);
    PaidAscends(catalog);
    assert paid[0] in paid;
    forall q | q in catalog && OnSale(q)
      ensures paid[0].messages <= q.messages
    {
      var k :| 0 <= k < |paid| && paid[k] == q;
    }
  }

  lemma {:induction false} FoundIsHeld(catalog: seq<Plan>, id: int)
    ensures FindPlan(catalog, id).Some? ==> FindPlan(catalog, id).value in catalog && FindPlan(catalog, id).value.id == id
  {
    if catalog != [] && catalog[0].id != id {
      FoundIsHeld(catalog[1..], id);
    }
  }

  /** A number is on the plan it was given; a trial holds only in its first month. */
  lemma GivenPlanHolds(planId: Option<int>, catalog: seq<Plan>, firstMonth: bool, p: Plan)
    requires ValidCatalog(catalog) && p in catalog && Holds(p, planId, firstMonth)
    ensures AssignedPlan(planId, catalog, firstMonth) == Some(p)
  {
    FindPlanFinds(catalog, p);
  }

  /** Else it is on the smallest plan on sale, or the smallest that is no trial when none is, or on none at all. */
  lemma ElseTheSmallest(planId: Option<int>, catalog: seq<Plan>, firstMonth: bool)
    requires ValidCatalog(catalog) && NoneHolds(catalog, planId, firstMonth)
    ensures var plan := AssignedPlan(planId, catalog, firstMonth);
            && (plan.None? <==> forall p | p in catalog :: p.isTrial)
            && (plan.Some? && !NothingOnSale(catalog) ==> SmallestOnSale(plan.value, catalog))
            && (plan.Some? && NothingOnSale(catalog) ==> SmallestNoTrial(plan.value, catalog))
  {
    if planId.Some? {
      FoundIsHeld(catalog, planId.value);
    }
    NotTrialFirst(catalog);
    if Paid(catalog) != [] {
      PaidFirst(catalog);
    }
  }

  /** The month's limit is the plan's own messages, with the blocks accepted for that month and no other. */
  lemma LimitIsPlanAndBlocks(n: NumberRow, catalog: seq<Plan>, period: Period, firstMonth: bool, blockMessages: int)
    requires ValidCatalog(catalog)
    ensures var plan, limit := AssignedPlan(n.planId, catalog, firstMonth), LimitOf(n, catalog, period, firstMonth, blockMessages);
            && (limit.None? <==> plan.None?)
            && (plan.Some? && n.extraBlocksPeriod != Some(period) ==> limit.value == plan.value.messages)
            && (plan.Some? && n.extraBlocksPeriod == Some(period) && n.extraBlocks <= 0 ==> limit.value == plan.value.messages)
            && (plan.Some? && n.extraBlocksPeriod == Some(period) && n.extraBlocks > 0 ==>
                  limit.value - plan.value.messages == n.extraBlocks * blockMessages)
  {
    if p :| p in catalog && Holds(p, n.planId, firstMonth) {
      GivenPlanHolds(n.planId, catalog, firstMonth, p);
    } else {
      ElseTheSmallest(n.planId, catalog, firstMonth);
    }
  }

  /** A plan with no messages has no limit to reach; any other is reached at its last message. */
  lemma ReachedIff(limit: int, messages: int)
    ensures LimitReached(limit, messages) <==> limit >= 1 && messages - limit >= 0
  {
  }

  /** Only a number paused for this month is answered for, and only while some plan is on sale. */
  lemma ContinueAnswersIff(n: NumberRow, catalog: seq<Plan>, messages: int, period: Period, blockMessages: int)
    requires blockMessages > 0
    ensures var answer := Continue(n, catalog, messages, period, blockMessages);
            && (answer.NotPaused? <==> n.pausedPeriod != Some(period))
            && (answer.NoPlans? <==> n.pausedPeriod == Some(period) && NothingOnSale(catalog))
  {
    var paid := Paid(catalog);
    assert paid != [] ==> paid[0] in paid;
  }

  predicate SomeCovers(catalog: seq<Plan>, messages: int) { exists p | p in catalog :: OnSale(p) && p.messages > messages }

  lemma CoversIff(catalog: seq<Plan>, messages: int)
    requires ValidCatalog(catalog)
    ensures Covering(Paid(catalog), messages).Some? <==> SomeCovers(catalog, messages)
    ensures Covering(Paid(catalog), messages).None? && Paid(catalog) != [] ==>
              Paid(catalog)[|Paid(catalog)| - 1].messages <= messages
  {
    var paid := Paid(catalog);
    PaidAscends(catalog);
    CoveringIsSmallest(paid, messages);
    assert paid != [] ==> paid[|paid| - 1] in paid;
  }

  /** Moved by the office, no longer paused, with blocks of this month only where the plan does not cover the messages. */
  lemma MoveToWrites(n: NumberRow, plan: Plan, covers: bool, messages: int, period: Period, blockMessages: int)
    requires blockMessages > 0 && (!covers ==> plan.messages <= messages)
    ensures var row := MoveTo(n, plan, covers, messages, period, blockMessages);
            && row.planId == Some(plan.id) && row.upgraded && !row.pauseConfirmed && row.pausedPeriod.None?
            && (covers ==> row.extraBlocks == 0 && row.extraBlocksPeriod.None?)
            && (!covers ==> row.extraBlocks >= 1 && row.extraBlocksPeriod == Some(period))
  {
    if !covers {
      SomeBlocks(messages - plan.messages, blockMessages);
    }
  }

  lemma LargestIsLast(catalog: seq<Plan>)
    requires ValidCatalog(catalog) && Paid(catalog) != []
    ensures var paid := Paid(catalog);
            forall p | p in catalog && OnSale(p) :: p.messages <= paid[|paid| - 1].messages
  {
    var paid := Paid(catalog);
    PaidAscends(catalog);
    forall p | p in paid
      ensures p.messages <= paid[|paid| - 1].messages
    {
      var k :| 0 <= k < |paid| && paid[k] == p;
    }
  }

  /** The smallest plan on sale past the messages, and the largest on sale if none is. */
  lemma TargetIsOnSale(catalog: seq<Plan>, messages: int)
    requires ValidCatalog(catalog) && Paid(catalog) != []
    ensures var plan := Target(Paid(catalog), messages);
            && plan in catalog && OnSale(plan)
            && (SomeCovers(catalog, messages) ==>
                  plan.messages > messages && forall p | p in catalog && OnSale(p) && p.messages > messages :: plan.messages <= p.messages)
            && (!SomeCovers(catalog, messages) ==> forall p | p in catalog && OnSale(p) :: p.messages <= plan.messages <= messages)
  {
    var paid := Paid(catalog);
    CoversIff(catalog, messages);
    if SomeCovers(catalog, messages) {
      PaidAscends(catalog);
      CoveringIsSmallest(paid, messages);
    } else {
      LargestIsLast(catalog);
      assert paid[|paid| - 1] in paid;
    }
  }

  /** Continuing moves the number to it, with blocks when it does not cover the messages. */
  lemma ContinueMovesTo(n: NumberRow, catalog: seq<Plan>, messages: int, period: Period, blockMessages: int)
    requires ValidCatalog(catalog) && blockMessages > 0 && n.pausedPeriod == Some(period) && Paid(catalog) != []
    ensures Continue(n, catalog, messages, period, blockMessages) ==
            Answered(MoveTo(n, Target(Paid(catalog), messages), SomeCovers(catalog, messages), messages, period, blockMessages))
  {
    ContinueIsAMove(n, catalog, messages, period, blockMessages);
    CoversIff(catalog, messages);
  }

  /** Staying paused only confirms it. */
  lemma StayPausedWrites(n: NumberRow, period: Period)
    ensures StayPaused(n, period).NotPaused? <==> n.pausedPeriod != Some(period)
    ensures n.pausedPeriod == Some(period) ==>
              && StayPaused(n, period).Answered? && StayPaused(n, period).row.pauseConfirmed
              && StayPaused(n, period).row.(pauseConfirmed := n.pauseConfirmed) == n
  {
  }

  /** A plan assigned starts clean: its own limit, no blocks, no move of the office; the pause stays unless it covers the month. */
  lemma AssignPlanWrites(n: NumberRow, plan: Plan, messages: int)
    ensures var row := AssignPlan(n, plan, messages);
            && row.planId == Some(plan.id) && !row.upgraded && row.extraBlocks == 0 && row.extraBlocksPeriod.None?
            && (messages < plan.messages ==> row.pausedPeriod.None? && !row.pauseConfirmed)
            && (messages >= plan.messages ==> row.pausedPeriod == n.pausedPeriod && row.pauseConfirmed == n.pauseConfirmed)
  {
  }

  // ─── The service ─────────────────────────────────────────

  datatype Choice = Resume | StayOff
  datatype Reply = Settled(paused: bool) | NumberNotFound | PlanNotFound | TrialRefused | Conflict | NoPaidPlans

  /** The smallest paid plan with more messages, as the catalog is looked through. */
  method FindCovering(paid: seq<Plan>, messages: int) returns (covering: Option<Plan>)
    ensures covering == Covering(paid, messages)
  {
    var i := 0;
    while i < |paid|
      invariant i <= |paid| && Covering(paid, messages) == Covering(paid[i..], messages)
    {
      if paid[i].messages > messages {
        return Some(paid[i]);
      }
      assert paid[i..][1..] == paid[i + 1..];
      i := i + 1;
    }
    covering := None;
  }

  class BillingService {
    // The organization's numbers, and those with a limit notice still open.
    var numbers: map<int, NumberRow>
    var notices: set<int>

    constructor ()
      ensures numbers == map[] && notices == {}
    {
      numbers, notices := map[], {};
    }

    /** The office's answer: written, with its notices closed, only when the number is paused for this month. */
    method ResolveLimit(id: int, choice: Choice, catalog: seq<Plan>, messages: int, period: Period, blockMessages: int)
      returns (reply: Reply)
      requires blockMessages > 0
      modifies this
      ensures id !in old(numbers) ==> reply == NumberNotFound && numbers == old(numbers) && notices == old(notices)
      ensures id in old(numbers) ==>
                var n := old(numbers)[id];
                var answer := if choice.Resume? then Continue(n, catalog, messages, period, blockMessages)
                              else StayPaused(n, period);
                if answer.Answered?
                then reply == Settled(choice.StayOff?) && numbers == old(numbers)[id := answer.row] && notices == old(notices) - {id}
                else reply == (if answer.NotPaused? then Conflict else NoPaidPlans)
                     && numbers == old(numbers) && notices == old(notices)
    {
      if id !in numbers {
        return NumberNotFound;
      }
      var n := numbers[id];
      if n.pausedPeriod != Some(period) {
        return Conflict;
      }
      if choice.StayOff? {
        numbers := numbers[id := n.(pauseConfirmed := true)];
        notices := notices - {id};
        return Settled(true);
      }
      var paid := Paid(catalog);
      var covering := FindCovering(paid, messages);
      if covering.None? && paid == [] {
        return NoPaidPlans;
      }
      if covering.Some? {
        n := n.(planId := Some(covering.value.id), extraBlocks := 0, extraBlocksPeriod := None);
      } else {
        var largest := paid[|paid| - 1];
        n := n.(planId := Some(largest.id), extraBlocks := (messages - largest.messages) / blockMessages + 1,
                extraBlocksPeriod := Some(period));
      }
      numbers := numbers[id := n.(upgraded := true, pausedPeriod := None, pauseConfirmed := false)];
      notices := notices - {id};
      reply := Settled(false);
    }

    /** The SuperAdmin's choice: only an active paid plan is assigned, and the notices close only with the pause. */
    method AssignPlanTo(id: int, planId: int, catalog: seq<Plan>, messages: int) returns (reply: Reply)
      modifies this
      ensures var plan := FindPlan(catalog, planId);
              if id in old(numbers) && plan.Some? && plan.value.isActive && !plan.value.isTrial
              then reply.Settled? && numbers == old(numbers)[id := AssignPlan(old(numbers)[id], plan.value, messages)]
                   && notices == if plan.value.messages > messages then old(notices) - {id} else old(notices)
              else !reply.Settled? && numbers == old(numbers) && notices == old(notices)
    {
      if id !in numbers {
        return NumberNotFound;
      }
      var plan := FindPlan(catalog, planId);
      if plan.None? || !plan.value.isActive {
        return PlanNotFound;
      }
      if plan.value.isTrial {
        return TrialRefused;
      }
      var covers := plan.value.messages > messages;
      var n := numbers[id].(planId := Some(planId), upgraded := false, extraBlocks := 0, extraBlocksPeriod := None);
      FoundIsHeld(catalog, planId);
      if covers {
        n := n.(pausedPeriod := None, pauseConfirmed := false);
        notices := notices - {id};
      }
      numbers := numbers[id := n];
      reply := Settled(false);
    }
  }
}
