/** The monthly balance: records of the month credited to producer codes and added up per metric. */
module Balance {
  import opened Rounding
  import opened Wrappers

  type Code = int

  datatype Metric =
    | PoliciesInForce | PoliciesNew | PoliciesLost | PremiumInForce | DebtAmount | InstallmentsOverdue
    | InstallmentsRejected | ClaimsFiled | ClaimsOpen | BlockedNoPolicy | BlockedRejectedPayment | BlockedOverdue
    | QuotesBot | QuotesWeb | QuoteRequests | ContactLeads | RequestsClosed | Handoffs | ConversationsNew
    | MessagesSent | RejectionNoticesSent | ExpiryNoticesSent
  {
    /** Metrics of the state at the close, which a past month can no longer tell. */
    predicate MonthEnd() {
      PremiumInForce? || DebtAmount? || InstallmentsOverdue? || InstallmentsRejected? || ClaimsOpen? || RequestsClosed?
    }
    predicate Money() { PremiumInForce? || DebtAmount? }
    predicate Blocked() { BlockedNoPolicy? || BlockedRejectedPayment? || BlockedOverdue? }
  }

  /** One value per recorded metric; a metric that is not recorded (null in the row) is absent. */
  type Values = map<Metric, real>

  predicate Recorded(m: Metric, monthEnd: bool) { monthEnd || !m.MonthEnd() }

  /** A code's row before anything is added: zero for what is recorded, nothing for the rest. */
  function EmptyValues(monthEnd: bool): Values {
    map m: Metric | Recorded(m, monthEnd) :: 0.0
  }

  // ─── Who a record is credited to ─────────────────────────

  datatype Attribution = Attribution(
    codes: seq<Code>, masterCode: Code, byMetaNumber: map<string, Option<Code>>, byNumberId: map<int, Option<Code>>)

  datatype Record = Record(producerCode: Option<Code>, metaNumber: Option<string>, numberId: Option<int>)

  /** The organization's codes are distinct and its master code is one of them. */
  predicate ValidAttribution(ctx: Attribution) {
    ctx.masterCode in ctx.codes && forall i, j | 0 <= i < j < |ctx.codes| :: ctx.codes[i] != ctx.codes[j]
  }

  function OneOf(ctx: Attribution, code: Option<Code>): Option<Code> {
    if code.Some? && code.value in ctx.codes then code else None
  }

  function NumberCode(ctx: Attribution, r: Record): Option<Code> {
    if r.metaNumber.Some? then (if r.metaNumber.value in ctx.byMetaNumber then ctx.byMetaNumber[r.metaNumber.value] else None)
    else if r.numberId.Some? then (if r.numberId.value in ctx.byNumberId then ctx.byNumberId[r.numberId.value] else None)
    else None
  }

  /** Its own code, else the one of the number it came through, else the master code; quotes put the number first. */
  function AttributeCode(ctx: Attribution, r: Record, numberFirst: bool): (code: Code)
    ensures ValidAttribution(ctx) ==> code in ctx.codes
  {
    var own, byNumber := OneOf(ctx, r.producerCode), OneOf(ctx, NumberCode(ctx, r));
    var first, second := if numberFirst then byNumber else own, if numberFirst then own else byNumber;
    if first.Some? then first.value else if second.Some? then second.value else ctx.masterCode
  }

  /** A record is credited in that order: to the first of its two codes the organization has, else to the master code. */
  lemma AttributionOrder(ctx: Attribution, r: Record, numberFirst: bool, code: Code)
    requires ValidAttribution(ctx)
    ensures code == AttributeCode(ctx, r, numberFirst) <==>
            var own, byNumber := r.producerCode, NumberCode(ctx, r);
            var first, second := if numberFirst then byNumber else own, if numberFirst then own else byNumber;
            || (first == Some(code) && code in ctx.codes)
            || (second == Some(code) && code in ctx.codes && !(first.Some? && first.value in ctx.codes))
            || (code == ctx.masterCode && !(first.Some? && first.value in ctx.codes) && !(second.Some? && second.value in ctx.codes))
  {
  }

  // ─── The tally ───────────────────────────────────────────

  datatype Addition = Addition(metric: Metric, record: Record, amount: real, numberFirst: bool)

  function Credited(ctx: Attribution, a: Addition): Code {
    AttributeCode(ctx, a.record, a.numberFirst)
  }

  type Tally = map<Code, Values>

  function Start(ctx: Attribution, monthEnd: bool): Tally {
    map c | c in ctx.codes :: EmptyValues(monthEnd)
  }

  /** What the tally holds for a metric of a code; none where it is not recorded. */
  function Value(t: Tally, code: Code, metric: Metric): Option<real> {
    if code in t && metric in t[code] then Some(t[code][metric]) else None
  }

  /** An amount for a code the tally does not hold, or for a metric its row has no value for, is dropped. */
  function Add(t: Tally, code: Code, metric: Metric, amount: real): Tally {
    if code in t && metric in t[code] then t[code := t[code][metric := t[code][metric] + amount]] else t
  }

  function TallyOf(ctx: Attribution, monthEnd: bool, additions: seq<Addition>): Tally {
    if additions == [] then Start(ctx, monthEnd) else
      var a := additions[|additions| - 1];
      Add(TallyOf(ctx, monthEnd, additions[..|additions| - 1]), Credited(ctx, a), a.metric, a.amount)
  }

  /** What was added to a metric for the records credited to a code. */
  function CodeSum(ctx: Attribution, additions: seq<Addition>, code: Code, metric: Metric): real {
    if additions == [] then 0.0 else
      var a := additions[|additions| - 1];
      CodeSum(ctx, additions[..|additions| - 1], code, metric)
      + if a.metric == metric && Credited(ctx, a) == code then a.amount else 0.0
  }

  /** Everything added to a metric. */
  function Added(additions: seq<Addition>, metric: Metric): real {
    if additions == [] then 0.0 else
      var a := additions[|additions| - 1];
      Added(additions[..|additions| - 1], metric) + if a.metric == metric then a.amount else 0.0
  }

  lemma AddChangesOne(t: Tally, code: Code, metric: Metric, amount: real, c: Code, m: Metric)
    ensures Value(Add(t, code, metric, amount), c, m) ==
            if c == code && m == metric && Value(t, c, m).Some? then Some(Value(t, c, m).value + amount) else Value(t, c, m)
  {
  }

  lemma {:induction false} TallyHasEveryCode(ctx: Attribution, monthEnd: bool, additions: seq<Addition>, code: Code)
    ensures code in TallyOf(ctx, monthEnd, additions) <==> code in ctx.codes
  {
    if additions != [] {
      TallyHasEveryCode(ctx, monthEnd, additions[..|additions| - 1], code);
    }
  }

  lemma TallyHasTheCodes(ctx: Attribution, monthEnd: bool, additions: seq<Addition>)
    ensures forall code :: code in TallyOf(ctx, monthEnd, additions) <==> code in ctx.codes
  {
    forall code
      ensures code in TallyOf(ctx, monthEnd, additions) <==> code in ctx.codes
    {
      TallyHasEveryCode(ctx, monthEnd, additions, code);
    }
  }

  /** A recorded metric of a code is exactly what its records added; the rest stay null. */
  lemma {:induction false} TallyIsCodeSum(ctx: Attribution, monthEnd: bool, additions: seq<Addition>, code: Code, metric: Metric)
    requires code in ctx.codes
    ensures Value(TallyOf(ctx, monthEnd, additions), code, metric)
            == if Recorded(metric, monthEnd) then Some(CodeSum(ctx, additions, code, metric)) else None
  {
    if additions != [] {
      var front, a := additions[..|additions| - 1], additions[|additions| - 1];
      TallyIsCodeSum(ctx, monthEnd, front, code, metric);
      AddChangesOne(TallyOf(ctx, monthEnd, front), Credited(ctx, a), a.metric, a.amount, code, metric);
    }
  }

  /** What was added over a list of codes. */
  function SumOver(ctx: Attribution, codes: seq<Code>, additions: seq<Addition>, metric: Metric): real {
    if codes == [] then 0.0 else
      SumOver(ctx, codes[..|codes| - 1], additions, metric) + CodeSum(ctx, additions, codes[|codes| - 1], metric)
  }

  lemma {:induction false} OneMoreAddition(ctx: Attribution, codes: seq<Code>, additions: seq<Addition>, a: Addition, metric: Metric)
    requires forall i, j | 0 <= i < j < |codes| :: codes[i] != codes[j]
    ensures SumOver(ctx, codes, additions + [a], metric)
            == SumOver(ctx, codes, additions, metric) + if a.metric == metric && Credited(ctx, a) in codes then a.amount else 0.0
  {
    assert (additions + [a])[..|additions|] == additions;
    if codes != [] {
      var last := |codes| - 1;
      OneMoreAddition(ctx, codes[..last], additions, a, metric);
      assert codes == codes[..last] + [codes[last]];
    }
  }

  lemma {:induction false} SumOverNothing(ctx: Attribution, codes: seq<Code>, metric: Metric)
    ensures SumOver(ctx, codes, [], metric) == 0.0
  {
    if codes != [] {
      SumOverNothing(ctx, codes[..|codes| - 1], metric);
    }
  }

  lemma {:induction false} SumsAgree(ctx: Attribution, additions: seq<Addition>, metric: Metric)
    requires ValidAttribution(ctx)
    ensures SumOver(ctx, ctx.codes, additions, metric) == Added(additions, metric)
  {
    if additions == [] {
      SumOverNothing(ctx, ctx.codes, metric);
    } else {
      var last := |additions| - 1;
      SumsAgree(ctx, additions[..last], metric);
      OneMoreAddition(ctx, ctx.codes, additions[..last], additions[last], metric);
      assert additions == additions[..last] + [additions[last]];
    }
  }

  /** The total of a metric over a list of codes, as the tally holds it. */
  function Total(t: Tally, codes: seq<Code>, metric: Metric): real
  {
    if codes == [] then 0.0 else
      Total(t, codes[..|codes| - 1], metric) + Value(t, codes[|codes| - 1], metric).GetOr(0.0)
  }

  lemma {:induction false} TotalIsSum(ctx: Attribution, monthEnd: bool, additions: seq<Addition>, codes: seq<Code>, metric: Metric)
    requires Recorded(metric, monthEnd) && forall c | c in codes :: c in ctx.codes
    ensures Total(TallyOf(ctx, monthEnd, additions), codes, metric) == SumOver(ctx, codes, additions, metric)
  {
    if codes != [] {
      TotalIsSum(ctx, monthEnd, additions, codes[..|codes| - 1], metric);
      TallyIsCodeSum(ctx, monthEnd, additions, codes[|codes| - 1], metric);
    }
  }

  /** For any records, nothing is lost or counted twice: a recorded metric over all codes is everything added to it. */
  lemma TallyConserves(ctx: Attribution, monthEnd: bool, additions: seq<Addition>, metric: Metric)
    requires ValidAttribution(ctx)
    ensures var t := TallyOf(ctx, monthEnd, additions);
            && (Recorded(metric, monthEnd) ==> Total(t, ctx.codes, metric) == Added(additions, metric))
            && (!Recorded(metric, monthEnd) ==> forall c | c in ctx.codes :: Value(t, c, metric).None?)
  {
    SumsAgree(ctx, additions, metric);
    if Recorded(metric, monthEnd) {
      TotalIsSum(ctx, monthEnd, additions, ctx.codes, metric);
    }
    forall c | c in ctx.codes && !Recorded(metric, monthEnd)
      ensures Value(TallyOf(ctx, monthEnd, additions), c, metric).None?
    {
      TallyIsCodeSum(ctx, monthEnd, additions, c, metric);
    }
  }

  // ─── Rounding ────────────────────────────────────────────

  function RoundValues(v: Values): Values {
    map m | m in v :: if m.Money() then Round(v[m], CENTS) else v[m]
  }

  function Rounded(t: Tally): Tally {
    map c | c in t :: RoundValues(t[c])
  }

  /** What the snapshot stores conserves too: counts exactly, money within half a cent per code. */
  lemma StoredBalanceConserves(ctx: Attribution, monthEnd: bool, additions: seq<Addition>, metric: Metric)
    requires ValidAttribution(ctx) && Recorded(metric, monthEnd)
    ensures var stored := Total(Rounded(TallyOf(ctx, monthEnd, additions)), ctx.codes, metric);
            && Abs(stored - Added(additions, metric)) <= 0.005 * |ctx.codes| as real
            && (!metric.Money() ==> stored == Added(additions, metric))
  {
    TallyConserves(ctx, monthEnd, additions, metric);
    StoredIsClose(TallyOf(ctx, monthEnd, additions), ctx.codes, metric, Added(additions, metric));
  }

  lemma StoredIsClose(t: Tally, codes: seq<Code>, metric: Metric, added: real)
    requires Total(t, codes, metric) == added
    ensures Abs(Total(Rounded(t), codes, metric) - added) <= 0.005 * |codes| as real
    ensures !metric.Money() ==> Total(Rounded(t), codes, metric) == added
  {
    RoundingIsSmall(t, codes, metric);
  }

  function Abs(x: real): real { if x < 0.0 then -x else x }

  lemma {:induction false} RoundingIsSmall(t: Tally, codes: seq<Code>, metric: Metric)
    ensures Abs(Total(Rounded(t), codes, metric) - Total(t, codes, metric)) <= 0.005 * |codes| as real
    ensures !metric.Money() ==> Total(Rounded(t), codes, metric) == Total(t, codes, metric)
  {
    if codes != [] {
      RoundingIsSmall(t, codes[..|codes| - 1], metric);
      OneRoundingIsSmall(t, codes[|codes| - 1], metric);
    }
  }

  lemma OneRoundingIsSmall(t: Tally, code: Code, metric: Metric)
    ensures Abs(Value(Rounded(t), code, metric).GetOr(0.0) - Value(t, code, metric).GetOr(0.0)) <= 0.005
    ensures !metric.Money() ==> Value(Rounded(t), code, metric) == Value(t, code, metric)
  {
    RoundIsNear(Value(t, code, metric).GetOr(0.0));
  }

  // ─── Counts that can never exceed others ─────────────────

  datatype BlockedReason = NoPolicy | RejectedPayment | OverduePayment

  function BlockedMetric(r: BlockedReason): Metric {
    match r
    case NoPolicy => BlockedNoPolicy
    case RejectedPayment => BlockedRejectedPayment
    case OverduePayment => BlockedOverdue
  }

  datatype HandoffGroup = HandoffGroup(record: Record, reason: Option<BlockedReason>, count: nat)

  /** A request for a person, and beside it the claim the bot stopped. */
  function HandoffAdditions(g: HandoffGroup): seq<Addition> {
    [Addition(Handoffs, g.record, g.count as real, false)]
    + if g.reason.Some? then [Addition(BlockedMetric(g.reason.value), g.record, g.count as real, false)] else []
  }

  function CountHandoffs(groups: seq<HandoffGroup>): seq<Addition> {
    if groups == [] then [] else CountHandoffs(groups[..|groups| - 1]) + HandoffAdditions(groups[|groups| - 1])
  }

  lemma OneMoreHandoff(groups: seq<HandoffGroup>, i: nat)
    requires i < |groups|
    ensures CountHandoffs(groups[..i + 1]) == CountHandoffs(groups[..i]) + HandoffAdditions(groups[i])
  {
    assert groups[..i + 1][..i] == groups[..i];
  }

  datatype QuoteRequest = QuoteRequest(record: Record, closed: bool)
  datatype LeadGroup = LeadGroup(record: Record, closed: bool, count: nat)
  datatype QuoteGroup = QuoteGroup(record: Record, count: nat)

  /** Quotes: the bot's when they came through a number, else the web's. */
  function QuoteAddition(g: QuoteGroup): Addition {
    Addition(if g.record.metaNumber.Some? then QuotesBot else QuotesWeb, g.record, g.count as real, true)
  }

  function CountQuotes(quotes: seq<QuoteGroup>): seq<Addition> {
    if quotes == [] then [] else CountQuotes(quotes[..|quotes| - 1]) + [QuoteAddition(quotes[|quotes| - 1])]
  }

  lemma OneMoreQuote(quotes: seq<QuoteGroup>, i: nat)
    requires i < |quotes|
    ensures CountQuotes(quotes[..i + 1]) == CountQuotes(quotes[..i]) + [QuoteAddition(quotes[i])]
  {
    assert quotes[..i + 1][..i] == quotes[..i];
  }

  /** A coverage request, credited to the number of its quote first, and its closing. */
  function RequestAdditions(r: QuoteRequest, monthEnd: bool): seq<Addition> {
    [Addition(QuoteRequests, r.record, 1.0, true)]
    + if monthEnd && r.closed then [Addition(RequestsClosed, r.record, 1.0, true)] else []
  }

  function CountRequests(requests: seq<QuoteRequest>, monthEnd: bool): seq<Addition> {
    if requests == [] then [] else
      CountRequests(requests[..|requests| - 1], monthEnd) + RequestAdditions(requests[|requests| - 1], monthEnd)
  }

  lemma OneMoreRequest(requests: seq<QuoteRequest>, i: nat, monthEnd: bool)
    requires i < |requests|
    ensures CountRequests(requests[..i + 1], monthEnd) == CountRequests(requests[..i], monthEnd) + RequestAdditions(requests[i], monthEnd)
  {
    assert requests[..i + 1][..i] == requests[..i];
  }

  /** Advisor leads, and the closed ones. */
  function LeadAdditions(l: LeadGroup, monthEnd: bool): seq<Addition> {
    [Addition(ContactLeads, l.record, l.count as real, false)]
    + if monthEnd && l.closed then [Addition(RequestsClosed, l.record, l.count as real, false)] else []
  }

  function CountLeads(leads: seq<LeadGroup>, monthEnd: bool): seq<Addition> {
    if leads == [] then [] else
      CountLeads(leads[..|leads| - 1], monthEnd) + LeadAdditions(leads[|leads| - 1], monthEnd)
  }

  lemma OneMoreLead(leads: seq<LeadGroup>, i: nat, monthEnd: bool)
    requires i < |leads|
    ensures CountLeads(leads[..i + 1], monthEnd) == CountLeads(leads[..i], monthEnd) + LeadAdditions(leads[i], monthEnd)
  {
    assert leads[..i + 1][..i] == leads[..i];
  }

  lemma {:induction false} CodeSumAppend(ctx: Attribution, a: seq<Addition>, b: seq<Addition>, code: Code, metric: Metric)
    ensures CodeSum(ctx, a + b, code, metric) == CodeSum(ctx, a, code, metric) + CodeSum(ctx, b, code, metric)
  {
    if b == [] {
      assert a + b == a;
    } else {
      assert (a + b)[..|a + b| - 1] == a + b[..|b| - 1];
      CodeSumAppend(ctx, a, b[..|b| - 1], code, metric);
    }
  }

  function Share(ctx: Attribution, a: Addition, code: Code, m: Metric): real {
    if m == a.metric && Credited(ctx, a) == code then a.amount else 0.0
  }

  /** What one or two more additions add. */
  lemma SumOfOneOrTwo(ctx: Attribution, more: seq<Addition>, code: Code, m: Metric)
    requires 1 <= |more| <= 2
    ensures CodeSum(ctx, more, code, m) ==
            Share(ctx, more[0], code, m) + if |more| == 2 then Share(ctx, more[1], code, m) else 0.0
  {
    assert more[..1][..0] == [] && more[..0] == [];
    if |more| == 2 {
      assert more[..1] == [more[0]] && [more[0]][..0] == [];
      assert CodeSum(ctx, [more[0]], code, m) == Share(ctx, more[0], code, m);
    }
  }

  lemma HandoffMore(ctx: Attribution, groups: seq<HandoffGroup>, code: Code, m: Metric)
    requires groups != []
    ensures var g := groups[|groups| - 1];
            CodeSum(ctx, CountHandoffs(groups), code, m) == CodeSum(ctx, CountHandoffs(groups[..|groups| - 1]), code, m)
              + (if Credited(ctx, HandoffAdditions(g)[0]) == code
                    && (m.Handoffs? || (g.reason.Some? && m == BlockedMetric(g.reason.value))) then g.count as real else 0.0)
  {
    var g := groups[|groups| - 1];
    CodeSumAppend(ctx, CountHandoffs(groups[..|groups| - 1]), HandoffAdditions(g), code, m);
    SumOfOneOrTwo(ctx, HandoffAdditions(g), code, m);
  }

  lemma {:induction false} BlockedWithinHandoffs(ctx: Attribution, groups: seq<HandoffGroup>, code: Code)
    ensures CodeSum(ctx, CountHandoffs(groups), code, BlockedNoPolicy)
            + CodeSum(ctx, CountHandoffs(groups), code, BlockedRejectedPayment)
            + CodeSum(ctx, CountHandoffs(groups), code, BlockedOverdue)
            <= CodeSum(ctx, CountHandoffs(groups), code, Handoffs)
  {
    if groups != [] {
      BlockedWithinHandoffs(ctx, groups[..|groups| - 1], code);
      HandoffMore(ctx, groups, code, Handoffs);
      HandoffMore(ctx, groups, code, BlockedNoPolicy);
      HandoffMore(ctx, groups, code, BlockedRejectedPayment);
      HandoffMore(ctx, groups, code, BlockedOverdue);
    }
  }

  lemma RequestMore(ctx: Attribution, requests: seq<QuoteRequest>, monthEnd: bool, code: Code, m: Metric)
    requires requests != []
    ensures var r := requests[|requests| - 1];
            CodeSum(ctx, CountRequests(requests, monthEnd), code, m)
              == CodeSum(ctx, CountRequests(requests[..|requests| - 1], monthEnd), code, m)
                 + (if Credited(ctx, RequestAdditions(r, monthEnd)[0]) == code
                       && (m.QuoteRequests? || (m.RequestsClosed? && monthEnd && r.closed)) then 1.0 else 0.0)
  {
    var r := requests[|requests| - 1];
    CodeSumAppend(ctx, CountRequests(requests[..|requests| - 1], monthEnd), RequestAdditions(r, monthEnd), code, m);
    SumOfOneOrTwo(ctx, RequestAdditions(r, monthEnd), code, m);
  }

  lemma {:induction false} ClosedRequestsWithinRequests(ctx: Attribution, requests: seq<QuoteRequest>, monthEnd: bool, code: Code)
    ensures 0.0 <= CodeSum(ctx, CountRequests(requests, monthEnd), code, RequestsClosed)
                <= CodeSum(ctx, CountRequests(requests, monthEnd), code, QuoteRequests)
    ensures CodeSum(ctx, CountRequests(requests, monthEnd), code, ContactLeads) == 0.0
  {
    if requests != [] {
      ClosedRequestsWithinRequests(ctx, requests[..|requests| - 1], monthEnd, code);
      RequestMore(ctx, requests, monthEnd, code, RequestsClosed);
      RequestMore(ctx, requests, monthEnd, code, QuoteRequests);
      RequestMore(ctx, requests, monthEnd, code, ContactLeads);
    }
  }

  lemma LeadMore(ctx: Attribution, leads: seq<LeadGroup>, monthEnd: bool, code: Code, m: Metric)
    requires leads != []
    ensures var l := leads[|leads| - 1];
            CodeSum(ctx, CountLeads(leads, monthEnd), code, m)
              == CodeSum(ctx, CountLeads(leads[..|leads| - 1], monthEnd), code, m)
                 + (if Credited(ctx, LeadAdditions(l, monthEnd)[0]) == code
                       && (m.ContactLeads? || (m.RequestsClosed? && monthEnd && l.closed)) then l.count as real else 0.0)
  {
    var l := leads[|leads| - 1];
    CodeSumAppend(ctx, CountLeads(leads[..|leads| - 1], monthEnd), LeadAdditions(l, monthEnd), code, m);
    SumOfOneOrTwo(ctx, LeadAdditions(l, monthEnd), code, m);
  }

  lemma {:induction false} ClosedLeadsWithinLeads(ctx: Attribution, leads: seq<LeadGroup>, monthEnd: bool, code: Code)
    ensures 0.0 <= CodeSum(ctx, CountLeads(leads, monthEnd), code, RequestsClosed)
                <= CodeSum(ctx, CountLeads(leads, monthEnd), code, ContactLeads)
    ensures CodeSum(ctx, CountLeads(leads, monthEnd), code, QuoteRequests) == 0.0
  {
    if leads != [] {
      ClosedLeadsWithinLeads(ctx, leads[..|leads| - 1], monthEnd, code);
      LeadMore(ctx, leads, monthEnd, code, RequestsClosed);
      LeadMore(ctx, leads, monthEnd, code, ContactLeads);
      LeadMore(ctx, leads, monthEnd, code, QuoteRequests);
    }
  }

  lemma {:induction false} HandoffsAddNoOther(ctx: Attribution, groups: seq<HandoffGroup>, code: Code, m: Metric)
    requires !m.Handoffs? && !m.Blocked()
    ensures CodeSum(ctx, CountHandoffs(groups), code, m) == 0.0
  {
    if groups != [] {
      HandoffsAddNoOther(ctx, groups[..|groups| - 1], code, m);
      HandoffMore(ctx, groups, code, m);
    }
  }

  lemma {:induction false} RequestsAddNoOther(ctx: Attribution, requests: seq<QuoteRequest>, monthEnd: bool, code: Code, m: Metric)
    requires !m.QuoteRequests? && !m.RequestsClosed?
    ensures CodeSum(ctx, CountRequests(requests, monthEnd), code, m) == 0.0
  {
    if requests != [] {
      RequestsAddNoOther(ctx, requests[..|requests| - 1], monthEnd, code, m);
      RequestMore(ctx, requests, monthEnd, code, m);
    }
  }

  lemma {:induction false} LeadsAddNoOther(ctx: Attribution, leads: seq<LeadGroup>, monthEnd: bool, code: Code, m: Metric)
    requires !m.ContactLeads? && !m.RequestsClosed?
    ensures CodeSum(ctx, CountLeads(leads, monthEnd), code, m) == 0.0
  {
    if leads != [] {
      LeadsAddNoOther(ctx, leads[..|leads| - 1], monthEnd, code, m);
      LeadMore(ctx, leads, monthEnd, code, m);
    }
  }

  /** The month's records of a code: anything else, its requests for a person, its sales. */
  function Month(rest: seq<Addition>, groups: seq<HandoffGroup>, requests: seq<QuoteRequest>, leads: seq<LeadGroup>, monthEnd: bool)
    : seq<Addition>
  {
    rest + CountHandoffs(groups) + CountRequests(requests, monthEnd) + CountLeads(leads, monthEnd)
  }

  /** Metrics only the requests for a person and the sales add to. */
  predicate Shared(m: Metric) {
    m.Handoffs? || m.Blocked() || m.QuoteRequests? || m.ContactLeads? || m.RequestsClosed?
  }

  lemma {:induction false} NothingAdded(ctx: Attribution, additions: seq<Addition>, code: Code, m: Metric)
    requires forall a | a in additions :: a.metric != m
    ensures CodeSum(ctx, additions, code, m) == 0.0
  {
    if additions != [] {
      assert additions[|additions| - 1] in additions;
      NothingAdded(ctx, additions[..|additions| - 1], code, m);
    }
  }

  lemma MonthParts(ctx: Attribution, rest: seq<Addition>, groups: seq<HandoffGroup>, requests: seq<QuoteRequest>,
                   leads: seq<LeadGroup>, monthEnd: bool, code: Code, m: Metric)
    requires forall a | a in rest :: !Shared(a.metric)
    requires Shared(m)
    ensures CodeSum(ctx, Month(rest, groups, requests, leads, monthEnd), code, m)
            == CodeSum(ctx, CountHandoffs(groups), code, m) + CodeSum(ctx, CountRequests(requests, monthEnd), code, m)
               + CodeSum(ctx, CountLeads(leads, monthEnd), code, m)
  {
    var a, b, c := CountHandoffs(groups), CountRequests(requests, monthEnd), CountLeads(leads, monthEnd);
    CodeSumAppend(ctx, rest + a + b, c, code, m);
    CodeSumAppend(ctx, rest + a, b, code, m);
    CodeSumAppend(ctx, rest, a, code, m);
    NothingAdded(ctx, rest, code, m);
  }

  /** A metric of attention comes from the requests for a person alone. */
  lemma MonthAttention(ctx: Attribution, rest: seq<Addition>, groups: seq<HandoffGroup>, requests: seq<QuoteRequest>,
                       leads: seq<LeadGroup>, monthEnd: bool, code: Code, m: Metric)
    requires (forall a | a in rest :: !Shared(a.metric)) && (m.Handoffs? || m.Blocked())
    ensures CodeSum(ctx, Month(rest, groups, requests, leads, monthEnd), code, m) == CodeSum(ctx, CountHandoffs(groups), code, m)
  {
    MonthParts(ctx, rest, groups, requests, leads, monthEnd, code, m);
    RequestsAddNoOther(ctx, requests, monthEnd, code, m);
    LeadsAddNoOther(ctx, leads, monthEnd, code, m);
  }

  /** A metric of sales comes from the coverage requests and the leads alone. */
  lemma MonthSales(ctx: Attribution, rest: seq<Addition>, groups: seq<HandoffGroup>, requests: seq<QuoteRequest>,
                   leads: seq<LeadGroup>, monthEnd: bool, code: Code, m: Metric)
    requires (forall a | a in rest :: !Shared(a.metric)) && (m.QuoteRequests? || m.ContactLeads? || m.RequestsClosed?)
    ensures CodeSum(ctx, Month(rest, groups, requests, leads, monthEnd), code, m)
            == CodeSum(ctx, CountRequests(requests, monthEnd), code, m) + CodeSum(ctx, CountLeads(leads, monthEnd), code, m)
  {
    MonthParts(ctx, rest, groups, requests, leads, monthEnd, code, m);
    HandoffsAddNoOther(ctx, groups, code, m);
  }

  /** The month's value of a metric of a code; zero where it is not recorded. */
  function MonthValue(ctx: Attribution, month: seq<Addition>, monthEnd: bool, code: Code, m: Metric): real {
    Value(TallyOf(ctx, monthEnd, month), code, m).GetOr(0.0)
  }

  lemma MonthValueIs(ctx: Attribution, month: seq<Addition>, monthEnd: bool, code: Code, m: Metric, sum: real)
    requires code in ctx.codes && CodeSum(ctx, month, code, m) == sum
    ensures MonthValue(ctx, month, monthEnd, code, m) == if Recorded(m, monthEnd) then sum else 0.0
  {
    TallyIsCodeSum(ctx, monthEnd, month, code, m);
  }

  /** Per code, whatever else the month recorded, stopped claims never exceed the requests for a person. */
  lemma StoppedWithinHandoffs(ctx: Attribution, rest: seq<Addition>, groups: seq<HandoffGroup>, requests: seq<QuoteRequest>,
                              leads: seq<LeadGroup>, monthEnd: bool, code: Code)
    requires code in ctx.codes && forall a | a in rest :: !Shared(a.metric)
    ensures var month := Month(rest, groups, requests, leads, monthEnd);
            MonthValue(ctx, month, monthEnd, code, BlockedNoPolicy)
            + MonthValue(ctx, month, monthEnd, code, BlockedRejectedPayment)
            + MonthValue(ctx, month, monthEnd, code, BlockedOverdue)
            <= MonthValue(ctx, month, monthEnd, code, Handoffs)
  {
    BlockedWithinHandoffs(ctx, groups, code);
    var month := Month(rest, groups, requests, leads, monthEnd);
    forall m: Metric | m.Handoffs? || m.Blocked()
      ensures MonthValue(ctx, month, monthEnd, code, m) == CodeSum(ctx, CountHandoffs(groups), code, m)
    {
      MonthAttention(ctx, rest, groups, requests, leads, monthEnd, code, m);
      MonthValueIs(ctx, month, monthEnd, code, m, CodeSum(ctx, CountHandoffs(groups), code, m));
    }
  }

  /** Per code, closed requests never exceed coverage requests plus leads. */
  lemma ClosedWithinRequests(ctx: Attribution, rest: seq<Addition>, groups: seq<HandoffGroup>, requests: seq<QuoteRequest>,
                             leads: seq<LeadGroup>, monthEnd: bool, code: Code)
    requires code in ctx.codes && forall a | a in rest :: !Shared(a.metric)
    ensures var month := Month(rest, groups, requests, leads, monthEnd);
            MonthValue(ctx, month, monthEnd, code, RequestsClosed)
            <= MonthValue(ctx, month, monthEnd, code, QuoteRequests) + MonthValue(ctx, month, monthEnd, code, ContactLeads)
  {
    ClosedRequestsWithinRequests(ctx, requests, monthEnd, code);
    ClosedLeadsWithinLeads(ctx, leads, monthEnd, code);
    var month := Month(rest, groups, requests, leads, monthEnd);
    forall m: Metric | m.QuoteRequests? || m.ContactLeads? || m.RequestsClosed?
      ensures MonthValue(ctx, month, monthEnd, code, m) ==
              if Recorded(m, monthEnd)
              then CodeSum(ctx, CountRequests(requests, monthEnd), code, m) + CodeSum(ctx, CountLeads(leads, monthEnd), code, m)
              else 0.0
    {
      MonthSales(ctx, rest, groups, requests, leads, monthEnd, code, m);
      MonthValueIs(ctx, month, monthEnd, code, m,
                   CodeSum(ctx, CountRequests(requests, monthEnd), code, m) + CodeSum(ctx, CountLeads(leads, monthEnd), code, m));
    }
  }

  // ─── The tally as the snapshot fills it ──────────────────

  function RoundedUpTo(t: Tally, codes: seq<Code>, n: nat): (r: Tally)
    requires n <= |codes|
    ensures r.Keys == t.Keys
  {
    map c | c in t :: if c in codes[..n] then RoundValues(t[c]) else t[c]
  }

  lemma RoundOneMore(t: Tally, codes: seq<Code>, n: nat)
    requires n < |codes| && codes[n] in t
    requires forall i, j | 0 <= i < j < |codes| :: codes[i] != codes[j]
    ensures RoundedUpTo(t, codes, n + 1) == RoundedUpTo(t, codes, n)[codes[n] := RoundValues(RoundedUpTo(t, codes, n)[codes[n]])]
  {
    assert codes[..n + 1] == codes[..n] + [codes[n]];
    assert codes[n] !in codes[..n];
  }

  lemma NoneRounded(t: Tally, codes: seq<Code>)
    ensures RoundedUpTo(t, codes, 0) == t
  {
    assert codes[..0] == [];
  }

  lemma RoundedToTheEnd(t: Tally, codes: seq<Code>)
    requires forall c | c in t :: c in codes
    ensures RoundedUpTo(t, codes, |codes|) == Rounded(t)
  {
    assert codes[..|codes|] == codes;
    var r := RoundedUpTo(t, codes, |codes|);
    forall c | c in t
      ensures r[c] == Rounded(t)[c]
    {
      assert c in codes[..|codes|];
    }
    assert r.Keys == Rounded(t).Keys;
  }

  class BalanceTally {
    const ctx: Attribution
    var values: Tally
    const monthEnd: bool
    ghost var additions: seq<Addition>

    ghost predicate Valid()
      reads this
    {
      values == TallyOf(ctx, monthEnd, additions)
    }

    constructor (c: Attribution, end: bool)
      ensures Valid() && ctx == c && monthEnd == end && additions == []
    {
      ctx, monthEnd := c, end;
      values, additions := Start(c, end), [];
    }

    method AddTo(metric: Metric, record: Record, amount: real, numberFirst: bool)
      requires Valid()
      modifies this
      ensures Valid() && additions == old(additions) + [Addition(metric, record, amount, numberFirst)]
    {
      ghost var all := additions + [Addition(metric, record, amount, numberFirst)];
      assert all[..|all| - 1] == additions;
      var code := AttributeCode(ctx, record, numberFirst);
      if code in values {
        var row := values[code];
        if metric in row {
          values := values[code := row[metric := row[metric] + amount]];
        }
      }
      additions := all;
    }

    method FeedHandoff(h: HandoffGroup)
      requires Valid()
      modifies this
      ensures Valid() && additions == old(additions) + HandoffAdditions(h)
    {
      AddTo(Handoffs, h.record, h.count as real, false);
      if h.reason.Some? {
        AddTo(BlockedMetric(h.reason.value), h.record, h.count as real, false);
      }
    }

    /** Requests for a person, as the snapshot feeds them. */
    method FeedHandoffs(groups: seq<HandoffGroup>)
      requires Valid()
      modifies this
      ensures Valid() && additions == old(additions) + CountHandoffs(groups)
    {
      assert groups[..0] == [];
      ghost var start := additions;
      for i := 0 to |groups|
        invariant Valid() && additions == start + CountHandoffs(groups[..i])
      {
        OneMoreHandoff(groups, i);
        FeedHandoff(groups[i]);
      }
      assert groups[..|groups|] == groups;
    }

    method FeedQuote(g: QuoteGroup)
      requires Valid()
      modifies this
      ensures Valid() && additions == old(additions) + [QuoteAddition(g)]
    {
      AddTo(if g.record.metaNumber.Some? then QuotesBot else QuotesWeb, g.record, g.count as real, true);
    }

    method FeedQuotes(quotes: seq<QuoteGroup>)
      requires Valid()
      modifies this
      ensures Valid() && additions == old(additions) + CountQuotes(quotes)
    {
      assert quotes[..0] == [];
      ghost var start := additions;
      for i := 0 to |quotes|
        invariant Valid() && additions == start + CountQuotes(quotes[..i])
      {
        OneMoreQuote(quotes, i);
        FeedQuote(quotes[i]);
      }
      assert quotes[..|quotes|] == quotes;
    }

    method FeedRequest(r: QuoteRequest)
      requires Valid()
      modifies this
      ensures Valid() && additions == old(additions) + RequestAdditions(r, monthEnd)
    {
      AddTo(QuoteRequests, r.record, 1.0, true);
      if monthEnd && r.closed {
        AddTo(RequestsClosed, r.record, 1.0, true);
      }
    }

    method FeedRequests(requests: seq<QuoteRequest>)
      requires Valid()
      modifies this
      ensures Valid() && additions == old(additions) + CountRequests(requests, monthEnd)
    {
      assert requests[..0] == [];
      ghost var start := additions;
      for i := 0 to |requests|
        invariant Valid() && additions == start + CountRequests(requests[..i], monthEnd)
      {
        OneMoreRequest(requests, i, monthEnd);
        FeedRequest(requests[i]);
      }
      assert requests[..|requests|] == requests;
    }

    method FeedLead(l: LeadGroup)
      requires Valid()
      modifies this
      ensures Valid() && additions == old(additions) + LeadAdditions(l, monthEnd)
    {
      AddTo(ContactLeads, l.record, l.count as real, false);
      if monthEnd && l.closed {
        AddTo(RequestsClosed, l.record, l.count as real, false);
      }
    }

    method FeedLeads(leads: seq<LeadGroup>)
      requires Valid()
      modifies this
      ensures Valid() && additions == old(additions) + CountLeads(leads, monthEnd)
    {
      assert leads[..0] == [];
      ghost var start := additions;
      for i := 0 to |leads|
        invariant Valid() && additions == start + CountLeads(leads[..i], monthEnd)
      {
        OneMoreLead(leads, i, monthEnd);
        FeedLead(leads[i]);
      }
      assert leads[..|leads|] == leads;
    }

    /** Quotes, coverage requests and advisor leads, in the order the snapshot feeds them. */
    method FeedSales(quotes: seq<QuoteGroup>, requests: seq<QuoteRequest>, leads: seq<LeadGroup>)
      requires Valid()
      modifies this
      ensures Valid()
      ensures additions == old(additions) + CountQuotes(quotes) + CountRequests(requests, monthEnd) + CountLeads(leads, monthEnd)
    {
      FeedQuotes(quotes);
      FeedRequests(requests);
      FeedLeads(leads);
    }

    /** Per code, money rounded to cents: over all codes what was added, within half a cent per code. */
    method Result() returns (r: Tally)
      requires Valid() && ValidAttribution(ctx)
      modifies this`values
      ensures r == values == Rounded(TallyOf(ctx, monthEnd, additions))
    {
      ghost var exact := values;
      TallyHasTheCodes(ctx, monthEnd, additions);
      NoneRounded(exact, ctx.codes);
      for i := 0 to |ctx.codes|
        invariant values == RoundedUpTo(exact, ctx.codes, i)
      {
        var c := ctx.codes[i];
        RoundOneMore(exact, ctx.codes, i);
        values := values[c := RoundValues(values[c])];
      }
      RoundedToTheEnd(exact, ctx.codes);
      r := values;
    }
  }
}
