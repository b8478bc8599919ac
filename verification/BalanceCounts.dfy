/** What each metric of a month counts, code by code, read off the records themselves. */
module BalanceCounts {
  import opened Balance
  import opened Rounding
  import opened Wrappers

  /** The number a record came through belongs to the code: the Meta number when it has one, else the number's id. */
  predicate NumberIs(ctx: Attribution, r: Record, code: Code) {
    || (r.metaNumber.Some? && r.metaNumber.value in ctx.byMetaNumber && ctx.byMetaNumber[r.metaNumber.value] == Some(code))
    || (r.metaNumber.None? && r.numberId.Some? && r.numberId.value in ctx.byNumberId
        && ctx.byNumberId[r.numberId.value] == Some(code))
  }

  lemma NumberCodeIff(ctx: Attribution, r: Record, code: Code)
    ensures NumberCode(ctx, r) == Some(code) <==> NumberIs(ctx, r, code)
  {
  }

  // ─── Requests for a person ───────────────────────────────

  /** Requests for a person credited to the code, of a reason when one is given. */
  function Handed(ctx: Attribution, groups: seq<HandoffGroup>, code: Code, reason: Option<BlockedReason>): nat {
    if groups == [] then 0 else
      var g := groups[|groups| - 1];
      Handed(ctx, groups[..|groups| - 1], code, reason)
      + if AttributeCode(ctx, g.record, false) == code && (reason.None? || g.reason == reason) then g.count else 0
  }

  lemma HandoffSums(ctx: Attribution, g: HandoffGroup, code: Code, m: Metric)
    ensures CodeSum(ctx, HandoffAdditions(g), code, m) ==
            if AttributeCode(ctx, g.record, false) != code then 0.0
            else if m.Handoffs? || (g.reason.Some? && m == BlockedMetric(g.reason.value)) then g.count as real else 0.0
  {
    var first := Addition(Handoffs, g.record, g.count as real, false);
    assert [first][..0] == [] && CodeSum(ctx, [], code, m) == 0.0;
    if g.reason.Some? {
      var both := HandoffAdditions(g);
      assert both[..1] == [first] && both[..1][..0] == [];
    }
  }

  lemma HandoffsAddUp(ctx: Attribution, front: seq<HandoffGroup>, g: HandoffGroup, code: Code, m: Metric)
    ensures CodeSum(ctx, CountHandoffs(front) + HandoffAdditions(g), code, m) == CodeSum(ctx, CountHandoffs(front), code, m) +
            if AttributeCode(ctx, g.record, false) != code then 0.0
            else if m.Handoffs? || (g.reason.Some? && m == BlockedMetric(g.reason.value)) then g.count as real else 0.0
  {
    CodeSumAppend(ctx, CountHandoffs(front), HandoffAdditions(g), code, m);
    HandoffSums(ctx, g, code, m);
  }

  /** Every request counts as one, and a claim the bot stopped counts under its own reason and no other. */
  lemma {:induction false} HandoffsAreCounted(ctx: Attribution, groups: seq<HandoffGroup>, code: Code)
    ensures CodeSum(ctx, CountHandoffs(groups), code, Handoffs) == Handed(ctx, groups, code, None) as real
    ensures CodeSum(ctx, CountHandoffs(groups), code, BlockedNoPolicy) == Handed(ctx, groups, code, Some(NoPolicy)) as real
    ensures CodeSum(ctx, CountHandoffs(groups), code, BlockedRejectedPayment)
            == Handed(ctx, groups, code, Some(RejectedPayment)) as real
    ensures CodeSum(ctx, CountHandoffs(groups), code, BlockedOverdue) == Handed(ctx, groups, code, Some(OverduePayment)) as real
  {
    if groups != [] {
      var front, g := groups[..|groups| - 1], groups[|groups| - 1];
      HandoffsAreCounted(ctx, front, code);
      HandoffsAddUp(ctx, front, g, code, Handoffs);
      HandoffsAddUp(ctx, front, g, code, BlockedNoPolicy);
      HandoffsAddUp(ctx, front, g, code, BlockedRejectedPayment);
      HandoffsAddUp(ctx, front, g, code, BlockedOverdue);
    }
  }

  // ─── Quotes, coverage requests and leads ─────────────────

  /** Quotes credited to the code, their number before the record's own code: those of the bot, or those of the web. */
  function Quoted(ctx: Attribution, quotes: seq<QuoteGroup>, code: Code, bot: bool): nat {
    if quotes == [] then 0 else
      var g := quotes[|quotes| - 1];
      Quoted(ctx, quotes[..|quotes| - 1], code, bot)
      + if AttributeCode(ctx, g.record, true) == code && g.record.metaNumber.Some? == bot then g.count else 0
  }

  /** A quote is the bot's exactly when it came through one of the organization's numbers. */
  lemma {:induction false} QuotesAreCounted(ctx: Attribution, quotes: seq<QuoteGroup>, code: Code)
    ensures CodeSum(ctx, CountQuotes(quotes), code, QuotesBot) == Quoted(ctx, quotes, code, true) as real
    ensures CodeSum(ctx, CountQuotes(quotes), code, QuotesWeb) == Quoted(ctx, quotes, code, false) as real
  {
    if quotes != [] {
      QuotesAreCounted(ctx, quotes[..|quotes| - 1], code);
      var all := CountQuotes(quotes);
      assert all[..|all| - 1] == CountQuotes(quotes[..|quotes| - 1]);
    }
  }

  function Requested(ctx: Attribution, requests: seq<QuoteRequest>, code: Code, closedOnly: bool): nat {
    if requests == [] then 0 else
      var r := requests[|requests| - 1];
      Requested(ctx, requests[..|requests| - 1], code, closedOnly)
      + if AttributeCode(ctx, r.record, true) == code && (closedOnly ==> r.closed) then 1 else 0
  }

  lemma RequestSums(ctx: Attribution, r: QuoteRequest, monthEnd: bool, code: Code, m: Metric)
    ensures CodeSum(ctx, RequestAdditions(r, monthEnd), code, m) ==
            if AttributeCode(ctx, r.record, true) == code
               && (m.QuoteRequests? || (m.RequestsClosed? && monthEnd && r.closed)) then 1.0 else 0.0
  {
    var first := Addition(QuoteRequests, r.record, 1.0, true);
    assert [first][..0] == [] && CodeSum(ctx, [], code, m) == 0.0;
    if monthEnd && r.closed {
      var both := RequestAdditions(r, monthEnd);
      assert both[..1] == [first] && both[..1][..0] == [];
    }
  }

  /** Every coverage request counts as one, and a closed one again among the closed at the month's end. */
  lemma {:induction false} RequestsAreCounted(ctx: Attribution, requests: seq<QuoteRequest>, monthEnd: bool, code: Code)
    ensures CodeSum(ctx, CountRequests(requests, monthEnd), code, QuoteRequests) == Requested(ctx, requests, code, false) as real
    ensures CodeSum(ctx, CountRequests(requests, monthEnd), code, RequestsClosed)
            == if monthEnd then Requested(ctx, requests, code, true) as real else 0.0
  {
    if requests != [] {
      var front, r := requests[..|requests| - 1], requests[|requests| - 1];
      RequestsAreCounted(ctx, front, monthEnd, code);
      CodeSumAppend(ctx, CountRequests(front, monthEnd), RequestAdditions(r, monthEnd), code, QuoteRequests);
      CodeSumAppend(ctx, CountRequests(front, monthEnd), RequestAdditions(r, monthEnd), code, RequestsClosed);
      RequestSums(ctx, r, monthEnd, code, QuoteRequests);
      RequestSums(ctx, r, monthEnd, code, RequestsClosed);
    }
  }

  function Contacted(ctx: Attribution, leads: seq<LeadGroup>, code: Code, closedOnly: bool): nat {
    if leads == [] then 0 else
      var l := leads[|leads| - 1];
      Contacted(ctx, leads[..|leads| - 1], code, closedOnly)
      + if AttributeCode(ctx, l.record, false) == code && (closedOnly ==> l.closed) then l.count else 0
  }

  lemma LeadSums(ctx: Attribution, l: LeadGroup, monthEnd: bool, code: Code, m: Metric)
    ensures CodeSum(ctx, LeadAdditions(l, monthEnd), code, m) ==
            if AttributeCode(ctx, l.record, false) == code
               && (m.ContactLeads? || (m.RequestsClosed? && monthEnd && l.closed)) then l.count as real else 0.0
  {
    var first := Addition(ContactLeads, l.record, l.count as real, false);
    assert [first][..0] == [] && CodeSum(ctx, [], code, m) == 0.0;
    if monthEnd && l.closed {
      var both := LeadAdditions(l, monthEnd);
      assert both[..1] == [first] && both[..1][..0] == [];
    }
  }

  /** Every lead counts once, and a closed one again among the closed at the month's end. */
  lemma {:induction false} LeadsAreCounted(ctx: Attribution, leads: seq<LeadGroup>, monthEnd: bool, code: Code)
    ensures CodeSum(ctx, CountLeads(leads, monthEnd), code, ContactLeads) == Contacted(ctx, leads, code, false) as real
    ensures CodeSum(ctx, CountLeads(leads, monthEnd), code, RequestsClosed)
            == if monthEnd then Contacted(ctx, leads, code, true) as real else 0.0
  {
    if leads != [] {
      var front, l := leads[..|leads| - 1], leads[|leads| - 1];
      LeadsAreCounted(ctx, front, monthEnd, code);
      CodeSumAppend(ctx, CountLeads(front, monthEnd), LeadAdditions(l, monthEnd), code, ContactLeads);
      CodeSumAppend(ctx, CountLeads(front, monthEnd), LeadAdditions(l, monthEnd), code, RequestsClosed);
      LeadSums(ctx, l, monthEnd, code, ContactLeads);
      LeadSums(ctx, l, monthEnd, code, RequestsClosed);
    }
  }

  // ─── Money ───────────────────────────────────────────────

  /** As stored, premium and debt are whole cents, the nearest; every other metric is as it was added up. */
  lemma StoredMoneyIsInCents(t: Tally, code: Code, m: Metric)
    requires code in t && m in t[code]
    ensures var stored := Rounded(t)[code];
            && m in stored
            && (m == PremiumInForce || m == DebtAmount ==> Fits(stored[m], CENTS) && -0.005 <= stored[m] - t[code][m] <= 0.005)
            && (m != PremiumInForce && m != DebtAmount ==> stored[m] == t[code][m])
  {
    RoundIsNear(t[code][m]);
    RoundIsWhole(t[code][m], CENTS);
  }

  lemma RoundIsWhole(x: real, unit: real)
    requires unit > 0.0
    ensures Fits(Round(x, unit), unit)
  {
    var n := (x * unit + 0.5).Floor;
    MulDiv(n as real, unit);
    assert Round(x, unit) * unit == n as real;
  }
}
