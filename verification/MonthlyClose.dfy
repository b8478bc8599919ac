/** Freezing a month: one row per number and period, written, revived and retired by each close. */
module MonthlyClose {
  import opened Rounding
  import opened Texts
  import opened Wrappers

  type Time = int
  type Period = int   // months since year 0: the order of "YYYY-MM"

  // ─── Figures ─────────────────────────────────────────────

  datatype Plan = Plan(
    id: Option<int>, name: string, includedMessages: int, priceUsd: real, trial: bool, extraBlocks: int)

  datatype Settlement = Settlement(
    costPerMessageUsd: real, partnerShare: real, serviceCostUsd: real, remainderUsd: real,
    partnerShareUsd: real, ownerShareUsd: real)

  datatype Labels = Labels(branchName: Option<string>, responsibleCode: Option<string>)

  /** One number's figures of one month: what a close stores, and what reading a closed month gives back. */
  datatype MonthNumber = MonthNumber(
    phoneNumberId: int, producerId: int, producerCodeId: Option<int>, number: string, labels: Labels, isActive: bool,
    plan: Plan, assignedPlan: Option<Plan>, upgraded: bool, paused: bool, inService: bool, firstMonth: bool,
    messages: nat, templateMessages: nat, consumedMessages: nat, metaBillableMessages: nat,
    metaCostUsd: real, openaiCostUsd: real, billedUsd: real, settlement: Option<Settlement>)

  /** What a close keeps of it; each settlement column is null when the terms were not configured. */
  datatype CloseData = CloseData(
    phoneNumberId: int, producerId: int, producerCodeId: Option<int>, number: string, isActive: bool,
    inService: bool, firstMonth: bool, planId: Option<int>, planName: string, planMessages: int, planPriceUsd: real,
    planExtraBlocks: int, trial: bool, upgraded: bool, messages: nat, templateMessages: nat, consumedMessages: nat,
    metaBillableMessages: nat, metaCostUsd: real, openaiCostUsd: real, billedUsd: real,
    costPerMessageUsd: Option<real>, serviceCostUsd: Option<real>, remainderUsd: Option<real>,
    partnerShare: Option<real>, partnerShareUsd: Option<real>, ownerShareUsd: Option<real>)

  function NullableColumn(x: Option<real>, unit: real): Option<real>
    requires unit > 0.0
  {
    if x.Some? then Some(Column(x.value, unit)) else None
  }

  /** What is written, as the columns keep it. */
  function CloseDataOf(n: MonthNumber): CloseData {
    var s := n.settlement;
    CloseData(
      n.phoneNumberId, n.producerId, n.producerCodeId, Cut(n.number, 40), n.isActive, n.inService, n.firstMonth,
      n.plan.id, Cut(n.plan.name, 80), n.plan.includedMessages, Column(n.plan.priceUsd, CENTS), n.plan.extraBlocks,
      n.plan.trial, n.upgraded, n.messages, n.templateMessages, n.consumedMessages, n.metaBillableMessages,
      Column(n.metaCostUsd, MILLIONTHS), Column(n.openaiCostUsd, MILLIONTHS), Column(n.billedUsd, CENTS),
      NullableColumn(if s.Some? then Some(s.value.costPerMessageUsd) else None, TEN_THOUSANDTHS),
      NullableColumn(if s.Some? then Some(s.value.serviceCostUsd) else None, CENTS),
      NullableColumn(if s.Some? then Some(s.value.remainderUsd) else None, CENTS),
      NullableColumn(if s.Some? then Some(s.value.partnerShare) else None, TEN_THOUSANDTHS),
      NullableColumn(if s.Some? then Some(s.value.partnerShareUsd) else None, CENTS),
      NullableColumn(if s.Some? then Some(s.value.ownerShareUsd) else None, CENTS))
  }

  /** A row read back, with the labels its number has today. */
  function FromClose(d: CloseData, today: Labels): MonthNumber {
    MonthNumber(
      d.phoneNumberId, d.producerId, d.producerCodeId, d.number, today, d.isActive,
      Plan(d.planId, d.planName, d.planMessages, d.planPriceUsd, d.trial, d.planExtraBlocks), None, d.upgraded, false,
      d.inService, d.firstMonth, d.messages, d.templateMessages, d.consumedMessages, d.metaBillableMessages,
      Round(d.metaCostUsd, CENTS), Round(d.openaiCostUsd, CENTS), d.billedUsd,
      if d.costPerMessageUsd.None? || d.partnerShare.None? then None
      else Some(Settlement(d.costPerMessageUsd.value, d.partnerShare.value, d.serviceCostUsd.GetOr(0.0),
                           d.remainderUsd.GetOr(0.0), d.partnerShareUsd.GetOr(0.0), d.ownerShareUsd.GetOr(0.0))))
  }

  /** Live figures come in cents, the settlement's too; its terms are whatever was configured. */
  predicate InCents(n: MonthNumber) {
    && Fits(n.plan.priceUsd, CENTS) && Fits(n.metaCostUsd, CENTS) && Fits(n.openaiCostUsd, CENTS) && Fits(n.billedUsd, CENTS)
    && (n.settlement.Some? ==>
          var s := n.settlement.value;
          Fits(s.serviceCostUsd, CENTS) && Fits(s.remainderUsd, CENTS)
          && Fits(s.partnerShareUsd, CENTS) && Fits(s.ownerShareUsd, CENTS))
  }

  /** What a close cannot give back: the plan assigned, the pause, long texts, terms finer than their columns. */
  predicate ReadsBack(n: MonthNumber) {
    && n.assignedPlan.None? && !n.paused && |n.number| <= 40 && |n.plan.name| <= 80
    && (n.settlement.Some? ==> Fits(n.settlement.value.costPerMessageUsd, TEN_THOUSANDTHS)
                               && Fits(n.settlement.value.partnerShare, TEN_THOUSANDTHS))
  }

  lemma CostReadsBack(x: real)
    requires Fits(x, CENTS)
    ensures Column(x, MILLIONTHS) == x && Round(x, CENTS) == x
  {
    CentsFitMillionths(x);
    ColumnFits(x, MILLIONTHS);
    RoundFits(x, CENTS);
  }

  /** Reading a closed number back gives the live figures of the close, exactly when nothing of it is lost. */
  lemma CloseReadsBack(n: MonthNumber)
    requires InCents(n)
    ensures FromClose(CloseDataOf(n), n.labels) == n <==> ReadsBack(n)
    ensures FromClose(CloseDataOf(n), n.labels).(
              assignedPlan := n.assignedPlan, paused := n.paused, number := n.number, plan := n.plan,
              settlement := n.settlement) == n
  {
    CostReadsBack(n.metaCostUsd);
    CostReadsBack(n.openaiCostUsd);
    ColumnFits(n.plan.priceUsd, CENTS);
    ColumnFits(n.billedUsd, CENTS);
    if n.settlement.Some? {
      var s := n.settlement.value;
      ColumnFits(s.costPerMessageUsd, TEN_THOUSANDTHS);
      ColumnFits(s.partnerShare, TEN_THOUSANDTHS);
      ColumnFits(s.serviceCostUsd, CENTS);
      ColumnFits(s.remainderUsd, CENTS);
      ColumnFits(s.partnerShareUsd, CENTS);
      ColumnFits(s.ownerShareUsd, CENTS);
    }
  }

  /** A row with terms and no amounts, as older closes left, reads its amounts as zero. */
  lemma MissingAmountsReadZero(d: CloseData, today: Labels)
    requires d.costPerMessageUsd.Some? && d.partnerShare.Some?
    requires d.serviceCostUsd.None? && d.remainderUsd.None? && d.partnerShareUsd.None? && d.ownerShareUsd.None?
    ensures FromClose(d, today).settlement == Some(Settlement(d.costPerMessageUsd.value, d.partnerShare.value, 0.0, 0.0, 0.0, 0.0))
  {
  }

  // ─── Closing a month ─────────────────────────────────────
  /** A row of the table; its id is its position. A retired one keeps its figures. */
  datatype Row = Row(period: Period, data: CloseData, backfilled: bool, closedAt: Time, deletedAt: Option<Time>)

  datatype Request = Request(period: Period, force: bool, now: Time, backfilled: bool, live: seq<MonthNumber>)

  predicate Keeps(n: MonthNumber) { n.inService || n.messages > 0 || n.openaiCostUsd > 0.0 }

  /** What a close keeps of the live month: the numbers in service, sending or costing something. */
  function Kept(live: seq<MonthNumber>): (r: seq<CloseData>)
    ensures forall d | d in r :: exists n | n in live :: Keeps(n) && d == CloseDataOf(n)
    ensures forall n | n in live && Keeps(n) :: CloseDataOf(n) in r
  {
    if live == [] then [] else
      var last := |live| - 1;
      assert live == live[..last] + [live[last]];
      Kept(live[..last]) + if Keeps(live[last]) then [CloseDataOf(live[last])] else []
  }

  predicate Live(r: Row, period: Period) { r.period == period && r.deletedAt.None? }

  predicate Closed(rows: seq<Row>, period: Period) {
    exists r | r in rows :: Live(r, period)
  }

  /** The row of a number in a period, live or retired. */
  function Find(rows: seq<Row>, period: Period, phone: int): (r: Option<nat>)
    ensures r.Some? ==> r.value < |rows| && rows[r.value].period == period && rows[r.value].data.phoneNumberId == phone
    ensures r.None? ==> forall x | x in rows :: !(x.period == period && x.data.phoneNumberId == phone)
  {
    if rows == [] then None else
      var last := |rows| - 1;
      if rows[last].period == period && rows[last].data.phoneNumberId == phone then Some(last)
      else assert rows == rows[..last] + [rows[last]]; Find(rows[..last], period, phone)
  }

  function Written(n: CloseData, q: Request): Row {
    Row(q.period, n, q.backfilled, q.now, None)
  }

  function Upsert(rows: seq<Row>, n: CloseData, q: Request): seq<Row> {
    var id := Find(rows, q.period, n.phoneNumberId);
    if id.Some? then rows[id.value := Written(n, q)] else rows + [Written(n, q)]
  }

  function WriteAll(rows: seq<Row>, kept: seq<CloseData>, q: Request): seq<Row> {
    if kept == [] then rows else Upsert(WriteAll(rows, kept[..|kept| - 1], q), kept[|kept| - 1], q)
  }

  predicate HasPhone(kept: seq<CloseData>, phone: int) {
    exists n | n in kept :: n.phoneNumberId == phone
  }

  function RetireRow(r: Row, kept: seq<CloseData>, q: Request): Row {
    if Live(r, q.period) && !HasPhone(kept, r.data.phoneNumberId) then r.(deletedAt := Some(q.now)) else r
  }

  function Retire(rows: seq<Row>, kept: seq<CloseData>, q: Request): (r: seq<Row>)
    ensures |r| == |rows| && forall i | 0 <= i < |rows| :: r[i] == RetireRow(rows[i], kept, q)
  {
    seq(|rows|, i requires 0 <= i < |rows| => RetireRow(rows[i], kept, q))
  }

  /** A close: nothing when the month is closed already, unless forced. */
  function Close(rows: seq<Row>, q: Request): seq<Row> {
    if Closed(rows, q.period) && !q.force then rows
    else Retire(WriteAll(rows, Kept(q.live), q), Kept(q.live), q)
  }

  // ─── What every sequence of closes keeps ─────────────────

  predicate SameKey(a: Row, b: Row) { a.period == b.period && a.data.phoneNumberId == b.data.phoneNumberId }

  /** At most one row per number and period, retired ones included. */
  predicate OneRowEach(rows: seq<Row>) {
    forall i, j | 0 <= i < j < |rows| :: !SameKey(rows[i], rows[j])
  }

  /** The live month lists each number once. */
  predicate DistinctNumbers(live: seq<MonthNumber>) {
    forall i, j | 0 <= i < j < |live| :: live[i].phoneNumberId != live[j].phoneNumberId
  }

  predicate DistinctPhones(kept: seq<CloseData>) {
    forall i, j | 0 <= i < j < |kept| :: kept[i].phoneNumberId != kept[j].phoneNumberId
  }

  lemma UpsertKeepsOneRow(rows: seq<Row>, n: CloseData, q: Request)
    requires OneRowEach(rows)
    ensures OneRowEach(Upsert(rows, n, q))
  {
    var id := Find(rows, q.period, n.phoneNumberId);
    if id.None? {
      assert forall i | 0 <= i < |rows| :: rows[i] in rows;
    }
  }

  lemma {:induction false} WriteAllKeepsOneRow(rows: seq<Row>, kept: seq<CloseData>, q: Request)
    requires OneRowEach(rows)
    ensures OneRowEach(WriteAll(rows, kept, q))
  {
    if kept != [] {
      WriteAllKeepsOneRow(rows, kept[..|kept| - 1], q);
      UpsertKeepsOneRow(WriteAll(rows, kept[..|kept| - 1], q), kept[|kept| - 1], q);
    }
  }

  function Closes(requests: seq<Request>): seq<Row> {
    if requests == [] then [] else Close(Closes(requests[..|requests| - 1]), requests[|requests| - 1])
  }

  /** Over every sequence of closes, forced or not, a period has at most one row per number. */
  lemma {:induction false} OneRowPerNumberAndPeriod(requests: seq<Request>)
    ensures OneRowEach(Closes(requests))
  {
    if requests != [] {
      var rows, q := Closes(requests[..|requests| - 1]), requests[|requests| - 1];
      OneRowPerNumberAndPeriod(requests[..|requests| - 1]);
      WriteAllKeepsOneRow(rows, Kept(q.live), q);
    }
  }

  // ─── What a close leaves ─────────────────────────────────

  /** Half way through the writes: the numbers written have their row, every other row is as it was. */
  predicate WrittenSoFar(before: seq<Row>, after: seq<Row>, kept: seq<CloseData>, q: Request) {
    && |before| <= |after|
    && (forall n | n in kept :: Written(n, q) in after)
    && (forall i | 0 <= i < |after| :: WrittenOrLeft(before, after, kept, q, i))
    && (forall i | 0 <= i < |before| :: SameKey(before[i], after[i]))
  }

  /** A row of the table half way: a number's row as just written, or a row as it was before. */
  predicate WrittenOrLeft(before: seq<Row>, after: seq<Row>, kept: seq<CloseData>, q: Request, i: nat)
    requires i < |after|
  {
    || (exists n | n in kept :: after[i] == Written(n, q))
    || (i < |before| && after[i] == before[i]
        && !(before[i].period == q.period && HasPhone(kept, before[i].data.phoneNumberId)))
  }

  lemma UpsertAt(rows: seq<Row>, n: CloseData, q: Request) returns (i: nat)
    requires OneRowEach(rows)
    ensures i <= |rows| && |Upsert(rows, n, q)| >= |rows| && i < |Upsert(rows, n, q)| && Upsert(rows, n, q)[i] == Written(n, q)
    ensures |Upsert(rows, n, q)| == if i == |rows| then |rows| + 1 else |rows|
    ensures forall k | 0 <= k < |rows| && k != i ::
              Upsert(rows, n, q)[k] == rows[k] && !(rows[k].period == q.period && rows[k].data.phoneNumberId == n.phoneNumberId)
    ensures i < |rows| ==> rows[i].period == q.period && rows[i].data.phoneNumberId == n.phoneNumberId
  {
    var id := Find(rows, q.period, n.phoneNumberId);
    i := id.GetOr(|rows|);
    if id.Some? {
      forall k | 0 <= k < |rows| && k != i
        ensures !(rows[k].period == q.period && rows[k].data.phoneNumberId == n.phoneNumberId)
      {
        assert !SameKey(rows[k], rows[i]);
      }
    }
  }

  lemma WrittenStays(before: seq<Row>, after: seq<Row>, front: seq<CloseData>, n: CloseData, q: Request, m: CloseData)
    requires WrittenSoFar(before, after, front, q) && OneRowEach(after) && m in front + [n]
    requires !HasPhone(front, n.phoneNumberId)
    ensures Written(m, q) in Upsert(after, n, q)
  {
    var i := UpsertAt(after, n, q);
    if m in front {
      var k :| 0 <= k < |after| && after[k] == Written(m, q);
      assert k != i && Upsert(after, n, q)[k] == after[k];
    }
  }

  lemma LeftStays(before: seq<Row>, after: seq<Row>, front: seq<CloseData>, n: CloseData, q: Request, k: nat)
    requires WrittenSoFar(before, after, front, q) && OneRowEach(after) && k < |Upsert(after, n, q)|
    ensures WrittenOrLeft(before, Upsert(after, n, q), front + [n], q, k)
  {
    var i := UpsertAt(after, n, q);
    if k == i {
      assert n in front + [n];
    } else {
      assert WrittenOrLeft(before, after, front, q, k);
      if m :| m in front && after[k] == Written(m, q) {
        assert m in front + [n];
      }
    }
  }

  lemma UpsertWrites(before: seq<Row>, after: seq<Row>, front: seq<CloseData>, n: CloseData, q: Request)
    requires WrittenSoFar(before, after, front, q) && OneRowEach(after)
    requires !HasPhone(front, n.phoneNumberId)
    ensures WrittenSoFar(before, Upsert(after, n, q), front + [n], q)
  {
    forall m | m in front + [n]
      ensures Written(m, q) in Upsert(after, n, q)
    {
      WrittenStays(before, after, front, n, q, m);
    }
    forall k | 0 <= k < |Upsert(after, n, q)|
      ensures WrittenOrLeft(before, Upsert(after, n, q), front + [n], q, k)
    {
      LeftStays(before, after, front, n, q, k);
    }
    var i := UpsertAt(after, n, q);
  }

  lemma KeptIsDistinct(live: seq<MonthNumber>)
    requires DistinctNumbers(live)
    ensures DistinctPhones(Kept(live))
  {
    if live != [] {
      var last := |live| - 1;
      KeptIsDistinct(live[..last]);
      var front := Kept(live[..last]);
      forall i | 0 <= i < |front|
        ensures front[i].phoneNumberId != live[last].phoneNumberId
      {
        assert front[i] in front;
        var n :| n in live[..last] && Keeps(n) && front[i] == CloseDataOf(n);
      }
    }
  }

  lemma LastIsWritten(before: seq<Row>, after: seq<Row>, kept: seq<CloseData>, q: Request)
    requires kept != [] && DistinctPhones(kept) && OneRowEach(after)
    requires WrittenSoFar(before, after, kept[..|kept| - 1], q)
    ensures WrittenSoFar(before, Upsert(after, kept[|kept| - 1], q), kept, q)
  {
    LastIsNew(kept);
    UpsertWrites(before, after, kept[..|kept| - 1], kept[|kept| - 1], q);
    assert kept == kept[..|kept| - 1] + [kept[|kept| - 1]];
  }

  lemma NothingWritten(rows: seq<Row>, q: Request)
    ensures WrittenSoFar(rows, rows, [], q)
  {
  }

  lemma LastIsNew(kept: seq<CloseData>)
    requires kept != [] && DistinctPhones(kept)
    ensures DistinctPhones(kept[..|kept| - 1]) && !HasPhone(kept[..|kept| - 1], kept[|kept| - 1].phoneNumberId)
  {
  }

  lemma {:induction false} WriteAllWrites(rows: seq<Row>, kept: seq<CloseData>, q: Request)
    requires OneRowEach(rows) && DistinctPhones(kept)
    ensures WrittenSoFar(rows, WriteAll(rows, kept, q), kept, q)
  {
    if kept == [] {
      NothingWritten(rows, q);
    } else {
      var front, last := kept[..|kept| - 1], kept[|kept| - 1];
      LastIsNew(kept);
      WriteAllWrites(rows, front, q);
      WriteAllKeepsOneRow(rows, front, q);
      LastIsWritten(rows, WriteAll(rows, front, q), kept, q);
      assert WriteAll(rows, kept, q) == Upsert(WriteAll(rows, front, q), last, q);
    }
  }

  /** The live rows of the month, once the stale ones are retired, are the ones just written. */
  lemma LiveAreWritten(rows: seq<Row>, written: seq<Row>, kept: seq<CloseData>, q: Request, r: Row)
    requires WrittenSoFar(rows, written, kept, q)
    ensures r in Retire(written, kept, q) && Live(r, q.period) <==> exists n | n in kept :: r == Written(n, q)
  {
    var after := Retire(written, kept, q);
    if r in after && Live(r, q.period) {
      var i :| 0 <= i < |after| && after[i] == r;
      assert after[i] == RetireRow(written[i], kept, q) && WrittenOrLeft(rows, written, kept, q, i);
    }
    if exists n | n in kept :: r == Written(n, q) {
      var n :| n in kept && r == Written(n, q);
      var i :| 0 <= i < |written| && written[i] == r;
      assert after[i] == RetireRow(written[i], kept, q);
    }
  }

  lemma OthersAreLeft(rows: seq<Row>, written: seq<Row>, kept: seq<CloseData>, q: Request, i: nat)
    requires WrittenSoFar(rows, written, kept, q) && i < |rows|
    requires !(rows[i].period == q.period && HasPhone(kept, rows[i].data.phoneNumberId))
    ensures Retire(written, kept, q)[i] == if Live(rows[i], q.period) then rows[i].(deletedAt := Some(q.now)) else rows[i]
  {
    assert SameKey(rows[i], written[i]) && WrittenOrLeft(rows, written, kept, q, i);
    assert written[i] == rows[i];
  }

  /**
   * After a close that writes, the live rows of the month are exactly the kept numbers as computed now, revived ones
   * included; so the month ends closed exactly when somebody was kept.
   */
  lemma CloseLeavesExactlyTheKept(rows: seq<Row>, q: Request)
    requires OneRowEach(rows) && DistinctNumbers(q.live)
    requires q.force || !Closed(rows, q.period)
    ensures forall r :: r in Close(rows, q) && Live(r, q.period) <==> exists n | n in Kept(q.live) :: r == Written(n, q)
    ensures Closed(Close(rows, q), q.period) <==> Kept(q.live) != []
  {
    var kept := Kept(q.live);
    KeptIsDistinct(q.live);
    WriteAllWrites(rows, kept, q);
    forall r
      ensures r in Close(rows, q) && Live(r, q.period) <==> exists n | n in kept :: r == Written(n, q)
    {
      LiveAreWritten(rows, WriteAll(rows, kept, q), kept, q, r);
    }
    if kept != [] {
      assert kept[0] in kept;
      assert Written(kept[0], q) in Close(rows, q);
    }
  }

  /**
   * A number of the live month has a live row after a close that writes exactly when it was in service, sent a message or
   * cost something.
   */
  lemma KeptIff(rows: seq<Row>, q: Request, n: MonthNumber)
    requires OneRowEach(rows) && DistinctNumbers(q.live) && n in q.live
    requires q.force || !Closed(rows, q.period)
    ensures (exists r | r in Close(rows, q) :: Live(r, q.period) && r.data.phoneNumberId == n.phoneNumberId)
            <==> n.inService || n.messages >= 1 || n.openaiCostUsd > 0.0
  {
    if r :| r in Close(rows, q) && Live(r, q.period) && r.data.phoneNumberId == n.phoneNumberId {
      LiveIsKept(rows, q, n, r);
    }
    if Keeps(n) {
      CloseLeavesExactlyTheKept(rows, q);
      assert CloseDataOf(n) in Kept(q.live) && Written(CloseDataOf(n), q) in Close(rows, q);
    }
  }

  lemma LiveIsKept(rows: seq<Row>, q: Request, n: MonthNumber, r: Row)
    requires OneRowEach(rows) && DistinctNumbers(q.live) && n in q.live
    requires q.force || !Closed(rows, q.period)
    requires r in Close(rows, q) && Live(r, q.period) && r.data.phoneNumberId == n.phoneNumberId
    ensures Keeps(n)
  {
    CloseLeavesExactlyTheKept(rows, q);
    var d :| d in Kept(q.live) && r == Written(d, q);
    KeptIsOfItsNumber(q.live, d, n);
  }

  lemma KeptIsOfItsNumber(live: seq<MonthNumber>, d: CloseData, n: MonthNumber)
    requires DistinctNumbers(live) && n in live && d in Kept(live) && d.phoneNumberId == n.phoneNumberId
    ensures Keeps(n)
  {
    var m :| m in live && Keeps(m) && d == CloseDataOf(m);
    SameNumber(live, m, n);
  }

  /** Every row live after it is of this close. */
  lemma LiveRowsAreOfThisClose(rows: seq<Row>, q: Request)
    requires OneRowEach(rows) && DistinctNumbers(q.live)
    requires q.force || !Closed(rows, q.period)
    ensures forall r | r in Close(rows, q) && Live(r, q.period) :: r.closedAt == q.now && r.backfilled == q.backfilled
  {
    CloseLeavesExactlyTheKept(rows, q);
  }

  lemma SameNumber(live: seq<MonthNumber>, m: MonthNumber, n: MonthNumber)
    requires DistinctNumbers(live) && m in live && n in live && m.phoneNumberId == n.phoneNumberId
    ensures m == n
  {
    var i :| 0 <= i < |live| && live[i] == m;
    var j :| 0 <= j < |live| && live[j] == n;
  }

  /**
   * No row disappears or changes its number or month; rows of other months and rows already retired keep what they
   * say, and the live rows of numbers that no longer qualify are retired as they were.
   */
  lemma CloseTouchesNothingElse(rows: seq<Row>, q: Request, i: nat)
    requires OneRowEach(rows) && DistinctNumbers(q.live) && i < |rows|
    requires q.force || !Closed(rows, q.period)
    ensures i < |Close(rows, q)| && SameKey(rows[i], Close(rows, q)[i])
    ensures !(rows[i].period == q.period && HasPhone(Kept(q.live), rows[i].data.phoneNumberId))
            ==> Close(rows, q)[i] == if Live(rows[i], q.period) then rows[i].(deletedAt := Some(q.now)) else rows[i]
  {
    var kept := Kept(q.live);
    var written := WriteAll(rows, kept, q);
    KeptIsDistinct(q.live);
    WriteAllWrites(rows, kept, q);
    assert SameKey(rows[i], written[i]);
    if !(rows[i].period == q.period && HasPhone(kept, rows[i].data.phoneNumberId)) {
      OthersAreLeft(rows, written, kept, q, i);
    }
  }

  /** Without force a closed month is left alone, so closing again, whatever the month looks like by then, changes nothing. */
  lemma CloseIsIdempotent(rows: seq<Row>, q: Request, again: Request)
    requires OneRowEach(rows) && DistinctNumbers(q.live)
    requires Kept(q.live) != [] && again.period == q.period && !again.force
    ensures Close(Close(rows, q), again) == Close(rows, q)
  {
    if q.force || !Closed(rows, q.period) {
      CloseLeavesExactlyTheKept(rows, q);
    }
  }

  /** Reading a month just closed gives each kept number's live figures, exactly when the close can keep them all. */
  lemma ClosedMonthReadsLiveFigures(rows: seq<Row>, q: Request, n: MonthNumber)
    requires OneRowEach(rows) && DistinctNumbers(q.live)
    requires q.force || !Closed(rows, q.period)
    requires n in q.live && Keeps(n) && InCents(n)
    ensures exists r | r in Close(rows, q) ::
              Live(r, q.period) && r.data.phoneNumberId == n.phoneNumberId && (FromClose(r.data, n.labels) == n <==> ReadsBack(n))
  {
    CloseLeavesExactlyTheKept(rows, q);
    CloseReadsBack(n);
    var d := CloseDataOf(n);
    assert d in Kept(q.live);
    assert Written(d, q) in Close(rows, q) && Live(Written(d, q), q.period);
  }

  // ─── The service ─────────────────────────────────────────

  /** A month not over yet, a close already at work, a month closed before, or the numbers written. */
  datatype CloseResult = NotEnded | Busy | AlreadyClosed | ClosedNow(numbers: nat)

  class MonthlyCloseService {
    var rows: seq<Row>
    var closing: bool

    constructor ()
      ensures rows == [] && !closing
    {
      rows, closing := [], false;
    }

    method WriteRows(kept: seq<CloseData>, q: Request)
      modifies this`rows
      ensures rows == WriteAll(old(rows), kept, q)
    {
      assert kept[..0] == [];
      for i := 0 to |kept|
        invariant rows == WriteAll(old(rows), kept[..i], q)
      {
        assert kept[..i + 1][..i] == kept[..i];
        var id := Find(rows, q.period, kept[i].phoneNumberId);
        if id.Some? {
          rows := rows[id.value := Written(kept[i], q)];
        } else {
          rows := rows + [Written(kept[i], q)];
        }
      }
      assert kept[..|kept|] == kept;
    }

    method RetireRows(kept: seq<CloseData>, q: Request)
      modifies this`rows
      ensures rows == Retire(old(rows), kept, q)
    {
      for i := 0 to |rows|
        invariant |rows| == |old(rows)|
        invariant forall k | 0 <= k < i :: rows[k] == RetireRow(old(rows)[k], kept, q)
        invariant forall k | i <= k < |rows| :: rows[k] == old(rows)[k]
      {
        if Live(rows[i], q.period) && !HasPhone(kept, rows[i].data.phoneNumberId) {
          rows := rows[i := rows[i].(deletedAt := Some(q.now))];
        }
      }
    }

    method CloseOf(q: Request, current: Period) returns (result: CloseResult)
      requires OneRowEach(rows)
      modifies this
      ensures closing == old(closing) && OneRowEach(rows)
      ensures result == if q.period >= current then NotEnded
                        else if old(closing) then Busy
                        else if Closed(old(rows), q.period) && !q.force then AlreadyClosed
                        else ClosedNow(|Kept(q.live)|)
      ensures rows == if result.NotEnded? || result.Busy? then old(rows) else Close(old(rows), q)
    {
      if q.period >= current {
        return NotEnded;
      }
      if closing {
        return Busy;
      }
      closing := true;
      if Closed(rows, q.period) && !q.force {
        closing := false;
        return AlreadyClosed;
      }
      var kept := Kept(q.live);
      WriteAllKeepsOneRow(rows, kept, q);
      WriteRows(kept, q);
      RetireRows(kept, q);
      closing := false;
      result := ClosedNow(|kept|);
    }
  }
}
