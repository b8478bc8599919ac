/** What a batch that failed anywhere leaves, once the same movements are imported again without a failure. */
module CarteraRetry {
  import opened CarteraSync
  import opened Sorting
  import opened Wrappers

  // ─── What movements, whole or not, may write ─────────────

  function VehicleIn(e: Option<Entry>): Option<Vehicle> { if e.Some? then e.value.vehicle else None }

  function RowIn(e: Option<Entry>, number: int): Option<Installment> {
    if e.Some? then At(e.value.installments, number) else None
  }

  predicate TellsNoRisk(mine: seq<Novedad>) { forall n | n in mine :: !TellsRisk(n) }

  predicate BringsNoVehicle(mine: seq<Novedad>) { forall n | n in mine :: n.vehicle.None? }

  predicate Unlisted(mine: seq<Novedad>, number: int) { forall n | n in mine :: LastCuota(n.cuotas, number).None? }

  /** What only the creation of the row writes. */
  predicate SameCreation(p: Policy, q: Policy) { p.validFrom == q.validFrom && p.holder == q.holder }

  /** Only these movements wrote between the two: what none of them says is as it was. */
  predicate WrittenBy(before: Option<Entry>, after: Option<Entry>, mine: seq<Novedad>, number: int) {
    && (before.Some? ==> after.Some? && SameCreation(before.value.policy, after.value.policy))
    && (TellsNoRisk(mine) && after.Some? ==>
          after.value.policy.riskType == if before.Some? then before.value.policy.riskType else OtherRisk)
    && (BringsNoVehicle(mine) ==> VehicleIn(after) == VehicleIn(before))
    && (Unlisted(mine, number) ==> RowIn(after, number) == RowIn(before, number))
    && (mine == [] ==> after == before)
  }

  lemma CuotasOnlyListed(rows: map<int, Installment>, cuotas: seq<Cuota>, now: Time, count: nat, unstamped: bool, number: int)
    requires LastCuota(cuotas, number).None?
    ensures At(CuotasUntil(rows, cuotas, now, count, unstamped), number) == At(rows, number)
  {
    CuotasSay(rows, cuotas, now, number);
    if count < |cuotas| {
      NotListed(cuotas, number, count);
      CuotasSay(rows, cuotas[..count], now, number);
    }
  }

  lemma {:induction false} NotListed(cuotas: seq<Cuota>, number: int, count: nat)
    requires LastCuota(cuotas, number).None? && count < |cuotas|
    ensures LastCuota(cuotas[..count], number).None? && cuotas[count].number != number
  {
    var last := |cuotas| - 1;
    if count < last {
      NotListed(cuotas[..last], number, count);
      assert cuotas[..last][..count] == cuotas[..count];
    }
  }

  /** The certificate's row after one movement of it. */
  function AfterOne(e: Option<Entry>, n: Novedad, now: Time, stop: Option<Reached>): Option<Entry> {
    if stop.None? then Some(UpsertEntry(e, n, now)) else UpsertUntil(e, n, now, stop.value)
  }

  lemma OneWrites(before: Option<Entry>, n: Novedad, now: Time, stop: Option<Reached>, number: int)
    ensures WrittenBy(before, AfterOne(before, n, now, stop), [n], number)
  {
    var rows := if before.Some? then before.value.installments else map[];
    ResolvedRiskTells(n);
    assert n in [n];
    if LastCuota(n.cuotas, number).None? {
      CuotasSay(rows, n.cuotas, now, number);
      if stop.Some? && stop.value.CuotaRows? {
        CuotasOnlyListed(rows, n.cuotas, now, stop.value.count, stop.value.unstamped, number);
      }
    }
  }

  lemma WritesCompose(a: Option<Entry>, b: Option<Entry>, c: Option<Entry>, mine: seq<Novedad>, n: Novedad, number: int)
    requires WrittenBy(a, b, mine, number) && WrittenBy(b, c, [n], number)
    ensures WrittenBy(a, c, mine + [n], number)
  {
    var all := mine + [n];
    assert n in all && forall m | m in mine :: m in all;
  }

  lemma UntilTouchesOne(t: Table, n: Novedad, now: Time, stop: Option<Reached>, certificate: string)
    ensures At(SyncUntil(t, n, now, stop), certificate) ==
            if n.usable && n.certificate == certificate then AfterOne(At(t, certificate), n, now, stop) else At(t, certificate)
  {
  }

  lemma {:induction false} FailedRunWrites(t: Table, s: seq<Novedad>, now: Time, stops: seq<Option<Reached>>,
                                           certificate: string, number: int)
    requires |stops| == |s|
    ensures WrittenBy(At(t, certificate), At(FoldUntil(t, s, now, stops), certificate), Of(s, certificate), number)
  {
    if s != [] {
      var last := |s| - 1;
      var before := FoldUntil(t, s[..last], now, stops[..last]);
      FailedRunWrites(t, s[..last], now, stops[..last], certificate, number);
      UntilTouchesOne(before, s[last], now, stops[last], certificate);
      if s[last].usable && s[last].certificate == certificate {
        OneWrites(At(before, certificate), s[last], now, stops[last], number);
        WritesCompose(At(t, certificate), At(before, certificate), At(FoldUntil(t, s, now, stops), certificate),
                      Of(s[..last], certificate), s[last], number);
      }
    }
  }

  // ─── Importing the movements again ───────────────────────

  lemma {:induction false} NothingTold(mine: seq<Novedad>)
    ensures LastTelling(mine).None? ==> TellsNoRisk(mine)
    ensures LastVehicle(mine).None? ==> BringsNoVehicle(mine)
  {
    if mine != [] {
      assert mine == mine[..|mine| - 1] + [mine[|mine| - 1]];
      NothingTold(mine[..|mine| - 1]);
    }
  }

  lemma {:induction false} NoListing(mine: seq<Novedad>, number: int)
    requires LastListing(mine, number).None?
    ensures Unlisted(mine, number)
  {
    if mine != [] {
      assert mine == mine[..|mine| - 1] + [mine[|mine| - 1]];
      NoListing(mine[..|mine| - 1], number);
    }
  }

  /** The same row, but for when it was cancelled. */
  predicate SameRow(a: Option<Installment>, b: Option<Installment>) {
    && (a.Some? <==> b.Some?)
    && (a.Some? ==> a.value == b.value.(deletedAt := a.value.deletedAt)
                    && (a.value.deletedAt.None? <==> b.value.deletedAt.None?))
  }

  /** The same rows, but for what only their creation wrote and for the dates of cancellations. */
  predicate SameButCreation(a: Option<Entry>, b: Option<Entry>, number: int) {
    && (a.Some? <==> b.Some?)
    && (a.Some? ==>
          && a.value.policy == b.value.policy.(validFrom := a.value.policy.validFrom, holder := a.value.policy.holder)
          && a.value.vehicle == b.value.vehicle
          && SameRow(RowIn(a, number), RowIn(b, number)))
  }

  predicate Within(few: seq<Novedad>, many: seq<Novedad>) { forall n | n in few :: n in many }

  lemma SamePolicyAgain(before: Option<Entry>, failed: Option<Entry>, few: seq<Novedad>, mine: seq<Novedad>, later: Time, number: int)
    requires WrittenBy(before, failed, few, number) && Within(few, mine) && mine != []
    ensures var a, b := FoldEntry(failed, mine, later).value, FoldEntry(before, mine, later).value;
            && a.policy == b.policy.(validFrom := a.policy.validFrom, holder := a.policy.holder)
            && a.vehicle == b.vehicle
  {
    FoldSettles(before, mine, later);
    FoldSettles(failed, mine, later);
    NothingTold(mine);
    assert TellsNoRisk(mine) ==> TellsNoRisk(few);
    assert BringsNoVehicle(mine) ==> BringsNoVehicle(few);
  }

  lemma SameRowAgain(before: Option<Entry>, failed: Option<Entry>, few: seq<Novedad>, mine: seq<Novedad>, later: Time, number: int)
    requires WrittenBy(before, failed, few, number) && Within(few, mine) && mine != []
    ensures SameRow(RowIn(FoldEntry(failed, mine, later), number), RowIn(FoldEntry(before, mine, later), number))
  {
    FoldInstallments(before, mine, later, number);
    FoldInstallments(failed, mine, later, number);
    if LastListing(mine, number).None? {
      NoListing(mine, number);
    }
  }

  lemma SortKeepsOf(batch: seq<Novedad>, certificate: string)
    ensures forall n :: n in Of(SortBySuplemento(batch), certificate) <==> n in Of(batch, certificate)
  {
    forall n
      ensures n in Of(SortBySuplemento(batch), certificate) <==> n in Of(batch, certificate)
    {
      OfCounts(SortBySuplemento(batch), certificate, n);
      OfCounts(batch, certificate, n);
    }
  }

  lemma ComesAgain(batch: seq<Novedad>, again: seq<Novedad>, certificate: string)
    requires Within(Of(batch, certificate), again)
    ensures Within(Of(SortBySuplemento(batch), certificate), Of(SortBySuplemento(again), certificate))
  {
    SortKeepsOf(batch, certificate);
    SortKeepsOf(again, certificate);
    forall n | n in Of(batch, certificate)
      ensures n in Of(again, certificate)
    {
    }
  }

  lemma SameAgain(before: Option<Entry>, failed: Option<Entry>, few: seq<Novedad>, mine: seq<Novedad>, later: Time, number: int)
    requires WrittenBy(before, failed, few, number) && Within(few, mine)
    ensures SameButCreation(FoldEntry(failed, mine, later), FoldEntry(before, mine, later), number)
  {
    assert few != [] ==> few[0] in mine;
    if mine != [] {
      SamePolicyAgain(before, failed, few, mine, later, number);
      SameRowAgain(before, failed, few, mine, later, number);
    }
  }

  /**
   * A batch failed anywhere, in as many movements as it likes, and what it brought comes again, perhaps with more, in
   * an import that does not fail: every certificate is left as if the failed batch had never been, but for the dates
   * of cancellations, and for the start and the holder of a policy the failed batch created.
   */
  lemma RetryHeals(t: Table, batch: seq<Novedad>, now: Time, stops: seq<Option<Reached>>, again: seq<Novedad>, later: Time,
                   certificate: string, number: int)
    requires |stops| == |SortBySuplemento(batch)| && Within(Of(batch, certificate), again)
    ensures var failed := FoldUntil(t, SortBySuplemento(batch), now, stops);
            SameButCreation(At(SyncBatch(failed, again, later), certificate), At(SyncBatch(t, again, later), certificate), number)
  {
    var failed := FoldUntil(t, SortBySuplemento(batch), now, stops);
    ComesAgain(batch, again, certificate);
    FailedRunWrites(t, SortBySuplemento(batch), now, stops, certificate, number);
    FoldIsPerCertificate(t, SortBySuplemento(again), later, certificate);
    FoldIsPerCertificate(failed, SortBySuplemento(again), later, certificate);
    SameAgain(At(t, certificate), At(failed, certificate), Of(SortBySuplemento(batch), certificate),
              Of(SortBySuplemento(again), certificate), later, number);
  }

  // ─── Who created the policy ──────────────────────────────

  predicate WritesPolicy(stop: Option<Reached>) { stop.None? || stop.value.PolicyRow? || stop.value.CuotaRows? }

  /** The first movement of the certificate whose policy was written. */
  function Creator(s: seq<Novedad>, stops: seq<Option<Reached>>, certificate: string): Option<Novedad>
    requires |stops| == |s|
  {
    if s == [] then None else
      var last := |s| - 1;
      var earlier := Creator(s[..last], stops[..last], certificate);
      if earlier.Some? then earlier
      else if s[last].usable && s[last].certificate == certificate && WritesPolicy(stops[last]) then Some(s[last])
      else None
  }

  predicate CreatedFrom(p: Policy, n: Novedad) { p.validFrom == n.validFrom && p.holder == n.holder }

  /** The row as the creator left it, or as it was. */
  predicate CreatedBy(before: Option<Entry>, after: Option<Entry>, creator: Option<Novedad>) {
    if before.Some? then after.Some? && SameCreation(after.value.policy, before.value.policy)
    else (after.Some? <==> creator.Some?) && (creator.Some? ==> CreatedFrom(after.value.policy, creator.value))
  }

  lemma OneCreates(before: Option<Entry>, e: Option<Entry>, creator: Option<Novedad>, n: Novedad, now: Time, stop: Option<Reached>)
    requires CreatedBy(before, e, creator)
    ensures CreatedBy(before, AfterOne(e, n, now, stop),
                      if creator.Some? then creator else if WritesPolicy(stop) then Some(n) else None)
  {
  }

  lemma {:induction false} CreatorCreates(t: Table, s: seq<Novedad>, now: Time, stops: seq<Option<Reached>>, certificate: string)
    requires |stops| == |s|
    ensures CreatedBy(At(t, certificate), At(FoldUntil(t, s, now, stops), certificate), Creator(s, stops, certificate))
  {
    if s != [] {
      var last := |s| - 1;
      var before := FoldUntil(t, s[..last], now, stops[..last]);
      CreatorCreates(t, s[..last], now, stops[..last], certificate);
      UntilTouchesOne(before, s[last], now, stops[last], certificate);
      OneCreates(At(t, certificate), At(before, certificate), Creator(s[..last], stops[..last], certificate), s[last], now,
                 stops[last]);
    }
  }

  lemma CreationStays(before: Option<Entry>, mine: seq<Novedad>, later: Time)
    requires mine != []
    ensures var p := FoldEntry(before, mine, later).value.policy;
            if before.Some? then SameCreation(p, before.value.policy) else CreatedFrom(p, mine[0])
  {
    FoldSettles(before, mine, later);
  }

  /**
   * The policy itself is as if the failed batch had never been exactly when it existed before, or the failed batch did
   * not create it, or the movement that did tells the same start and holder as the oldest one of the import.
   */
  lemma RetryHealsThePolicyIff(t: Table, batch: seq<Novedad>, now: Time, stops: seq<Option<Reached>>, again: seq<Novedad>,
                               later: Time, certificate: string)
    requires |stops| == |SortBySuplemento(batch)| && Within(Of(batch, certificate), again) && Of(again, certificate) != []
    ensures var failed := FoldUntil(t, SortBySuplemento(batch), now, stops);
            var healed, clean := SyncBatch(failed, again, later), SyncBatch(t, again, later);
            var creator, mine := Creator(SortBySuplemento(batch), stops, certificate), Of(SortBySuplemento(again), certificate);
            && certificate in healed && certificate in clean && mine != []
            && (healed[certificate].policy == clean[certificate].policy <==>
                certificate in t || creator.None?
                || (creator.value.validFrom == mine[0].validFrom && creator.value.holder == mine[0].holder))
  {
    var sorted := SortBySuplemento(again);
    var failed := FoldUntil(t, SortBySuplemento(batch), now, stops);
    RetryHeals(t, batch, now, stops, again, later, certificate, 0);
    SortKeepsOf(again, certificate);
    assert Of(again, certificate)[0] in Of(sorted, certificate);
    FoldIsPerCertificate(t, sorted, later, certificate);
    FoldIsPerCertificate(failed, sorted, later, certificate);
    CreatorCreates(t, SortBySuplemento(batch), now, stops, certificate);
    CreationStays(At(t, certificate), Of(sorted, certificate), later);
    CreationStays(At(failed, certificate), Of(sorted, certificate), later);
  }

  lemma OfPair(a: Novedad, b: Novedad)
    requires a.usable && b.usable && a.certificate == b.certificate
    ensures Of([a, b], a.certificate) == [a, b]
  {
    assert [a, b][..1] == [a];
    assert Of([a], a.certificate) == [a];
  }

  lemma SecondCreates(a: Novedad, b: Novedad)
    requires a.usable && b.usable && a.certificate == b.certificate
    ensures Creator([a, b], [Some(Nothing), None], a.certificate) == Some(b)
  {
    var stops: seq<Option<Reached>> := [Some(Nothing), None];
    assert [a, b][..1] == [a] && stops[..1] == [Some(Nothing)];
    assert Creator([a], [Some(Nothing)], a.certificate).None?;
  }

  lemma StartAfter(t: Table, batch: seq<Novedad>, later: Time, certificate: string)
    requires batch != [] && Ascending(batch, Suplemento) && Of(batch, certificate) == batch
    ensures var after := SyncBatch(t, batch, later);
            && certificate in after
            && after[certificate].policy.validFrom
               == if certificate in t then t[certificate].policy.validFrom else batch[0].validFrom
  {
    SortKeepsSorted(batch, Suplemento);
    FoldIsPerCertificate(t, batch, later, certificate);
    CreationStays(At(t, certificate), batch, later);
  }

  /** The oldest movement throws before its policy is written, the next one creates it, and the retry keeps that start. */
  lemma RetryKeepsTheLaterStart(first: Novedad, next: Novedad, now: Time, later: Time)
    requires first.usable && next.usable && first.certificate == next.certificate && first.suplemento < next.suplemento
    requires first.validFrom != next.validFrom
    ensures var batch, stops := [first, next], [Some(Nothing), None];
            && SortBySuplemento(batch) == batch
            && var healed := SyncBatch(FoldUntil(map[], batch, now, stops), batch, later);
               var clean := SyncBatch(map[], batch, later);
               && first.certificate in healed && healed[first.certificate].policy.validFrom == next.validFrom
               && first.certificate in clean && clean[first.certificate].policy.validFrom == first.validFrom
  {
    var batch, stops: seq<Option<Reached>>, c := [first, next], [Some(Nothing), None], first.certificate;
    SortKeepsSorted(batch, Suplemento);
    var failed := FoldUntil(map[], batch, now, stops);
    OfPair(first, next);
    SecondCreates(first, next);
    CreatorCreates(map[], batch, now, stops, c);
    StartAfter(map[], batch, later, c);
    StartAfter(failed, batch, later, c);
  }
}
