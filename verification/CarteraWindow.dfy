/** Which movements an import asks for, and so which of those that failed ever come again. */
module CarteraWindow {
  import opened CarteraRetry
  import opened CarteraService
  import opened CarteraSync
  import opened Sorting
  import opened Wrappers

  const BACKFILL_MONTHS := 6
  const INCREMENTAL_MONTHS := 3

  /** The date so many months before another, as the calendar has it. */
  type Back = (Time, nat) -> Time

  function Months(c: Code): nat { if c.lastSyncAt.Some? then INCREMENTAL_MONTHS else BACKFILL_MONTHS }

  predicate InWindow(n: Novedad, c: Code, now: Time, back: Back) { back(now, Months(c)) <= n.date <= now }

  /** What the insurer answers a code, out of all it holds for it by then. */
  function Asked(book: seq<Novedad>, c: Code, now: Time, back: Back): seq<Novedad> {
    Filter(book, (n: Novedad) => InWindow(n, c, now, back))
  }

  /** An answer shortens every later window, whatever its movements did, unless the stamp itself was not written. */
  lemma StampShortens(c: Code, a: Answer, now: Time)
    ensures Months(Stamped(c, a, now)) ==
            if c.lastSyncAt.Some? || (a.Answered? && c.stored && a.stamp.Applied()) then INCREMENTAL_MONTHS
            else BACKFILL_MONTHS
  {
  }

  // ─── The next import ─────────────────────────────────────

  /** Every movement of the certificate that came now is dated in the window of the next import. */
  predicate AllComeAgain(batch: seq<Novedad>, certificate: string, c: Code, later: Time, back: Back) {
    forall n | n in Of(batch, certificate) :: back(later, Months(c)) <= n.date
  }

  predicate Grows(book: seq<Novedad>, more: seq<Novedad>) { forall n | n in book :: n in more }

  /** What came once comes again at the next import exactly when it is dated in the window the stamp leaves. */
  lemma ComesAgainIff(book: seq<Novedad>, more: seq<Novedad>, c: Code, next: Code, now: Time, later: Time, back: Back,
                      certificate: string)
    requires Grows(book, more) && now <= later
    ensures Within(Of(Asked(book, c, now, back), certificate), Asked(more, next, later, back)) <==>
            AllComeAgain(Asked(book, c, now, back), certificate, next, later, back)
  {
    var mine := Of(Asked(book, c, now, back), certificate);
    forall n | n in mine
      ensures n in Asked(more, next, later, back) <==> back(later, Months(next)) <= n.date
    {
      assert n in Asked(book, c, now, back) && InWindow(n, c, now, back) && n in more;
    }
  }

  /**
   * A code's import fails anywhere and is stamped or not; the next one answers and does not fail. Every certificate whose
   * movements are all dated in the next window is left as if the failed import had never been, but for the dates of
   * cancellations and for the start and the holder of a policy it created.
   */
  lemma NextImportHeals(t: Table, book: seq<Novedad>, more: seq<Novedad>, c: Code, a: Answer, now: Time, later: Time,
                        back: Back, stops: seq<Option<Reached>>, certificate: string, number: int)
    requires Grows(book, more) && now <= later
    requires a.Answered? && a.batch == Asked(book, c, now, back) && |stops| == |SortBySuplemento(a.batch)|
    requires AllComeAgain(a.batch, certificate, Stamped(c, a, now), later, back)
    ensures var failed := FoldUntil(t, SortBySuplemento(a.batch), now, stops);
            var again := Asked(more, Stamped(c, a, now), later, back);
            SameButCreation(At(SyncBatch(failed, again, later), certificate), At(SyncBatch(t, again, later), certificate), number)
  {
    ComesAgainIff(book, more, c, Stamped(c, a, now), now, later, back, certificate);
    RetryHeals(t, a.batch, now, stops, Asked(more, Stamped(c, a, now), later, back), later, certificate, number);
  }

  lemma SortHasMovements(batch: seq<Novedad>, certificate: string)
    ensures Of(SortBySuplemento(batch), certificate) != [] <==> Of(batch, certificate) != []
  {
    SortKeepsOf(batch, certificate);
    var sorted, plain := Of(SortBySuplemento(batch), certificate), Of(batch, certificate);
    if sorted != [] {
      assert sorted[0] in sorted && sorted[0] in plain;
    }
    if plain != [] {
      assert plain[0] in plain && plain[0] in sorted;
    }
  }

  /** A certificate that is missing is in the table after an import without failures exactly when one of its movements is asked for. */
  lemma MissingComesInIff(t: Table, book: seq<Novedad>, c: Code, now: Time, back: Back, certificate: string)
    requires certificate !in t
    ensures certificate in SyncBatch(t, Asked(book, c, now, back), now) <==>
            exists n | n in book :: n.usable && n.certificate == certificate && InWindow(n, c, now, back)
  {
    var asked := Asked(book, c, now, back);
    FoldIsPerCertificate(t, SortBySuplemento(asked), now, certificate);
    SortHasMovements(asked, certificate);
    if Of(asked, certificate) != [] {
      var n := Of(asked, certificate)[0];
      assert n in Of(asked, certificate) && n in asked && n in book;
    }
    if n :| n in book && n.usable && n.certificate == certificate && InWindow(n, c, now, back) {
      assert n in asked && n in Of(asked, certificate);
    }
  }

  // ─── Every later import ──────────────────────────────────

  /** One import of a code: what the insurer held by then, and how it went. */
  datatype Import = Import(now: Time, book: seq<Novedad>, answered: bool, stops: seq<Option<Reached>>, stamp: Outcome)

  datatype Account = Account(code: Code, rows: Table)

  function Padded(stops: seq<Option<Reached>>, n: nat): (r: seq<Option<Reached>>)
    ensures |r| == n
  {
    seq(n, i => if 0 <= i < |stops| then stops[i] else None)
  }

  function RowsAfter(rows: Table, sorted: seq<Novedad>, i: Import): Table {
    FoldUntil(rows, sorted, i.now, Padded(i.stops, |sorted|))
  }

  function After(a: Account, i: Import, back: Back): Account {
    if !i.answered then a else
      var batch := Asked(i.book, a.code, i.now, back);
      Account(Stamped(a.code, Answered(batch, Padded(i.stops, |batch|), i.stamp), i.now),
              RowsAfter(a.rows, SortBySuplemento(batch), i))
  }

  function Imports(a: Account, imports: seq<Import>, back: Back): Account {
    if imports == [] then a else
      var last := |imports| - 1;
      After(Imports(a, imports[..last], back), imports[last], back)
  }

  /** By the time of each import the certificate's movements are all older than the short window. */
  predicate TooOld(imports: seq<Import>, certificate: string, back: Back) {
    forall i | i in imports :: Stale(i, certificate, back)
  }

  predicate Stale(i: Import, certificate: string, back: Back) {
    forall n | n in i.book && n.usable && n.certificate == certificate :: n.date < back(i.now, INCREMENTAL_MONTHS)
  }

  lemma StaleIsNotAsked(a: Account, i: Import, certificate: string, back: Back)
    requires a.code.lastSyncAt.Some? && Stale(i, certificate, back)
    ensures After(a, i, back).code.lastSyncAt.Some?
    ensures At(After(a, i, back).rows, certificate) == At(a.rows, certificate)
  {
    if i.answered {
      var asked := Asked(i.book, a.code, i.now, back);
      var sorted := SortBySuplemento(asked);
      var mine := Of(asked, certificate);
      FirstIsIn(mine);
      SortHasMovements(asked, certificate);
      FailedRunWrites(a.rows, sorted, i.now, Padded(i.stops, |sorted|), certificate, 0);
    }
  }

  /**
   * Once a code is stamped, a certificate that was left out and whose movements are older than the short window stays
   * out at every later import, however many there are: only a first import asks further back.
   */
  lemma {:induction false} LeftOutForGood(a: Account, imports: seq<Import>, certificate: string, back: Back)
    requires a.code.lastSyncAt.Some? && certificate !in a.rows && TooOld(imports, certificate, back)
    ensures var after := Imports(a, imports, back); after.code.lastSyncAt.Some? && certificate !in after.rows
  {
    if imports != [] {
      var last := |imports| - 1;
      assert imports[last] in imports && forall i | i in imports[..last] :: i in imports;
      LeftOutForGood(a, imports[..last], certificate, back);
      StaleIsNotAsked(Imports(a, imports[..last], back), imports[last], certificate, back);
    }
  }

  lemma OneAsked(n: Novedad, c: Code, now: Time, back: Back)
    requires InWindow(n, c, now, back)
    ensures SortBySuplemento(Asked([n], c, now, back)) == [n]
  {
    var p := (m: Novedad) => InWindow(m, c, now, back);
    FilterAppend([], n, p);
    assert [] + [n] == [n] && Filter([], p) == [];
    assert Asked([n], c, now, back) == Filter([n], p);
    SortKeepsSorted([n], Suplemento);
  }

  function Failing(n: Novedad, now: Time): Import { Import(now, [n], true, [Some(Nothing)], Done) }

  lemma OneThrows(rows: Table, n: Novedad, now: Time)
    requires n.usable
    ensures RowsAfter(rows, [n], Failing(n, now)) == rows
  {
    var stops: seq<Option<Reached>> := [Some(Nothing)];
    assert Padded(stops, 1) == stops;
    assert [n][..0] == [] && stops[..0] == [];
    assert FoldUntil(rows, [n][..0], now, stops[..0]) == rows;
  }

  lemma AfterOnlyThrow(c: Code, rows: Table, n: Novedad, now: Time, back: Back)
    requires n.usable && InWindow(n, c, now, back)
    ensures After(Account(c, rows), Failing(n, now), back).rows == rows
  {
    OneAsked(n, c, now, back);
    OneThrows(rows, n, now);
  }

  /** The first import of a code brings one movement, which throws at once: the code is stamped all the same. */
  lemma BackfillLeavesAHole(n: Novedad, now: Time, back: Back, imports: seq<Import>)
    requires n.usable && back(now, BACKFILL_MONTHS) <= n.date <= now
    requires TooOld(imports, n.certificate, back)
    ensures n.certificate !in Imports(After(Account(Code(true, None), map[]), Failing(n, now), back), imports, back).rows
  {
    AfterOnlyThrow(Code(true, None), map[], n, now, back);
    LeftOutForGood(After(Account(Code(true, None), map[]), Failing(n, now), back), imports, n.certificate, back);
  }
}
