/** The import as the service runs it over the codes of an organization, its clients found or created on the way. */
module CarteraService {
  import opened CarteraClients
  import opened CarteraNightly
  import opened CarteraSync
  import opened Sorting
  import opened Wrappers

  // ─── Movements and their clients ─────────────────────────

  /** Where a movement throws: at its client when the table refuses it, else where its storage calls do. */
  function StopOf(clients: seq<Client>, n: Novedad, stop: Option<Reached>): Option<Reached> {
    if n.usable && SyncClient(clients, n.holder, n.contact).None? then Some(Nothing) else stop
  }

  function ClientsAfter(clients: seq<Client>, n: Novedad, stop: Option<Reached>): seq<Client> {
    if !n.usable || stop == Some(Nothing) then clients else SyncClient(clients, n.holder, n.contact).GetOr(clients)
  }

  function ClientsFold(clients: seq<Client>, s: seq<Novedad>, stops: seq<Option<Reached>>): seq<Client>
    requires |stops| == |s|
  {
    if s == [] then clients else
      var last := |s| - 1;
      ClientsAfter(ClientsFold(clients, s[..last], stops[..last]), s[last], stops[last])
  }

  function StopsOf(clients: seq<Client>, s: seq<Novedad>, stops: seq<Option<Reached>>): (r: seq<Option<Reached>>)
    requires |stops| == |s|
    ensures |r| == |s|
  {
    if s == [] then [] else
      var last := |s| - 1;
      StopsOf(clients, s[..last], stops[..last])
      + [StopOf(ClientsFold(clients, s[..last], stops[..last]), s[last], stops[last])]
  }

  lemma ClientsNext(clients: seq<Client>, s: seq<Novedad>, stops: seq<Option<Reached>>, i: nat)
    requires i < |s| == |stops|
    ensures ClientsFold(clients, s[..i + 1], stops[..i + 1]) ==
            ClientsAfter(ClientsFold(clients, s[..i], stops[..i]), s[i], stops[i])
    ensures StopsOf(clients, s[..i + 1], stops[..i + 1]) ==
            StopsOf(clients, s[..i], stops[..i]) + [StopOf(ClientsFold(clients, s[..i], stops[..i]), s[i], stops[i])]
  {
    assert s[..i + 1][..i] == s[..i] && stops[..i + 1][..i] == stops[..i];
  }

  /** Whatever a batch holds and wherever its movements throw, no two clients come to share a document, e-mail or phone. */
  lemma {:induction false} BatchKeepsNoClash(clients: seq<Client>, s: seq<Novedad>, stops: seq<Option<Reached>>)
    requires NoClash(clients) && |stops| == |s|
    ensures NoClash(ClientsFold(clients, s, stops))
  {
    if s != [] {
      var last := |s| - 1;
      var before := ClientsFold(clients, s[..last], stops[..last]);
      BatchKeepsNoClash(clients, s[..last], stops[..last]);
      if SyncClient(before, s[last].holder, s[last].contact).Some? {
        SyncKeepsNoClash(before, s[last].holder, s[last].contact);
      }
    }
  }

  /** Every policy's holder is a client in use. */
  predicate HoldersAreClients(clients: seq<Client>, t: Table) {
    forall c | c in t :: Find(clients, t[c].policy.holder).Some?
  }

  lemma FindStays(clients: seq<Client>, n: Novedad, stop: Option<Reached>, dni: string)
    requires Find(clients, dni).Some?
    ensures Find(ClientsAfter(clients, n, stop), dni).Some?
  {
    if SyncClient(clients, n.holder, n.contact).Some? {
      SyncKeepsClient(clients, n.holder, n.contact, dni);
    }
  }

  /** A policy's holder is who it was, or on a new policy who the movement says, whose client was settled before. */
  lemma HoldersAfter(t: Table, n: Novedad, now: Time, stop: Option<Reached>, c: string)
    requires c in SyncUntil(t, n, now, stop)
    ensures var holder := SyncUntil(t, n, now, stop)[c].policy.holder;
            if c in t then holder == t[c].policy.holder else n.usable && stop != Some(Nothing) && holder == n.holder
  {
  }

  /** A movement whose client is refused leaves the tables alone; any other goes on as if there were no clients. */
  lemma RefusedLeavesTables(clients: seq<Client>, t: Table, n: Novedad, now: Time, stop: Option<Reached>)
    ensures var after := SyncUntil(t, n, now, StopOf(clients, n, stop));
            if !n.usable || stop == Some(Nothing) || SyncClient(clients, n.holder, n.contact).None?
            then ClientsAfter(clients, n, stop) == clients && after == t
            else Some(ClientsAfter(clients, n, stop)) == SyncClient(clients, n.holder, n.contact)
                 && after == SyncUntil(t, n, now, stop)
  {
  }

  lemma MovementKeepsHolders(clients: seq<Client>, t: Table, n: Novedad, now: Time, stop: Option<Reached>)
    requires HoldersAreClients(clients, t)
    ensures HoldersAreClients(ClientsAfter(clients, n, stop), SyncUntil(t, n, now, StopOf(clients, n, stop)))
  {
    var after, rows := ClientsAfter(clients, n, stop), SyncUntil(t, n, now, StopOf(clients, n, stop));
    RefusedLeavesTables(clients, t, n, now, stop);
    forall c | c in rows
      ensures Find(after, rows[c].policy.holder).Some?
    {
      HoldersAfter(t, n, now, StopOf(clients, n, stop), c);
      if c in t {
        FindStays(clients, n, stop, t[c].policy.holder);
      } else {
        HolderIsClient(clients, n.holder, n.contact);
      }
    }
  }

  /** Over a whole batch, with its movements throwing anywhere, no policy comes without a client in use as its holder. */
  lemma {:induction false} BatchKeepsHolders(clients: seq<Client>, t: Table, s: seq<Novedad>, now: Time, stops: seq<Option<Reached>>)
    requires |stops| == |s| && HoldersAreClients(clients, t)
    ensures HoldersAreClients(ClientsFold(clients, s, stops), FoldUntil(t, s, now, StopsOf(clients, s, stops)))
  {
    if s != [] {
      var last := |s| - 1;
      var held, before := ClientsFold(clients, s[..last], stops[..last]), StopsOf(clients, s[..last], stops[..last]);
      BatchKeepsHolders(clients, t, s[..last], now, stops[..last]);
      MovementKeepsHolders(held, FoldUntil(t, s[..last], now, before), s[last], now, stops[last]);
      NextMovement(t, clients, s, now, stops, last);
      assert s[..last + 1] == s && stops[..last + 1] == stops;
    }
  }

  predicate NoneRetired(clients: seq<Client>) { forall c | c in clients :: !c.retired }

  lemma NobodyHoldsBack(clients: seq<Client>, n: Novedad, stop: Option<Reached>)
    requires NoneRetired(clients)
    ensures StopOf(clients, n, stop) == stop && NoneRetired(ClientsAfter(clients, n, stop))
  {
    RefusedIff(clients, n.holder, n.contact);
  }

  /** While no client is retired, no movement is held back by another one's e-mail or phone. */
  lemma {:induction false} NobodyIsInTheWay(clients: seq<Client>, s: seq<Novedad>, stops: seq<Option<Reached>>)
    requires NoneRetired(clients) && |stops| == |s|
    ensures StopsOf(clients, s, stops) == stops && NoneRetired(ClientsFold(clients, s, stops))
  {
    if s != [] {
      var last := |s| - 1;
      NobodyIsInTheWay(clients, s[..last], stops[..last]);
      NobodyHoldsBack(ClientsFold(clients, s[..last], stops[..last]), s[last], stops[last]);
      assert stops == stops[..last] + [stops[last]];
    }
  }

  // ─── The codes of an organization ────────────────────────

  /** A code; one that is not stored stands for an organization that has none yet. */
  datatype Code = Code(stored: bool, lastSyncAt: Option<Time>)

  /** What a code's request brings: it throws, or answers its movements, with how their calls and the stamp end. */
  datatype Answer = NoAnswer | Answered(batch: seq<Novedad>, stops: seq<Option<Reached>>, stamp: Outcome) {
    predicate Valid() { Answered? ==> |stops| == |batch| }
  }

  /** A code that answered is stamped, whatever its movements did. */
  function Stamped(c: Code, a: Answer, now: Time): Code {
    if a.Answered? && c.stored && a.stamp.Applied() then c.(lastSyncAt := Some(now)) else c
  }

  datatype Office = Office(clients: seq<Client>, rows: Table)

  lemma SortKeepsLength(batch: seq<Novedad>)
    ensures |SortBySuplemento(batch)| == |batch|
  {
    assert |multiset(SortBySuplemento(batch))| == |multiset(batch)|;
  }

  function ImportCode(o: Office, a: Answer, now: Time): Office
    requires a.Valid()
  {
    if a.NoAnswer? then o else
      SortKeepsLength(a.batch);
      var sorted := SortBySuplemento(a.batch);
      Office(ClientsFold(o.clients, sorted, a.stops), FoldUntil(o.rows, sorted, now, StopsOf(o.clients, sorted, a.stops)))
  }

  function SkippedOf(o: Office, a: Answer): nat
    requires a.Valid()
  {
    if a.NoAnswer? then 0 else
      SortKeepsLength(a.batch);
      CountThrown(SortBySuplemento(a.batch), StopsOf(o.clients, SortBySuplemento(a.batch), a.stops))
  }

  predicate AllValid(answers: seq<Answer>) { forall a | a in answers :: a.Valid() }

  function ImportCodes(o: Office, answers: seq<Answer>, now: Time): Office
    requires AllValid(answers)
  {
    if answers == [] then o else
      var last := |answers| - 1;
      ImportCode(ImportCodes(o, answers[..last], now), answers[last], now)
  }

  function Skipped(o: Office, answers: seq<Answer>, now: Time): nat
    requires AllValid(answers)
  {
    if answers == [] then 0 else
      var last := |answers| - 1;
      Skipped(o, answers[..last], now) + SkippedOf(ImportCodes(o, answers[..last], now), answers[last])
  }

  function Received(answers: seq<Answer>): nat {
    if answers == [] then 0 else
      var last := answers[|answers| - 1];
      Received(answers[..|answers| - 1]) + if last.Answered? then |last.batch| else 0
  }

  lemma OneMoreCode(o: Office, answers: seq<Answer>, now: Time, k: nat)
    requires AllValid(answers) && k < |answers|
    ensures AllValid(answers[..k]) && AllValid(answers[..k + 1])
    ensures ImportCodes(o, answers[..k + 1], now) == ImportCode(ImportCodes(o, answers[..k], now), answers[k], now)
    ensures Skipped(o, answers[..k + 1], now) ==
            Skipped(o, answers[..k], now) + SkippedOf(ImportCodes(o, answers[..k], now), answers[k])
    ensures Received(answers[..k + 1]) == Received(answers[..k]) + if answers[k].Answered? then |answers[k].batch| else 0
  {
    assert answers[..k + 1][..k] == answers[..k];
  }

  /** The answers' batches one after another, each sorted and folded. */
  function SyncBatches(t: Table, answers: seq<Answer>, now: Time): Table {
    if answers == [] then t else
      var before, last := SyncBatches(t, answers[..|answers| - 1], now), answers[|answers| - 1];
      if last.NoAnswer? then before else SyncBatch(before, last.batch, now)
  }

  predicate Clean(a: Answer) { a.Answered? ==> forall stop | stop in a.stops :: stop.None? }

  lemma CleanCode(o: Office, a: Answer, now: Time)
    requires a.Valid() && Clean(a) && NoneRetired(o.clients)
    ensures NoneRetired(ImportCode(o, a, now).clients) && SkippedOf(o, a) == 0
    ensures ImportCode(o, a, now).rows == if a.NoAnswer? then o.rows else SyncBatch(o.rows, a.batch, now)
  {
    if a.Answered? {
      SortKeepsLength(a.batch);
      NobodyIsInTheWay(o.clients, SortBySuplemento(a.batch), a.stops);
      NothingThrown(o.rows, SortBySuplemento(a.batch), now, a.stops);
    }
  }

  /** An import in which no call throws skips nothing and leaves every code's batch folded, one after another. */
  lemma {:induction false} CleanImport(o: Office, answers: seq<Answer>, now: Time)
    requires AllValid(answers) && (forall a | a in answers :: Clean(a)) && NoneRetired(o.clients)
    ensures NoneRetired(ImportCodes(o, answers, now).clients) && Skipped(o, answers, now) == 0
    ensures ImportCodes(o, answers, now).rows == SyncBatches(o.rows, answers, now)
  {
    if answers != [] {
      var last := |answers| - 1;
      CleanImport(o, answers[..last], now);
      CleanCode(ImportCodes(o, answers[..last], now), answers[last], now);
    }
  }

  // ─── The service ─────────────────────────────────────────

  ghost predicate Joined(policies: map<string, Policy>, vehicles: map<string, Vehicle>,
                         installments: map<string, map<int, Installment>>) {
    installments.Keys == policies.Keys && vehicles.Keys <= policies.Keys
  }

  /** The three tables read together. */
  ghost function TableOf(policies: map<string, Policy>, vehicles: map<string, Vehicle>,
                         installments: map<string, map<int, Installment>>): Table
    requires Joined(policies, vehicles, installments)
  {
    map c | c in policies :: Entry(policies[c], At(vehicles, c), installments[c])
  }

  lemma OneRowChanges(policies: map<string, Policy>, vehicles: map<string, Vehicle>,
                      installments: map<string, map<int, Installment>>,
                      c: string, p: Policy, vehiclesAfter: map<string, Vehicle>, rows: map<int, Installment>)
    requires Joined(policies, vehicles, installments)
    requires vehiclesAfter.Keys <= vehicles.Keys + {c}
    requires forall k | k != c :: At(vehiclesAfter, k) == At(vehicles, k)
    ensures Joined(policies[c := p], vehiclesAfter, installments[c := rows])
    ensures TableOf(policies[c := p], vehiclesAfter, installments[c := rows])
              == TableOf(policies, vehicles, installments)[c := Entry(p, At(vehiclesAfter, c), rows)]
  {
    var after := TableOf(policies[c := p], vehiclesAfter, installments[c := rows]);
    var before := TableOf(policies, vehicles, installments);
    forall k | k in before && k != c
      ensures after[k] == before[k]
    {
      assert At(vehiclesAfter, k) == At(vehicles, k);
    }
  }

  /** The movement reaches its policy. */
  predicate Reaches(n: Novedad, stop: Option<Reached>) {
    n.usable && (stop.Some? ==> stop.value.PolicyRow? || stop.value.CuotaRows?)
  }

  function VehiclesAfter(vehicles: map<string, Vehicle>, n: Novedad, stop: Option<Reached>): map<string, Vehicle> {
    if stop == Some(PolicyRow) || n.vehicle.None? then vehicles else vehicles[n.certificate := VehicleOf(n.vehicle.value)]
  }

  function CuotasAfter(start: map<int, Installment>, n: Novedad, now: Time, stop: Option<Reached>): map<int, Installment>
    requires Reaches(n, stop)
  {
    if stop == Some(PolicyRow) then start
    else if stop.None? then UpsertCuotas(start, n.cuotas, now)
    else CuotasUntil(start, n.cuotas, now, stop.value.count, stop.value.unstamped)
  }

  lemma RowsAfter(policies: map<string, Policy>, vehicles: map<string, Vehicle>,
                  installments: map<string, map<int, Installment>>, n: Novedad, now: Time, stop: Option<Reached>)
    requires Joined(policies, vehicles, installments) && Reaches(n, stop)
    ensures var c := n.certificate;
            var rows := CuotasAfter(At(installments, c).GetOr(map[]), n, now, stop);
            && Joined(policies[c := UpsertPolicy(At(policies, c), n)], VehiclesAfter(vehicles, n, stop), installments[c := rows])
            && TableOf(policies[c := UpsertPolicy(At(policies, c), n)], VehiclesAfter(vehicles, n, stop), installments[c := rows])
               == SyncUntil(TableOf(policies, vehicles, installments), n, now, stop)
  {
    var c := n.certificate;
    OneRowChanges(policies, vehicles, installments, c, UpsertPolicy(At(policies, c), n), VehiclesAfter(vehicles, n, stop),
                  CuotasAfter(At(installments, c).GetOr(map[]), n, now, stop));
  }

  lemma NextMovement(t: Table, clients: seq<Client>, s: seq<Novedad>, now: Time, stops: seq<Option<Reached>>, i: nat)
    requires i < |s| == |stops|
    ensures var held, stop := ClientsFold(clients, s[..i], stops[..i]), StopOf(ClientsFold(clients, s[..i], stops[..i]), s[i], stops[i]);
            var before := StopsOf(clients, s[..i], stops[..i]);
            && ClientsFold(clients, s[..i + 1], stops[..i + 1]) == ClientsAfter(held, s[i], stops[i])
            && FoldUntil(t, s[..i + 1], now, StopsOf(clients, s[..i + 1], stops[..i + 1]))
               == SyncUntil(FoldUntil(t, s[..i], now, before), s[i], now, stop)
            && CountThrown(s[..i + 1], StopsOf(clients, s[..i + 1], stops[..i + 1]))
               == CountThrown(s[..i], before) + if s[i].usable && stop.Some? then 1 else 0
  {
    ClientsNext(clients, s, stops, i);
    assert s[..i + 1][..i] == s[..i];
  }

  /** The installments a night's pass picks, by certificate and number. */
  function LapsedRows(installments: map<string, map<int, Installment>>, today: Time): set<(string, int)> {
    set c, number | c in installments && number in installments[c] && Lapsed(installments[c][number], today) :: (c, number)
  }

  /** The import of one organization. */
  class CarteraSyncService {
    var clients: seq<Client>
    var policies: map<string, Policy>
    var vehicles: map<string, Vehicle>
    var installments: map<string, map<int, Installment>>
    var codes: seq<Code>
    var syncing: bool

    constructor (rows: seq<Code>)
      ensures Valid() && Rows() == map[] && clients == [] && codes == rows && !syncing
    {
      clients, policies, vehicles, installments, codes, syncing := [], map[], map[], map[], rows, false;
    }

    ghost predicate Valid()
      reads this
    {
      Joined(policies, vehicles, installments)
    }

    ghost function Rows(): Table
      reads this
      requires Valid()
    {
      TableOf(policies, vehicles, installments)
    }

    ghost function View(): Office
      reads this
      requires Valid()
    {
      Office(clients, Rows())
    }

    /** The holder's client, found, created or completed; true when the table refuses a new one. */
    method SyncClientOf(dni: string, c: Contact) returns (threw: bool)
      modifies this`clients
      ensures clients == SyncClient(old(clients), dni, c).GetOr(old(clients))
      ensures threw <==> SyncClient(old(clients), dni, c).None?
    {
      var found := Find(clients, dni);
      if found.None? {
        var added := NewClient(clients, dni, c);
        if exists old_ | old_ in clients :: Clash(added, old_) {
          return true;
        }
        clients := clients + [added];
      } else if clients[found.value].email.None? && c.email.Some? {
        var filled := Completed(clients[found.value], c);
        if !exists j | 0 <= j < |clients| && j != found.value :: Clash(filled, clients[j]) {
          clients := clients[found.value := filled];
        }
      }
      threw := false;
    }

    method UpsertPolicyRow(n: Novedad)
      modifies this`policies
      ensures policies == old(policies)[n.certificate := UpsertPolicy(At(old(policies), n.certificate), n)]
    {
      var c, riskType := n.certificate, ResolveRiskType(n);
      if c in policies {
        var p := policies[c];
        policies := policies[c := p.(
          endorsementNumber := n.suplemento,
          riskType := if n.vehicle.Some? || riskType != OtherRisk then riskType else p.riskType,
          lastMovement := n.movement, validTo := n.validTo, premium := n.premium, paymentMethod := n.paymentMethod,
          rawData := n)];
      } else {
        policies := policies[c := Policy(n.suplemento, riskType, n.movement, n.validFrom, n.validTo, n.premium,
                                         n.paymentMethod, n, n.holder)];
      }
    }

    /** The two writes of a cuota: its row, and the date of a cancellation on one that had none. */
    method UpsertCuotaRow(start: map<int, Installment>, q: Cuota, now: Time) returns (rows: map<int, Installment>)
      ensures rows == start[q.number := UpsertCuota(At(start, q.number), q, now)]
    {
      var row := WriteCuota(At(start, q.number), q, now);
      rows := start[q.number := row];
      if Cancelled(q) && row.deletedAt.None? {
        rows := rows[q.number := row.(deletedAt := Some(now))];
      }
    }

    /** The installments of one movement, until a call throws. */
    method UpsertCuotaRows(start: map<int, Installment>, cuotas: seq<Cuota>, now: Time, count: nat, unstamped: bool)
      returns (rows: map<int, Installment>)
      ensures rows == CuotasUntil(start, cuotas, now, count, unstamped)
    {
      rows := start;
      assert cuotas[..0] == [];
      for i := 0 to |cuotas|
        invariant i <= count && rows == UpsertCuotas(start, cuotas[..i], now)
      {
        var q := cuotas[i];
        if i == count {
          if unstamped {
            rows := rows[q.number := WriteCuota(At(rows, q.number), q, now)];
          }
          return;
        }
        rows := UpsertCuotaRow(rows, q, now);
        assert cuotas[..i + 1][..i] == cuotas[..i];
      }
      assert cuotas[..|cuotas|] == cuotas;
    }

    /** The rows of a movement that reaches its policy, and stops after it or goes on to the other two tables. */
    method SyncRowsOf(n: Novedad, now: Time, stop: Option<Reached>)
      requires Valid() && Reaches(n, stop)
      modifies this`policies, this`vehicles, this`installments
      ensures Valid() && Rows() == SyncUntil(old(Rows()), n, now, stop)
    {
      RowsAfter(policies, vehicles, installments, n, now, stop);
      var c := n.certificate;
      var rows := if c in installments then installments[c] else map[];
      UpsertPolicyRow(n);
      if stop != Some(PolicyRow) {
        if n.vehicle.Some? {
          vehicles := vehicles[c := VehicleOf(n.vehicle.value)];
        }
        var count, unstamped := if stop.Some? then stop.value.count else |n.cuotas|, stop.Some? && stop.value.unstamped;
        rows := UpsertCuotaRows(rows, n.cuotas, now, count, unstamped);
      }
      assert rows == CuotasAfter(At(old(installments), c).GetOr(map[]), n, now, stop);
      assert vehicles == VehiclesAfter(old(vehicles), n, stop);
      installments := installments[c := rows];
    }

    /** One movement; says whether it threw, and then the writes made before it stay. */
    method SyncNovedadOf(n: Novedad, now: Time, stop: Option<Reached>) returns (threw: bool)
      requires Valid()
      modifies this`clients, this`policies, this`vehicles, this`installments
      ensures Valid() && Rows() == SyncUntil(old(Rows()), n, now, StopOf(old(clients), n, stop))
      ensures clients == ClientsAfter(old(clients), n, stop)
      ensures threw <==> n.usable && StopOf(old(clients), n, stop).Some?
    {
      if !n.usable {
        return false;
      }
      if stop == Some(Nothing) {
        return true;
      }
      threw := SyncClientOf(n.holder, n.contact);
      if threw || stop == Some(ClientRow) {
        return true;
      }
      SyncRowsOf(n, now, stop);
      threw := stop.Some?;
    }

    /** The movements one after another, in the order given: one that throws is skipped and counted. */
    method SyncEach(sorted: seq<Novedad>, now: Time, stops: seq<Option<Reached>>) returns (synced: nat, skipped: nat)
      requires Valid() && |stops| == |sorted|
      modifies this`clients, this`policies, this`vehicles, this`installments
      ensures Valid() && Rows() == FoldUntil(old(Rows()), sorted, now, StopsOf(old(clients), sorted, stops))
      ensures clients == ClientsFold(old(clients), sorted, stops)
      ensures skipped == CountThrown(sorted, StopsOf(old(clients), sorted, stops)) && synced + skipped == |sorted|
    {
      synced, skipped := 0, 0;
      ghost var start, held := Rows(), clients;
      for i := 0 to |sorted|
        invariant Valid() && synced + skipped == i
        invariant clients == ClientsFold(held, sorted[..i], stops[..i])
        invariant skipped == CountThrown(sorted[..i], StopsOf(held, sorted[..i], stops[..i]))
        invariant Rows() == FoldUntil(start, sorted[..i], now, StopsOf(held, sorted[..i], stops[..i]))
      {
        NextMovement(start, held, sorted, now, stops, i);
        var threw := SyncNovedadOf(sorted[i], now, stops[i]);
        if threw {
          skipped := skipped + 1;
        } else {
          synced := synced + 1;
        }
      }
      assert sorted[..|sorted|] == sorted && stops[..|sorted|] == stops;
    }

    /** One code: a request that throws leaves it alone, one that answers is imported, oldest endorsement first, and stamped. */
    method SyncCode(k: nat, answer: Answer, now: Time) returns (synced: nat, skipped: nat)
      requires Valid() && k < |codes| && answer.Valid()
      modifies this`clients, this`policies, this`vehicles, this`installments, this`codes
      ensures Valid() && View() == ImportCode(old(View()), answer, now)
      ensures codes == old(codes)[k := Stamped(old(codes)[k], answer, now)]
      ensures skipped == SkippedOf(old(View()), answer)
      ensures synced + skipped == if answer.NoAnswer? then 0 else |answer.batch|
      ensures answer.Answered? && Clean(answer) && NoneRetired(old(clients)) ==>
                Rows() == SyncBatch(old(Rows()), answer.batch, now)
    {
      if answer.NoAnswer? {
        return 0, 0;
      }
      SortKeepsLength(answer.batch);
      synced, skipped := SyncEach(SortBySuplemento(answer.batch), now, answer.stops);
      if codes[k].stored && answer.stamp.Applied() {
        codes := codes[k := codes[k].(lastSyncAt := Some(now))];
      }
      if Clean(answer) && NoneRetired(old(clients)) {
        CleanCode(old(View()), answer, now);
      }
    }

    /** Every code, one after another. */
    method SyncCartera(answers: seq<Answer>, now: Time) returns (codesProcessed: nat, synced: nat, skipped: nat)
      requires Valid() && |answers| == |codes| && AllValid(answers)
      modifies this`clients, this`policies, this`vehicles, this`installments, this`codes
      ensures Valid() && View() == ImportCodes(old(View()), answers, now) && |codes| == |old(codes)|
      ensures forall k | 0 <= k < |codes| :: codes[k] == Stamped(old(codes)[k], answers[k], now)
      ensures codesProcessed == |codes| && skipped == Skipped(old(View()), answers, now)
      ensures synced + skipped == Received(answers)
    {
      codesProcessed, synced, skipped := 0, 0, 0;
      ghost var start, before := View(), codes;
      for k := 0 to |answers|
        invariant Valid() && |codes| == |before| && codesProcessed == k
        invariant AllValid(answers[..k]) && View() == ImportCodes(start, answers[..k], now)
        invariant forall i | 0 <= i < |codes| :: codes[i] == if i < k then Stamped(before[i], answers[i], now) else before[i]
        invariant skipped == Skipped(start, answers[..k], now) && synced + skipped == Received(answers[..k])
      {
        codesProcessed := codesProcessed + 1;
        OneMoreCode(start, answers, now, k);
        var more, thrown := SyncCode(k, answers[k], now);
        synced, skipped := synced + more, skipped + thrown;
      }
      assert answers[..|answers|] == answers;
    }

    /**
     * The import, unless another one is in flight. What a code's request answers and where its movements throw, in
     * their sorted order, are inputs.
     */
    method RunGuarded(answers: seq<Answer>, now: Time) returns (codesProcessed: nat, synced: nat, skipped: nat)
      requires Valid() && |answers| == |codes| && AllValid(answers)
      modifies this
      ensures Valid() && syncing == old(syncing) && |codes| == |old(codes)|
      ensures old(syncing) ==> View() == old(View()) && codes == old(codes) && codesProcessed == synced == skipped == 0
      ensures !old(syncing) ==>
                && View() == ImportCodes(old(View()), answers, now)
                && (forall k | 0 <= k < |codes| :: codes[k] == Stamped(old(codes)[k], answers[k], now))
                && codesProcessed == |codes| && skipped == Skipped(old(View()), answers, now)
                && synced + skipped == Received(answers)
      ensures !old(syncing) && (forall a | a in answers :: Clean(a)) && NoneRetired(old(clients)) ==>
                Rows() == SyncBatches(old(Rows()), answers, now) && skipped == 0
    {
      if syncing {
        return 0, 0, 0;
      }
      syncing := true;
      ghost var start := View();
      codesProcessed, synced, skipped := SyncCartera(answers, now);
      syncing := false;
      if (forall a | a in answers :: Clean(a)) && NoneRetired(start.clients) {
        CleanImport(start, answers, now);
      }
    }

    /** The pass of every night: one write over the installments of every policy. */
    method MarkOverdueInstallments(today: Time) returns (count: nat)
      requires Valid()
      modifies this`installments
      ensures Valid() && installments.Keys == old(installments).Keys
      ensures forall c | c in installments ::
                && installments[c].Keys == old(installments)[c].Keys
                && forall number | number in installments[c] ::
                     installments[c][number] == MarkOverdue(old(installments)[c][number], today)
      ensures count == |LapsedRows(old(installments), today)|
    {
      count := |LapsedRows(installments, today)|;
      installments := map c | c in installments ::
        map number | number in installments[c] :: MarkOverdue(installments[c][number], today);
    }
  }
}
