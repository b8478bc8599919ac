/**
 * The cartera import of one producer code: a batch of movements, in whatever order they arrive, sorted and folded
 * into the policy, vehicle and installment rows. Every row of the producer is found by its certificate number.
 */
module CarteraSync {
  import opened CarteraClients
  import opened Sorting
  import opened Texts
  import opened Wrappers

  type Time = int

  // ─── What arrives ────────────────────────────────────────

  datatype Cuota = Cuota(number: int, amount: int, dueDate: Option<Time>, estado: string)

  datatype VehicleData = VehicleData(
    tipo: string, plate: Option<string>, brandCode: Option<int>, modelCode: Option<int>, details: string)

  /**
   * One movement of a certificate, told by its date. `usable`: it carries a certificate and a DNI or CUIT, which is its
   * holder's document.
   */
  datatype Novedad = Novedad(
    certificate: string, usable: bool, date: Time, suplemento: int, holder: string, contact: Contact, movement: string,
    validFrom: Option<Time>, validTo: Option<Time>, premium: Option<int>, paymentMethod: Option<string>,
    vehicle: Option<VehicleData>, article: int, insuresPerson: bool, cuotas: seq<Cuota>)

  // ─── What is stored ──────────────────────────────────────

  datatype RiskType = Moto | Auto | Life | Home | Commercial | OtherRisk
  datatype InstallmentStatus = Paid | Rejected | Pending | Overdue

  datatype Policy = Policy(
    endorsementNumber: int, riskType: RiskType, lastMovement: string, validFrom: Option<Time>, validTo: Option<Time>,
    premium: Option<int>, paymentMethod: Option<string>, rawData: Novedad, holder: string)

  datatype Vehicle = Vehicle(data: VehicleData, codia: Option<int>)

  datatype Installment = Installment(
    amount: int, dueDate: Option<Time>, status: InstallmentStatus, providerStatus: Option<string>, deletedAt: Option<Time>)

  datatype Entry = Entry(policy: Policy, vehicle: Option<Vehicle>, installments: map<int, Installment>)

  type Table = map<string, Entry>

  // ─── Reading one movement ────────────────────────────────

  function ResolveRiskType(n: Novedad): RiskType {
    if n.vehicle.Some? then (if Contains(Upper(n.vehicle.value.tipo), "MOTO") then Moto else Auto)
    else if n.article in {197, 128, 124, 195} then Life
    else if n.article in {267, 264} then Home
    else if n.article in {170, 802} then Commercial
    else if n.insuresPerson then Life
    else OtherRisk
  }

  /** The movement says something about the risk: vehicle data, an article or a coverage that is known. */
  predicate Informative(n: Novedad) {
    n.vehicle.Some? || ResolveRiskType(n) != OtherRisk
  }

  function MapCuotaStatus(estado: string, dueDate: Option<Time>, now: Time): InstallmentStatus {
    var upper := Upper(estado);
    if upper in {"PAGADA", "COBRADA"} then Paid
    else if upper in {"RECHAZADA", "RECHAZADO", "DEBITO_RECHAZADO"} then Rejected
    else if "EN PRELIQ" <= upper then Pending
    else if dueDate.Some? && dueDate.value < now then Overdue
    else Pending
  }

  function ProviderStatus(estado: string): Option<string> {
    if Trim(estado) == "" then None else Some(Trim(estado))
  }

  predicate Cancelled(c: Cuota) {
    Upper(Trim(Trim(c.estado))) == "ANULADA"
  }

  // ─── What a movement says of the risk ────────────────────

  const LIFE_ARTICLES := {197, 128, 124, 195}
  const HOME_ARTICLES := {267, 264}
  const SHOP_ARTICLES := {170, 802}

  ghost predicate SaysMoto(tipo: string) { exists i :: SpelledAt(tipo, "MOTO", i) }

  predicate TellsRisk(n: Novedad) {
    n.vehicle.Some? || n.insuresPerson || n.article in LIFE_ARTICLES + HOME_ARTICLES + SHOP_ARTICLES
  }

  /** A vehicle is a moto by its type or else a car; without one the article tells, and a person insured is a life. */
  ghost predicate RiskTells(risk: RiskType, n: Novedad) {
    && (risk.Moto? <==> n.vehicle.Some? && SaysMoto(n.vehicle.value.tipo))
    && (risk.Auto? <==> n.vehicle.Some? && !SaysMoto(n.vehicle.value.tipo))
    && (risk.Home? <==> n.vehicle.None? && n.article in HOME_ARTICLES)
    && (risk.Commercial? <==> n.vehicle.None? && n.article in SHOP_ARTICLES)
    && (risk.OtherRisk? <==> !TellsRisk(n))
  }

  lemma ResolvedRiskTells(n: Novedad)
    ensures RiskTells(ResolveRiskType(n), n) && (Informative(n) <==> TellsRisk(n))
  {
    if n.vehicle.Some? {
      UpperContains(n.vehicle.value.tipo, "MOTO");
    }
  }

  // ─── What an estado means ────────────────────────────────

  predicate PaidWord(estado: string) { Spells(estado, "PAGADA") || Spells(estado, "COBRADA") }

  predicate RejectedWord(estado: string) {
    Spells(estado, "RECHAZADA") || Spells(estado, "RECHAZADO") || Spells(estado, "DEBITO_RECHAZADO")
  }

  /** A debit on its way: nobody knows yet how it ends. */
  predicate SentToBank(estado: string) { |estado| >= 9 && Spells(estado[..9], "EN PRELIQ") }

  predicate CancelledWord(estado: string) { Spells(Trim(estado), "ANULADA") }

  /** Paid and rejected by their words alone; overdue only past its date, with no such word and not on its way to the bank. */
  predicate StatusTells(status: InstallmentStatus, estado: string, dueDate: Option<Time>, now: Time) {
    && (status.Paid? <==> PaidWord(estado))
    && (status.Rejected? <==> RejectedWord(estado))
    && (status.Overdue? <==>
          !PaidWord(estado) && !RejectedWord(estado) && !SentToBank(estado) && dueDate.Some? && dueDate.value < now)
  }

  lemma PaidInCapitals(estado: string)
    ensures Upper(estado) in {"PAGADA", "COBRADA"} <==> PaidWord(estado)
  {
    UpperSpells(estado, "PAGADA");
    UpperSpells(estado, "COBRADA");
  }

  lemma RejectedInCapitals(estado: string)
    ensures Upper(estado) in {"RECHAZADA", "RECHAZADO", "DEBITO_RECHAZADO"} <==> RejectedWord(estado)
  {
    UpperSpells(estado, "RECHAZADA");
    UpperSpells(estado, "RECHAZADO");
    UpperSpells(estado, "DEBITO_RECHAZADO");
  }

  lemma NotBoth(estado: string)
    ensures !(PaidWord(estado) && RejectedWord(estado))
  {
  }

  lemma MappedStatusTells(estado: string, dueDate: Option<Time>, now: Time)
    ensures StatusTells(MapCuotaStatus(estado, dueDate, now), estado, dueDate, now)
  {
    PaidInCapitals(estado);
    RejectedInCapitals(estado);
    NotBoth(estado);
    UpperBegins(estado, "EN PRELIQ");
  }

  lemma CancelledIsItsWord(c: Cuota)
    ensures Cancelled(c) <==> CancelledWord(c.estado)
  {
    TrimTrims(c.estado);
    TrimTrims(Trim(c.estado));
    UpperSpells(Trim(c.estado), "ANULADA");
  }

  // ─── Upserts ─────────────────────────────────────────────

  /** The installment row after a cuota: live unless ANULADA, and then deleted since the first of the listings in a row that say so. */
  function UpsertCuota(old_: Option<Installment>, c: Cuota, now: Time): Installment {
    var deletedAt :=
      if !Cancelled(c) then None
      else if old_.Some? && old_.value.deletedAt.Some? then old_.value.deletedAt
      else Some(now);
    Installment(c.amount, c.dueDate, MapCuotaStatus(c.estado, c.dueDate, now), ProviderStatus(c.estado), deletedAt)
  }

  function UpsertCuotas(installments: map<int, Installment>, cuotas: seq<Cuota>, now: Time): map<int, Installment> {
    if cuotas == [] then installments else
      var last := |cuotas| - 1;
      var before := UpsertCuotas(installments, cuotas[..last], now);
      before[cuotas[last].number := UpsertCuota(At(before, cuotas[last].number), cuotas[last], now)]
  }

  function UpsertPolicy(old_: Option<Policy>, n: Novedad): Policy {
    if old_.None?
    then Policy(n.suplemento, ResolveRiskType(n), n.movement, n.validFrom, n.validTo, n.premium, n.paymentMethod, n, n.holder)
    else old_.value.(endorsementNumber := n.suplemento, lastMovement := n.movement, validTo := n.validTo,
                     premium := n.premium, paymentMethod := n.paymentMethod, rawData := n,
                     riskType := if Informative(n) then ResolveRiskType(n) else old_.value.riskType)
  }

  function VehicleOf(v: VehicleData): Vehicle {
    Vehicle(v, if v.brandCode.Some? && v.modelCode.Some? then Some(v.brandCode.value * 10000 + v.modelCode.value) else None)
  }

  function UpsertEntry(old_: Option<Entry>, n: Novedad, now: Time): Entry {
    Entry(
      UpsertPolicy(if old_.Some? then Some(old_.value.policy) else None, n),
      if n.vehicle.Some? then Some(VehicleOf(n.vehicle.value)) else if old_.Some? then old_.value.vehicle else None,
      UpsertCuotas(if old_.Some? then old_.value.installments else map[], n.cuotas, now))
  }

  function SyncNovedad(t: Table, n: Novedad, now: Time): Table {
    if !n.usable then t else t[n.certificate := UpsertEntry(At(t, n.certificate), n, now)]
  }

  // ─── A movement that throws halfway ──────────────────────

  /**
   * How far a movement got before one of its storage calls threw: no row, its client, the policy too, or the vehicle too
   * with a number of installments; the next one may be written and not yet stamped as cancelled.
   */
  datatype Reached = Nothing | ClientRow | PolicyRow | CuotaRows(count: nat, unstamped: bool)

  /** The first of the two writes of a cuota: the date of a cancellation is only put on a row that is created. */
  function WriteCuota(old_: Option<Installment>, c: Cuota, now: Time): Installment {
    var deletedAt := if !Cancelled(c) then None else if old_.Some? then old_.value.deletedAt else Some(now);
    Installment(c.amount, c.dueDate, MapCuotaStatus(c.estado, c.dueDate, now), ProviderStatus(c.estado), deletedAt)
  }

  function CuotasUntil(installments: map<int, Installment>, cuotas: seq<Cuota>, now: Time, count: nat, unstamped: bool)
    : map<int, Installment>
  {
    if count >= |cuotas| then UpsertCuotas(installments, cuotas, now) else
      var rows, next := UpsertCuotas(installments, cuotas[..count], now), cuotas[count];
      if unstamped then rows[next.number := WriteCuota(At(rows, next.number), next, now)] else rows
  }

  function UpsertUntil(old_: Option<Entry>, n: Novedad, now: Time, reached: Reached): Option<Entry> {
    var rows := if old_.Some? then old_.value.installments else map[];
    var vehicle := if old_.Some? then old_.value.vehicle else None;
    var policy := UpsertPolicy(if old_.Some? then Some(old_.value.policy) else None, n);
    match reached
    case Nothing | ClientRow => old_
    case PolicyRow => Some(Entry(policy, vehicle, rows))
    case CuotaRows(count, unstamped) =>
      Some(Entry(policy, if n.vehicle.Some? then Some(VehicleOf(n.vehicle.value)) else vehicle,
                 CuotasUntil(rows, n.cuotas, now, count, unstamped)))
  }

  /** One movement, whole or until it throws; an unusable one is passed over before any call. */
  function SyncUntil(t: Table, n: Novedad, now: Time, stop: Option<Reached>): Table {
    if !n.usable || stop.None? then SyncNovedad(t, n, now) else
      var e := UpsertUntil(At(t, n.certificate), n, now, stop.value);
      if e.None? then t else t[n.certificate := e.value]
  }

  /** The movements one after another: one that throws is left as it is and the next one follows. */
  function FoldUntil(t: Table, s: seq<Novedad>, now: Time, stops: seq<Option<Reached>>): Table
    requires |stops| == |s|
  {
    if s == [] then t else
      var last := |s| - 1;
      SyncUntil(FoldUntil(t, s[..last], now, stops[..last]), s[last], now, stops[last])
  }

  function CountThrown(s: seq<Novedad>, stops: seq<Option<Reached>>): nat
    requires |stops| == |s|
  {
    if s == [] then 0 else
      var last := |s| - 1;
      CountThrown(s[..last], stops[..last]) + if s[last].usable && stops[last].Some? then 1 else 0
  }

  // ─── The batch ───────────────────────────────────────────

  function Suplemento(n: Novedad): int { n.suplemento }

  /** Oldest endorsement first; equal ones stay in the order they arrived. */
  function SortBySuplemento(s: seq<Novedad>): (r: seq<Novedad>)
    ensures Ascending(r, Suplemento) && multiset(r) == multiset(s)
  {
    SortSorts(s, Suplemento);
    Sort(s, Suplemento)
  }

  function Fold(t: Table, s: seq<Novedad>, now: Time): Table {
    if s == [] then t else SyncNovedad(Fold(t, s[..|s| - 1], now), s[|s| - 1], now)
  }

  /** A run's instants are one value: dates of the same run are not told apart. */
  function SyncBatch(t: Table, batch: seq<Novedad>, now: Time): Table {
    Fold(t, SortBySuplemento(batch), now)
  }

  lemma {:induction false} NothingThrown(t: Table, s: seq<Novedad>, now: Time, stops: seq<Option<Reached>>)
    requires |stops| == |s| && forall stop | stop in stops :: stop.None?
    ensures FoldUntil(t, s, now, stops) == Fold(t, s, now) && CountThrown(s, stops) == 0
  {
    if s != [] {
      NothingThrown(t, s[..|s| - 1], now, stops[..|s| - 1]);
    }
  }

  // ─── One certificate at a time ───────────────────────────

  /** The usable movements of one certificate, in their order. */
  function Of(s: seq<Novedad>, certificate: string): (r: seq<Novedad>)
    ensures forall n | n in r :: n in s && n.usable && n.certificate == certificate
    ensures forall n | n in s && n.usable && n.certificate == certificate :: n in r
  {
    if s == [] then [] else
      var last := |s| - 1;
      Of(s[..last], certificate) + if s[last].usable && s[last].certificate == certificate then [s[last]] else []
  }

  function FoldEntry(e: Option<Entry>, s: seq<Novedad>, now: Time): (r: Option<Entry>)
    ensures s != [] ==> r.Some?
  {
    if s == [] then e else Some(UpsertEntry(FoldEntry(e, s[..|s| - 1], now), s[|s| - 1], now))
  }

  lemma SyncTouchesOne(t: Table, n: Novedad, now: Time, certificate: string)
    ensures At(SyncNovedad(t, n, now), certificate) ==
            if n.usable && n.certificate == certificate then Some(UpsertEntry(At(t, certificate), n, now))
            else At(t, certificate)
  {
  }

  lemma FoldEntryAppend(e: Option<Entry>, s: seq<Novedad>, n: Novedad, now: Time)
    ensures FoldEntry(e, s + [n], now) == Some(UpsertEntry(FoldEntry(e, s, now), n, now))
  {
    assert (s + [n])[..|s|] == s;
  }

  /** Folding a batch treats every certificate on its own. */
  lemma {:induction false} FoldIsPerCertificate(t: Table, s: seq<Novedad>, now: Time, certificate: string)
    ensures At(Fold(t, s, now), certificate) == FoldEntry(At(t, certificate), Of(s, certificate), now)
  {
    if s != [] {
      var front, n := s[..|s| - 1], s[|s| - 1];
      var before, mine, start := Fold(t, front, now), Of(front, certificate), At(t, certificate);
      FoldIsPerCertificate(t, front, now, certificate);
      assert At(before, certificate) == FoldEntry(start, mine, now);
      SyncTouchesOne(before, n, now, certificate);
      assert Fold(t, s, now) == SyncNovedad(before, n, now);
      if n.usable && n.certificate == certificate {
        assert Of(s, certificate) == mine + [n];
        FoldEntryAppend(start, mine, n, now);
      } else {
        assert Of(s, certificate) == mine;
      }
    }
  }

  /** Suplementos are distinct per certificate among the usable movements of the batch. */
  predicate DistinctSuplementos(batch: seq<Novedad>) {
    && (forall n, m | n in batch && m in batch && n.usable && m.usable
          && n.certificate == m.certificate && n.suplemento == m.suplemento :: n == m)
    && (forall n | n in batch && n.usable :: multiset(batch)[n] == 1)
  }

  lemma LastCounts<T>(s: seq<T>, x: T)
    requires s != []
    ensures multiset(s)[x] == multiset(s[..|s| - 1])[x] + if s[|s| - 1] == x then 1 else 0
  {
    assert s == s[..|s| - 1] + [s[|s| - 1]];
  }

  lemma HeadCounts<T>(s: seq<T>)
    requires s != []
    ensures multiset(s[1..]) == multiset(s) - multiset{s[0]}
  {
    assert s == [s[0]] + s[1..];
  }

  lemma {:induction false} OfCounts(s: seq<Novedad>, certificate: string, n: Novedad)
    ensures multiset(Of(s, certificate))[n] == if n.usable && n.certificate == certificate then multiset(s)[n] else 0
  {
    if s != [] {
      var front, last := s[..|s| - 1], s[|s| - 1];
      OfCounts(front, certificate, n);
      LastCounts(s, n);
      if last.usable && last.certificate == certificate {
        assert Of(s, certificate) == Of(front, certificate) + [last];
      } else {
        assert Of(s, certificate) == Of(front, certificate);
      }
    }
  }

  predicate StrictlyAscending(s: seq<Novedad>) {
    forall i, j | 0 <= i < j < |s| :: s[i].suplemento < s[j].suplemento
  }

  lemma LastIsHighest(s: seq<Novedad>, n: Novedad)
    requires s != [] && Ascending(s, Suplemento) && n in s[..|s| - 1]
    ensures n.suplemento <= s[|s| - 1].suplemento
  {
    var k :| 0 <= k < |s| - 1 && s[k] == n;
  }

  lemma {:induction false} OfAscends(s: seq<Novedad>, certificate: string)
    requires Ascending(s, Suplemento)
    ensures Ascending(Of(s, certificate), Suplemento)
  {
    if s != [] {
      var front, last := s[..|s| - 1], s[|s| - 1];
      OfAscends(front, certificate);
      var mine := Of(front, certificate);
      forall i | 0 <= i < |mine|
        ensures mine[i].suplemento <= last.suplemento
      {
        LastIsHighest(s, mine[i]);
      }
    }
  }

  /** Among the movements of one certificate, sorted, no two have the same suplemento. */
  lemma OfIsStrict(s: seq<Novedad>, certificate: string)
    requires Ascending(s, Suplemento) && DistinctSuplementos(s)
    ensures StrictlyAscending(Of(s, certificate))
  {
    OfAscends(s, certificate);
    var mine := Of(s, certificate);
    forall i, j | 0 <= i < j < |mine|
      ensures mine[i].suplemento < mine[j].suplemento
    {
      if mine[i].suplemento == mine[j].suplemento {
        assert mine[i] in mine && mine[j] in mine && mine[i] == mine[j];
        OfCounts(s, certificate, mine[i]);
        TwiceCounts(mine, i, j);
      }
    }
  }

  lemma StrictHeads(a: seq<Novedad>, b: seq<Novedad>)
    requires StrictlyAscending(a) && StrictlyAscending(b) && multiset(a) == multiset(b) && a != []
    ensures b != [] && a[0] == b[0]
  {
    assert a[0] in multiset(b);
    var i :| 0 <= i < |b| && b[i] == a[0];
    assert b[0] in multiset(a);
    var j :| 0 <= j < |a| && a[j] == b[0];
  }

  lemma {:induction false} StrictIsUnique(a: seq<Novedad>, b: seq<Novedad>)
    requires StrictlyAscending(a) && StrictlyAscending(b) && multiset(a) == multiset(b)
    ensures a == b
  {
    if a == [] {
      assert |multiset(a)| == |multiset(b)|;
    } else {
      StrictHeads(a, b);
      HeadCounts(a);
      HeadCounts(b);
      StrictIsUnique(a[1..], b[1..]);
      assert a == [a[0]] + a[1..] && b == [b[0]] + b[1..];
    }
  }

  lemma DistinctIsOrderFree(a: seq<Novedad>, b: seq<Novedad>)
    requires DistinctSuplementos(a) && multiset(a) == multiset(b)
    ensures DistinctSuplementos(b)
  {
    assert forall n | n in b :: n in multiset(b) && n in multiset(a);
  }

  /**
   * Two arrivals of the same batch, in any order, leave the same rows: policies, vehicles and installments alike,
   * when suplementos are distinct per certificate.
   */
  lemma ArrivalOrderDoesNotMatter(t: Table, a: seq<Novedad>, b: seq<Novedad>, now: Time)
    requires multiset(a) == multiset(b) && DistinctSuplementos(a)
    ensures SyncBatch(t, a, now) == SyncBatch(t, b, now)
  {
    var x, y := SortBySuplemento(a), SortBySuplemento(b);
    DistinctIsOrderFree(a, x);
    DistinctIsOrderFree(a, y);
    forall certificate
      ensures At(SyncBatch(t, a, now), certificate) == At(SyncBatch(t, b, now), certificate)
    {
      SameMovements(x, y, certificate);
      FoldIsPerCertificate(t, x, now, certificate);
      FoldIsPerCertificate(t, y, now, certificate);
    }
    SameEntriesSameTable(SyncBatch(t, a, now), SyncBatch(t, b, now));
  }

  lemma SameMovements(x: seq<Novedad>, y: seq<Novedad>, certificate: string)
    requires Ascending(x, Suplemento) && Ascending(y, Suplemento) && multiset(x) == multiset(y)
    requires DistinctSuplementos(x) && DistinctSuplementos(y)
    ensures Of(x, certificate) == Of(y, certificate)
  {
    forall n
      ensures multiset(Of(x, certificate))[n] == multiset(Of(y, certificate))[n]
    {
      OfCounts(x, certificate, n);
      OfCounts(y, certificate, n);
    }
    assert multiset(Of(x, certificate)) == multiset(Of(y, certificate));
    OfIsStrict(x, certificate);
    OfIsStrict(y, certificate);
    StrictIsUnique(Of(x, certificate), Of(y, certificate));
  }

  lemma SameEntriesSameTable(s: Table, t: Table)
    requires forall certificate :: At(s, certificate) == At(t, certificate)
    ensures s == t
  {
    forall certificate
      ensures certificate in s <==> certificate in t
      ensures certificate in s ==> s[certificate] == t[certificate]
    {
      assert At(s, certificate) == At(t, certificate);
    }
  }

  // ─── What the rows say ───────────────────────────────────

  /** The last cuota with the number in a movement. */
  function LastCuota(cuotas: seq<Cuota>, number: int): Option<Cuota> {
    if cuotas == [] then None else
      var last := |cuotas| - 1;
      if cuotas[last].number == number then Some(cuotas[last]) else LastCuota(cuotas[..last], number)
  }

  /** The cuota with the number in the last movement that lists it. */
  function LastListing(s: seq<Novedad>, number: int): Option<Cuota> {
    if s == [] then None else
      var own := LastCuota(s[|s| - 1].cuotas, number);
      if own.Some? then own else LastListing(s[..|s| - 1], number)
  }

  /** The last movement that says something about the risk. */
  function LastTelling(s: seq<Novedad>): Option<Novedad> {
    if s == [] then None else
      var n := s[|s| - 1];
      if TellsRisk(n) then Some(n) else LastTelling(s[..|s| - 1])
  }

  function LastVehicle(s: seq<Novedad>): Option<VehicleData> {
    if s == [] then None else
      var n := s[|s| - 1];
      if n.vehicle.Some? then n.vehicle else LastVehicle(s[..|s| - 1])
  }

  /** A vehicle row as told, both its InfoAuto codes, when it has them, side by side in one number. */
  predicate VehicleTells(v: Vehicle, told: VehicleData) {
    && v.data == told
    && (v.codia.Some? <==> told.brandCode.Some? && told.modelCode.Some?)
    && (v.codia.Some? ==> v.codia.value - told.modelCode.value == told.brandCode.value * 10000)
  }

  lemma VehicleOfTells(told: VehicleData)
    ensures VehicleTells(VehicleOf(told), told)
  {
  }

  /** The installment says what the cuota says, its status what the words mean, and is deleted exactly when ANULADA. */
  predicate Says(i: Installment, c: Cuota, now: Time) {
    && i.amount == c.amount && i.dueDate == c.dueDate
    && StatusTells(i.status, c.estado, c.dueDate, now)
    && (if Trim(c.estado) == "" then i.providerStatus.None? else i.providerStatus == Some(Trim(c.estado)))
    && (i.deletedAt.Some? <==> CancelledWord(c.estado))
  }

  lemma UpsertSays(old_: Option<Installment>, c: Cuota, now: Time)
    ensures Says(UpsertCuota(old_, c, now), c, now)
  {
    MappedStatusTells(c.estado, c.dueDate, now);
    CancelledIsItsWord(c);
  }

  /** An installment half written: what the cuota says, and a date of cancellation only on a row created by it. */
  predicate HalfSays(i: Installment, old_: Option<Installment>, c: Cuota, now: Time) {
    && i.amount == c.amount && i.dueDate == c.dueDate
    && StatusTells(i.status, c.estado, c.dueDate, now)
    && (if Trim(c.estado) == "" then i.providerStatus.None? else i.providerStatus == Some(Trim(c.estado)))
    && i.deletedAt == (if !CancelledWord(c.estado) then None else if old_.None? then Some(now) else old_.value.deletedAt)
  }

  /** A movement that stops among its installments: those before the stop are whole, the next one is half written or as it was. */
  lemma CuotasUntilSays(installments: map<int, Installment>, cuotas: seq<Cuota>, now: Time, count: nat, unstamped: bool, number: int)
    ensures var after := CuotasUntil(installments, cuotas, now, count, unstamped);
            && (count >= |cuotas| ==> after == UpsertCuotas(installments, cuotas, now))
            && (count < |cuotas| ==>
                  var before := UpsertCuotas(installments, cuotas[..count], now);
                  if unstamped && cuotas[count].number == number
                  then number in after && HalfSays(after[number], At(before, number), cuotas[count], now)
                  else At(after, number) == At(before, number))
  {
    if count < |cuotas| {
      MappedStatusTells(cuotas[count].estado, cuotas[count].dueDate, now);
      CancelledIsItsWord(cuotas[count]);
    }
  }

  /** The second write completes the first: a cancelled row without a date gets it. */
  lemma StampCompletes(old_: Option<Installment>, c: Cuota, now: Time)
    ensures var half, whole := WriteCuota(old_, c, now), UpsertCuota(old_, c, now);
            && whole.(deletedAt := half.deletedAt) == half
            && whole.deletedAt == if CancelledWord(c.estado) && half.deletedAt.None? then Some(now) else half.deletedAt
  {
    CancelledIsItsWord(c);
  }

  lemma {:induction false} CuotasSay(installments: map<int, Installment>, cuotas: seq<Cuota>, now: Time, number: int)
    ensures var after := At(UpsertCuotas(installments, cuotas, now), number);
            var c := LastCuota(cuotas, number);
            if c.Some? then after.Some? && Says(after.value, c.value, now) else after == At(installments, number)
  {
    if cuotas != [] {
      var last := |cuotas| - 1;
      CuotasSay(installments, cuotas[..last], now, number);
      UpsertSays(At(UpsertCuotas(installments, cuotas[..last], now), cuotas[last].number), cuotas[last], now);
    }
  }

  /** What the movements of a certificate, sorted, leave in its rows. */
  ghost predicate Settled(e: Entry, before: Option<Entry>, mine: seq<Novedad>)
    requires mine != []
  {
    var p, top, first := e.policy, mine[|mine| - 1], mine[0];
    && p.endorsementNumber == top.suplemento && p.lastMovement == top.movement && p.validTo == top.validTo
    && p.premium == top.premium && p.paymentMethod == top.paymentMethod && p.rawData == top
    && p.validFrom == (if before.Some? then before.value.policy.validFrom else first.validFrom)
    && p.holder == (if before.Some? then before.value.policy.holder else first.holder)
    && RiskSettled(p.riskType, if before.Some? then before.value.policy.riskType else OtherRisk, LastTelling(mine))
    && VehicleSettled(e.vehicle, if before.Some? then before.value.vehicle else None, LastVehicle(mine))
  }

  ghost predicate RiskSettled(risk: RiskType, before: RiskType, told: Option<Novedad>) {
    if told.Some? then RiskTells(risk, told.value) else risk == before
  }

  predicate VehicleSettled(v: Option<Vehicle>, before: Option<Vehicle>, told: Option<VehicleData>) {
    if told.Some? then v.Some? && VehicleTells(v.value, told.value) else v == before
  }

  lemma UpsertTells(old_: Option<Entry>, n: Novedad, now: Time)
    ensures var e := UpsertEntry(old_, n, now);
            && RiskSettled(e.policy.riskType, if old_.Some? then old_.value.policy.riskType else OtherRisk,
                           if TellsRisk(n) then Some(n) else None)
            && VehicleSettled(e.vehicle, if old_.Some? then old_.value.vehicle else None, n.vehicle)
  {
    ResolvedRiskTells(n);
    if n.vehicle.Some? {
      VehicleOfTells(n.vehicle.value);
    }
  }

  lemma FirstSettles(before: Option<Entry>, n: Novedad, now: Time)
    ensures Settled(UpsertEntry(before, n, now), before, [n])
  {
    UpsertTells(before, n, now);
    assert [n][..0] == [];
    assert LastTelling([n]) == if TellsRisk(n) then Some(n) else None;
    assert LastVehicle([n]) == n.vehicle;
  }

  lemma NextSettles(before: Option<Entry>, e: Entry, front: seq<Novedad>, n: Novedad, now: Time)
    requires front != [] && Settled(e, before, front)
    ensures Settled(UpsertEntry(Some(e), n, now), before, front + [n])
  {
    UpsertTells(Some(e), n, now);
    var mine := front + [n];
    assert mine[..|mine| - 1] == front && mine[0] == front[0];
    assert LastTelling(mine) == if TellsRisk(n) then Some(n) else LastTelling(front);
    assert LastVehicle(mine) == if n.vehicle.Some? then n.vehicle else LastVehicle(front);
  }

  lemma FoldNext(before: Option<Entry>, front: seq<Novedad>, n: Novedad, now: Time)
    ensures FoldEntry(before, front + [n], now) == Some(UpsertEntry(FoldEntry(before, front, now), n, now))
  {
    assert (front + [n])[..|front + [n]| - 1] == front;
  }

  lemma {:induction false} FoldSettles(before: Option<Entry>, mine: seq<Novedad>, now: Time)
    requires mine != []
    ensures FoldEntry(before, mine, now).Some? && Settled(FoldEntry(before, mine, now).value, before, mine)
  {
    var front, last := mine[..|mine| - 1], mine[|mine| - 1];
    assert mine == front + [last];
    FoldNext(before, front, last, now);
    if front == [] {
      FirstSettles(before, last, now);
      assert mine == [last] && FoldEntry(before, front, now) == before;
    } else {
      FoldSettles(before, front, now);
      NextSettles(before, FoldEntry(before, front, now).value, front, last, now);
    }
  }

  lemma {:induction false} FoldInstallments(before: Option<Entry>, mine: seq<Novedad>, now: Time, number: int)
    requires mine != []
    ensures var after := At(FoldEntry(before, mine, now).value.installments, number);
            var c := LastListing(mine, number);
            if c.Some? then after.Some? && Says(after.value, c.value, now)
            else after == if before.Some? then At(before.value.installments, number) else None
  {
    var front := mine[..|mine| - 1];
    var rows := FoldEntry(before, front, now);
    if front != [] {
      FoldInstallments(before, front, now, number);
    }
    CuotasSay(if rows.Some? then rows.value.installments else map[], mine[|mine| - 1].cuotas, now, number);
  }

  /**
   * After a batch, the row of a certificate it moves comes from the highest suplemento, except what is set only on
   * creation and what only informative movements write; each installment comes from the highest one that lists it.
   */
  lemma HighestSuplementoWins(t: Table, batch: seq<Novedad>, now: Time, certificate: string, number: int)
    requires Of(batch, certificate) != [] && DistinctSuplementos(batch)
    ensures var mine := Of(SortBySuplemento(batch), certificate);
            && mine != [] && StrictlyAscending(mine)
            && (forall n :: n in mine <==> n in Of(batch, certificate))
            && certificate in SyncBatch(t, batch, now)
            && var e := SyncBatch(t, batch, now)[certificate];
               && Settled(e, At(t, certificate), mine)
               && var c := LastListing(mine, number);
                  if c.Some? then number in e.installments && Says(e.installments[number], c.value, now)
                  else At(e.installments, number)
                       == if certificate in t then At(t[certificate].installments, number) else None
  {
    var sorted := SortBySuplemento(batch);
    var mine := Of(sorted, certificate);
    DistinctIsOrderFree(batch, sorted);
    OfIsStrict(sorted, certificate);
    forall n
      ensures n in mine <==> n in Of(batch, certificate)
    {
      OfCounts(sorted, certificate, n);
      OfCounts(batch, certificate, n);
    }
    assert Of(batch, certificate)[0] in mine;
    FoldIsPerCertificate(t, sorted, now, certificate);
    FoldSettles(At(t, certificate), mine, now);
    FoldInstallments(At(t, certificate), mine, now, number);
  }

  // ─── The date of a cancellation ──────────────────────────

  predicate AllCancelled(cuotas: seq<Cuota>, number: int) {
    forall c | c in cuotas && c.number == number :: CancelledWord(c.estado)
  }

  lemma {:induction false} CuotasKeepDate(installments: map<int, Installment>, cuotas: seq<Cuota>, now: Time, number: int, date: Time)
    requires number in installments && date != now
    ensures var after := UpsertCuotas(installments, cuotas, now);
            number in after && (after[number].deletedAt == Some(date) <==>
                                installments[number].deletedAt == Some(date) && AllCancelled(cuotas, number))
  {
    if cuotas != [] {
      var last := |cuotas| - 1;
      CuotasKeepDate(installments, cuotas[..last], now, number, date);
      CancelledIsItsWord(cuotas[last]);
      assert cuotas == cuotas[..last] + [cuotas[last]];
    }
  }

  predicate AllCancel(mine: seq<Novedad>, number: int) { forall n | n in mine :: AllCancelled(n.cuotas, number) }

  lemma OneMoreCancels(front: seq<Novedad>, last: Novedad, number: int)
    ensures AllCancel(front + [last], number) <==> AllCancel(front, number) && AllCancelled(last.cuotas, number)
  {
    assert last in front + [last] && forall n | n in front :: n in front + [last];
  }

  /** The installment of that number is cancelled since that date. */
  predicate CancelledOn(e: Option<Entry>, number: int, date: Time) {
    e.Some? && number in e.value.installments && e.value.installments[number].deletedAt == Some(date)
  }

  lemma OneKeepsDate(e: Entry, n: Novedad, now: Time, number: int, date: Time)
    requires number in e.installments && date != now
    ensures number in UpsertEntry(Some(e), n, now).installments
    ensures CancelledOn(Some(UpsertEntry(Some(e), n, now)), number, date) <==>
            CancelledOn(Some(e), number, date) && AllCancelled(n.cuotas, number)
  {
    CuotasKeepDate(e.installments, n.cuotas, now, number, date);
  }

  lemma {:induction false} FoldKeepsDate(e: Entry, mine: seq<Novedad>, now: Time, number: int, date: Time)
    requires number in e.installments && date != now
    ensures FoldEntry(Some(e), mine, now).Some? && number in FoldEntry(Some(e), mine, now).value.installments
    ensures CancelledOn(FoldEntry(Some(e), mine, now), number, date) <==>
            CancelledOn(Some(e), number, date) && AllCancel(mine, number)
  {
    if mine != [] {
      var front, last := mine[..|mine| - 1], mine[|mine| - 1];
      assert mine == front + [last];
      FoldKeepsDate(e, front, now, number, date);
      FoldEntryAppend(Some(e), front, last, now);
      OneMoreCancels(front, last, number);
      OneKeepsDate(FoldEntry(Some(e), front, now).value, last, now, number, date);
    }
  }

  /**
   * A batch keeps the date an installment was first cancelled on exactly when every cuota with its number, in every
   * movement of the certificate, is ANULADA: an earlier one that is not resets the date, even when the last one is.
   */
  lemma CancellationDateSurvives(t: Table, batch: seq<Novedad>, now: Time, certificate: string, number: int, date: Time)
    requires certificate in t && number in t[certificate].installments && date != now
    requires t[certificate].installments[number].deletedAt == Some(date)
    ensures var after := SyncBatch(t, batch, now);
            && certificate in after && number in after[certificate].installments
            && (after[certificate].installments[number].deletedAt == Some(date) <==>
                forall n | n in Of(batch, certificate) :: AllCancelled(n.cuotas, number))
  {
    var sorted := SortBySuplemento(batch);
    FoldIsPerCertificate(t, sorted, now, certificate);
    FoldKeepsDate(t[certificate], Of(sorted, certificate), now, number, date);
    forall n
      ensures n in Of(sorted, certificate) <==> n in Of(batch, certificate)
    {
      OfCounts(sorted, certificate, n);
      OfCounts(batch, certificate, n);
    }
  }
}
