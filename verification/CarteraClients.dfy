/** The clients an import finds, creates or completes: no two of an organization share a document, an e-mail or a phone. */
module CarteraClients {
  import opened Wrappers

  /** What a movement says of its holder; blank fields are absent. */
  datatype Contact = Contact(name: string, email: Option<string>, phone: Option<string>, city: Option<string>)

  /** A client row. The table refuses two rows with the same document, e-mail or phone, retired ones included. */
  datatype Client = Client(
    dni: string, name: string, email: Option<string>, phone: Option<string>, city: Option<string>,
    changesPassword: bool, retired: bool)

  predicate Clash(a: Client, b: Client) {
    || a.dni == b.dni
    || (a.email.Some? && a.email == b.email)
    || (a.phone.Some? && a.phone == b.phone)
  }

  predicate NoClash(clients: seq<Client>) {
    forall i, j | 0 <= i < j < |clients| :: !Clash(clients[i], clients[j])
  }

  predicate HasMail(clients: seq<Client>, email: string) { exists c | c in clients :: !c.retired && c.email == Some(email) }

  predicate HasPhone(clients: seq<Client>, phone: string) { exists c | c in clients :: !c.retired && c.phone == Some(phone) }

  /** The client in use with the document. */
  function Find(clients: seq<Client>, dni: string): (r: Option<nat>)
    ensures r.Some? ==> r.value < |clients| && !clients[r.value].retired && clients[r.value].dni == dni
    ensures r.None? ==> forall c | c in clients && !c.retired :: c.dni != dni
  {
    if clients == [] then None else
      var last := |clients| - 1;
      var rest := Find(clients[..last], dni);
      if rest.Some? then rest
      else if !clients[last].retired && clients[last].dni == dni then Some(last) else None
  }

  /** A new client goes without the e-mail or the phone another one has. */
  function NewClient(clients: seq<Client>, dni: string, c: Contact): Client {
    Client(dni, c.name,
           if c.email.Some? && HasMail(clients, c.email.value) then None else c.email,
           if c.phone.Some? && HasPhone(clients, c.phone.value) then None else c.phone,
           c.city, c.email.None? || HasMail(clients, c.email.value), false)
  }

  function Completed(old_: Client, c: Contact): Client {
    old_.(name := c.name, email := c.email, phone := if c.phone.Some? then c.phone else old_.phone,
          city := if c.city.Some? then c.city else old_.city, changesPassword := true)
  }

  predicate ClashesAt(clients: seq<Client>, i: nat, c: Client) {
    exists j | 0 <= j < |clients| && j != i :: Clash(c, clients[j])
  }

  /** A client without an e-mail is completed when one is told; a clash leaves it as it was. */
  function Complete(clients: seq<Client>, i: nat, c: Contact): seq<Client>
    requires i < |clients|
  {
    if clients[i].email.Some? || c.email.None? || ClashesAt(clients, i, Completed(clients[i], c)) then clients
    else clients[i := Completed(clients[i], c)]
  }

  /** The holder of a movement found or created; none when the table refuses the new row. */
  function SyncClient(clients: seq<Client>, dni: string, c: Contact): Option<seq<Client>> {
    var found := Find(clients, dni);
    if found.Some? then Some(Complete(clients, found.value, c))
    else if exists old_ | old_ in clients :: Clash(NewClient(clients, dni, c), old_) then None
    else Some(clients + [NewClient(clients, dni, c)])
  }

  // ─── What the table keeps ────────────────────────────────

  lemma CompleteKeepsNoClash(clients: seq<Client>, i: nat, c: Contact)
    requires NoClash(clients) && i < |clients|
    ensures NoClash(Complete(clients, i, c))
  {
    var after, mine := Complete(clients, i, c), Completed(clients[i], c);
    if after != clients {
      forall j, k | 0 <= j < k < |after|
        ensures !Clash(after[j], after[k])
      {
        if j == i {
          assert !Clash(mine, clients[k]);
        } else if k == i {
          assert !Clash(mine, clients[j]);
        }
      }
    }
  }

  /** No movement makes two clients share a document, an e-mail or a phone, and none takes a client away. */
  lemma SyncKeepsNoClash(clients: seq<Client>, dni: string, c: Contact)
    requires NoClash(clients) && SyncClient(clients, dni, c).Some?
    ensures NoClash(SyncClient(clients, dni, c).value) && |clients| <= |SyncClient(clients, dni, c).value|
  {
    var found := Find(clients, dni);
    if found.Some? {
      CompleteKeepsNoClash(clients, found.value, c);
    } else {
      var after, mine := SyncClient(clients, dni, c).value, NewClient(clients, dni, c);
      forall j, k | 0 <= j < k < |after|
        ensures !Clash(after[j], after[k])
      {
        if k == |clients| {
          assert clients[j] in clients && !Clash(mine, clients[j]);
        }
      }
    }
  }

  /** Somebody retired still holds the document, or an e-mail or phone that nobody in use has. */
  predicate HeldByRetired(clients: seq<Client>, dni: string, c: Contact) {
    exists old_ | old_ in clients :: old_.retired && Holds(clients, old_, dni, c)
  }

  predicate Holds(clients: seq<Client>, old_: Client, dni: string, c: Contact) {
    || old_.dni == dni
    || (c.email.Some? && !HasMail(clients, c.email.value) && old_.email == c.email)
    || (c.phone.Some? && !HasPhone(clients, c.phone.value) && old_.phone == c.phone)
  }

  lemma ClashIsHeld(clients: seq<Client>, dni: string, c: Contact, old_: Client)
    requires Find(clients, dni).None? && old_ in clients
    ensures Clash(NewClient(clients, dni, c), old_) <==> old_.retired && Holds(clients, old_, dni, c)
  {
  }

  /**
   * A policy is held back for its holder only when there is no client of that document in use and a retired one has the
   * document, or the e-mail or phone of the new client: one in use never is in the way.
   */
  lemma RefusedIff(clients: seq<Client>, dni: string, c: Contact)
    ensures SyncClient(clients, dni, c).None? <==> Find(clients, dni).None? && HeldByRetired(clients, dni, c)
  {
    if Find(clients, dni).None? {
      if old_ :| old_ in clients && Clash(NewClient(clients, dni, c), old_) {
        ClashIsHeld(clients, dni, c, old_);
      }
      if old_ :| old_ in clients && old_.retired && Holds(clients, old_, dni, c) {
        ClashIsHeld(clients, dni, c, old_);
      }
    }
  }

  lemma FindAppend(clients: seq<Client>, added: Client, dni: string)
    requires Find(clients, dni).None? && added.dni == dni && !added.retired
    ensures Find(clients + [added], dni) == Some(|clients|)
  {
    assert (clients + [added])[..|clients|] == clients;
  }

  lemma CompleteKeepsPlaces(clients: seq<Client>, i: nat, c: Contact)
    requires i < |clients|
    ensures |Complete(clients, i, c)| == |clients|
    ensures forall j | 0 <= j < |clients| ::
              Complete(clients, i, c)[j].dni == clients[j].dni && Complete(clients, i, c)[j].retired == clients[j].retired
  {
  }

  /** Some client in use has the e-mail. */
  predicate MailTaken(clients: seq<Client>, email: Option<string>) {
    email.Some? && exists i | 0 <= i < |clients| :: !clients[i].retired && clients[i].email == email
  }

  predicate PhoneTaken(clients: seq<Client>, phone: Option<string>) {
    phone.Some? && exists i | 0 <= i < |clients| :: !clients[i].retired && clients[i].phone == phone
  }

  /** A client as told, without an e-mail or a phone that a client in use has; it changes its password unless it got its e-mail. */
  predicate IsNewClient(added: Client, clients: seq<Client>, dni: string, c: Contact) {
    && added.dni == dni && added.name == c.name && added.city == c.city && !added.retired
    && added.email == (if MailTaken(clients, c.email) then None else c.email)
    && added.phone == (if PhoneTaken(clients, c.phone) then None else c.phone)
    && (added.changesPassword <==> added.email.None?)
  }

  lemma TakenIffHas(clients: seq<Client>, c: Contact)
    ensures MailTaken(clients, c.email) <==> c.email.Some? && HasMail(clients, c.email.value)
    ensures PhoneTaken(clients, c.phone) <==> c.phone.Some? && HasPhone(clients, c.phone.value)
  {
    if c.email.Some? && HasMail(clients, c.email.value) {
      var x :| x in clients && !x.retired && x.email == Some(c.email.value);
      assert exists i | 0 <= i < |clients| :: clients[i] == x;
    }
    if c.phone.Some? && HasPhone(clients, c.phone.value) {
      var x :| x in clients && !x.retired && x.phone == Some(c.phone.value);
      assert exists i | 0 <= i < |clients| :: clients[i] == x;
    }
  }

  /** The movement's holder is a client in use from then on: the one it was, or one more, as told. */
  lemma HolderIsClient(clients: seq<Client>, dni: string, c: Contact)
    requires SyncClient(clients, dni, c).Some?
    ensures var after := SyncClient(clients, dni, c).value;
            && Find(after, dni) == (if Find(clients, dni).Some? then Find(clients, dni) else Some(|clients|))
            && (Find(clients, dni).Some? ==> |after| == |clients|)
            && (Find(clients, dni).None? ==>
                  |after| == |clients| + 1 && after[..|clients|] == clients && IsNewClient(after[|clients|], clients, dni, c))
  {
    TakenIffHas(clients, c);
    var found := Find(clients, dni);
    if found.Some? {
      CompleteKeepsPlaces(clients, found.value, c);
      SameFind(clients, Complete(clients, found.value, c), dni);
    } else {
      FindAppend(clients, NewClient(clients, dni, c), dni);
    }
  }

  /** A client in use stays one, whoever else comes. */
  lemma SyncKeepsClient(clients: seq<Client>, dni: string, c: Contact, other: string)
    requires Find(clients, other).Some? && SyncClient(clients, dni, c).Some?
    ensures Find(SyncClient(clients, dni, c).value, other) == Find(clients, other)
  {
    var found := Find(clients, dni);
    if found.Some? {
      CompleteKeepsPlaces(clients, found.value, c);
      SameFind(clients, Complete(clients, found.value, c), other);
    } else {
      var added := NewClient(clients, dni, c);
      assert (clients + [added])[..|clients|] == clients;
    }
  }

  lemma {:induction false} SameFind(a: seq<Client>, b: seq<Client>, dni: string)
    requires |a| == |b| && forall i | 0 <= i < |a| :: a[i].dni == b[i].dni && a[i].retired == b[i].retired
    ensures Find(a, dni) == Find(b, dni)
  {
    if a != [] {
      SameFind(a[..|a| - 1], b[..|b| - 1], dni);
    }
  }

  /** Some other client holds the e-mail or the phone that was told. */
  predicate HeldByOther(clients: seq<Client>, i: nat, c: Contact)
    requires i < |clients|
  {
    exists j | 0 <= j < |clients| && j != i :: HoldsTold(clients[j], c)
  }

  predicate HoldsTold(other: Client, c: Contact) {
    (c.email.Some? && other.email == c.email) || (c.phone.Some? && other.phone == c.phone)
  }

  /** A client with its e-mail at last: as told, keeping the phone and city that were not told; it changes its password. */
  predicate IsCompleted(after: Client, before: Client, c: Contact) {
    && after.dni == before.dni && after.retired == before.retired && after.email == c.email && after.name == c.name
    && after.phone == (if c.phone.None? then before.phone else c.phone)
    && after.city == (if c.city.None? then before.city else c.city)
    && after.changesPassword
  }

  /**
   * A client without an e-mail gets the one that is told exactly when nobody else holds it, nor the phone told with it: a
   * phone in use loses an e-mail nobody has. One that has an e-mail is never touched.
   */
  lemma EmailIsFilledInIff(clients: seq<Client>, dni: string, c: Contact)
    requires NoClash(clients) && c.email.Some? && Find(clients, dni).Some?
    ensures var i, after := Find(clients, dni).value, SyncClient(clients, dni, c).value;
            && |after| == |clients| && (forall j | 0 <= j < |clients| && j != i :: after[j] == clients[j])
            && (clients[i].email.Some? ==> after == clients)
            && (clients[i].email.None? ==> (after[i].email == c.email <==> !HeldByOther(clients, i, c))
                                           && (HeldByOther(clients, i, c) ==> after == clients)
                                           && (!HeldByOther(clients, i, c) ==> IsCompleted(after[i], clients[i], c)))
  {
    var i := Find(clients, dni).value;
    if clients[i].email.None? {
      OnlyToldClashes(clients, i, c);
    }
  }

  lemma OnlyToldClashes(clients: seq<Client>, i: nat, c: Contact)
    requires NoClash(clients) && i < |clients| && c.email.Some?
    ensures ClashesAt(clients, i, Completed(clients[i], c)) <==> HeldByOther(clients, i, c)
  {
    forall j | 0 <= j < |clients| && j != i
      ensures Clash(Completed(clients[i], c), clients[j]) <==> HoldsTold(clients[j], c)
    {
      assert !Clash(clients[if i < j then i else j], clients[if i < j then j else i]);
    }
  }
}
