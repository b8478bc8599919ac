/** The pass of every night over the installments stored, which marks as overdue those whose date went by since the import. */
module CarteraNightly {
  import opened CarteraSync
  import opened Texts
  import opened Wrappers

  /** What the pass picks: a live installment, pending past its date, whose estado as stored is not on its way to the bank. */
  predicate Lapsed(i: Installment, today: Time) {
    && i.deletedAt.None? && i.status.Pending? && i.dueDate.Some? && i.dueDate.value < today
    && !(i.providerStatus.Some? && SentToBank(i.providerStatus.value))
  }

  function MarkOverdue(i: Installment, today: Time): Installment {
    if Lapsed(i, today) then i.(status := Overdue) else i
  }

  function Nights(i: Installment, days: seq<Time>): Installment {
    if days == [] then i else MarkOverdue(Nights(i, days[..|days| - 1]), days[|days| - 1])
  }

  /** Any number of nights are the last one. */
  lemma {:induction false} NightsAreTheLast(i: Installment, days: seq<Time>)
    requires days != [] && forall a, b | 0 <= a < b < |days| :: days[a] <= days[b]
    ensures Nights(i, days) == MarkOverdue(i, days[|days| - 1])
  {
    if |days| > 1 {
      NightsAreTheLast(i, days[..|days| - 1]);
    }
  }

  /** A debit on its way to the bank behind white space: the import reads it by its date, and the stored text is trimmed. */
  predicate HiddenDebit(estado: string) { SentToBank(Trim(estado)) && !SentToBank(estado) }

  lemma SentToBankStays(estado: string)
    ensures SentToBank(estado) ==> SentToBank(Trim(estado))
  {
    if SentToBank(estado) {
      assert SpellsAt(estado[..9][0], 'E') && SpellsAt(estado[..9][8], 'Q');
      TrimStartKeeps(estado);
      TrimEndReaches(estado, 8);
      assert Trim(estado)[..9] == estado[..9];
    }
  }

  lemma {:induction false} TrimEndReaches(s: string, k: nat)
    requires k < |s| && !IsBlank(s[k])
    ensures TrimEnd(s) <= s && k < |TrimEnd(s)|
  {
    TrimEndKeeps(s);
    if IsBlank(s[|s| - 1]) {
      TrimEndReaches(s[..|s| - 1], k);
    }
  }

  /** A word the import knows is no debit on its way, trimmed or not. */
  lemma WordsAreNoDebit(estado: string)
    ensures PaidWord(estado) || RejectedWord(estado) ==> !SentToBank(estado) && !SentToBank(Trim(estado))
  {
    if PaidWord(estado) || RejectedWord(estado) {
      assert |estado| >= 1 && !SpellsAt(estado[0], 'E') && !IsBlank(estado[0]);
      TrimStartKeeps(estado);
      TrimEndReaches(estado, 0);
      assert Trim(estado)[0] == estado[0];
      assert |estado| >= 9 ==> estado[..9][0] == estado[0];
      assert |Trim(estado)| >= 9 ==> Trim(estado)[..9][0] == estado[0];
    }
  }

  /**
   * An installment imported at some time reads, after any number of nights, as its listing would on the last of them, if
   * and only if it is no hidden debit come due since, and was not stamped overdue for a day that had not ended by then.
   */
  lemma NightsAreHonestIff(i: Installment, c: Cuota, imported: Time, days: seq<Time>)
    requires Says(i, c, imported) && i.deletedAt.None?
    requires days != [] && forall a, b | 0 <= a < b < |days| :: days[a] <= days[b]
    ensures var last := days[|days| - 1];
            StatusTells(Nights(i, days).status, c.estado, c.dueDate, last) <==>
            && !(HiddenDebit(c.estado) && c.dueDate.Some? && imported <= c.dueDate.value < last)
            && !(&& !PaidWord(c.estado) && !RejectedWord(c.estado) && !SentToBank(c.estado)
                 && c.dueDate.Some? && last <= c.dueDate.value < imported)
  {
    NightsAreTheLast(i, days);
    SentToBankStays(c.estado);
    WordsAreNoDebit(c.estado);
    NotBoth(c.estado);
    if Trim(c.estado) == "" {
      assert !SentToBank(Trim(c.estado));
    }
  }

  /** Nothing else of an installment changes, and a cancelled one not even that. */
  lemma {:induction false} NightsChangeOnlyTheStatus(i: Installment, days: seq<Time>)
    ensures Nights(i, days) == i || (i.status.Pending? && i.deletedAt.None? && Nights(i, days) == i.(status := Overdue))
  {
    if days != [] {
      NightsChangeOnlyTheStatus(i, days[..|days| - 1]);
    }
  }
}
