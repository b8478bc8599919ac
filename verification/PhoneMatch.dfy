/** Argentine phones in the two shapes they arrive in, and the suffix that narrows a search before comparing them. */
module PhoneMatch {
  import opened Texts
  import opened Wrappers

  predicate AllDigits(s: string) { forall i | 0 <= i < |s| :: IsDigit(s[i]) }

  function Digits(raw: string): (r: string)
    ensures AllDigits(r) && |r| <= |raw|
  {
    if raw == "" then "" else Digits(raw[..|raw| - 1]) + if IsDigit(raw[|raw| - 1]) then [raw[|raw| - 1]] else ""
  }

  function DropPrefix(s: string, prefix: string): string {
    if prefix <= s then s[|prefix|..] else s
  }

  /** Country code, mobile 9 and trunk 0 dropped, in that order. */
  function Local(digits: string): string {
    var national := DropPrefix(digits, "54");
    var mobile := if |national| == 11 then DropPrefix(national, "9") else national;
    DropPrefix(mobile, "0")
  }

  /** The digits without the mobile 15 after an area code of the given length. */
  function Without15(digits: string, area: nat): seq<string>
    requires area + 2 <= |digits|
  {
    if digits[area..area + 2] == "15" then [digits[..area] + digits[area + 2..]] else []
  }

  function CandidatesOf(digits: string): seq<string> {
    if |digits| == 10 then [digits]
    else if |digits| == 12 then Without15(digits, 2) + Without15(digits, 3) + Without15(digits, 4)
    else []
  }

  /** The ten-digit national numbers a raw phone may be; several when the place of the 15 is ambiguous. */
  function NationalCandidates(raw: Option<string>): seq<string> { CandidatesOf(Local(Digits(raw.GetOr("")))) }

  predicate IsSamePhone(waId: Option<string>, phone: Option<string>) {
    exists candidate | candidate in NationalCandidates(waId) :: candidate in NationalCandidates(phone)
  }

  function Last(s: string, n: nat): string {
    if |s| <= n then s else s[|s| - n..]
  }

  function PhoneSuffix(waId: Option<string>): Option<string> {
    if NationalCandidates(waId) == [] then None else Some(Last(NationalCandidates(waId)[0], 6))
  }

  function WhatsAppIds(phone: Option<string>): seq<string> {
    var c := NationalCandidates(phone);
    seq(|c|, i requires 0 <= i < |c| => "549" + c[i])
  }

  predicate EndsWith(s: string, suffix: string) {
    |suffix| <= |s| && s[|s| - |suffix|..] == suffix
  }

  // ─── What the digits are read as ─────────────────────────

  lemma DropPrefixDrops(prefix: string, rest: string, s: string)
    ensures DropPrefix(prefix + rest, prefix) == rest
    ensures !(prefix <= s) ==> DropPrefix(s, prefix) == s
  {
  }

  /** The ten digits with the mobile 15 after an area code. */
  predicate With15(candidate: string, area: nat, digits: string) {
    |candidate| == 10 && area <= 10 && digits == candidate[..area] + "15" + candidate[area..]
  }

  lemma Without15Iff(digits: string, area: nat, candidate: string)
    requires |digits| == 12 && area + 2 <= 12
    ensures candidate in Without15(digits, area) <==> With15(candidate, area, digits)
  {
    if candidate in Without15(digits, area) {
      assert digits == digits[..area] + "15" + digits[area + 2..];
      assert candidate[..area] == digits[..area] && candidate[area..] == digits[area + 2..];
    }
    if With15(candidate, area, digits) {
      assert digits[..area] == candidate[..area] && digits[area..area + 2] == "15" && digits[area + 2..] == candidate[area..];
      assert candidate == candidate[..area] + candidate[area..];
    }
  }

  /**
   * Local digits are read as the numbers they may be: ten digits as themselves, twelve as those that give them with a
   * mobile 15 after an area code of two to four digits, and anything else as none.
   */
  lemma CandidateIff(digits: string, candidate: string)
    ensures candidate in CandidatesOf(digits) <==>
            || (|digits| == 10 && candidate == digits)
            || (|digits| == 12 && (With15(candidate, 2, digits) || With15(candidate, 3, digits) || With15(candidate, 4, digits)))
  {
    if |digits| == 12 {
      Without15Iff(digits, 2, candidate);
      Without15Iff(digits, 3, candidate);
      Without15Iff(digits, 4, candidate);
    }
  }

  // ─── The suffix ──────────────────────────────────────────

  lemma DropPrefixIsTail(s: string, prefix: string)
    ensures EndsWith(s, DropPrefix(s, prefix))
  {
  }

  lemma TailOfTail(a: string, b: string, c: string)
    requires EndsWith(a, b) && EndsWith(b, c)
    ensures EndsWith(a, c)
  {
    assert b[|b| - |c|..] == a[|a| - |b|..][|b| - |c|..];
  }

  lemma LocalIsTail(digits: string)
    ensures EndsWith(digits, Local(digits))
  {
    var national := DropPrefix(digits, "54");
    var mobile := if |national| == 11 then DropPrefix(national, "9") else national;
    DropPrefixIsTail(digits, "54");
    DropPrefixIsTail(national, "9");
    DropPrefixIsTail(mobile, "0");
    TailOfTail(digits, national, mobile);
    TailOfTail(digits, mobile, Local(digits));
  }

  lemma TailKeepsLast(s: string, tail: string, n: nat)
    requires EndsWith(s, tail) && n <= |tail|
    ensures Last(s, n) == Last(tail, n)
    ensures AllDigits(s) ==> AllDigits(tail)
  {
    assert tail[|tail| - n..] == s[|s| - |tail|..][|tail| - n..];
    assert forall i | 0 <= i < |tail| :: tail[i] == s[|s| - |tail| + i];
  }

  lemma Without15Keeps(digits: string, area: nat, candidate: string)
    requires |digits| == 12 && area <= 4 && AllDigits(digits) && candidate in Without15(digits, area)
    ensures |candidate| == 10 && AllDigits(candidate) && Last(candidate, 6) == Last(digits, 6)
  {
    assert candidate == digits[..area] + digits[area + 2..];
    assert candidate[4..] == digits[6..];
  }

  /** However many candidates a phone has, they are ten digits and end as the phone's digits do. */
  lemma CandidateSuffix(raw: Option<string>, candidate: string)
    requires candidate in NationalCandidates(raw)
    ensures |candidate| == 10 && AllDigits(candidate)
    ensures |Digits(raw.GetOr(""))| >= 10 && Last(Digits(raw.GetOr("")), 6) == Last(candidate, 6)
  {
    var all := Digits(raw.GetOr(""));
    var digits := Local(all);
    LocalIsTail(all);
    TailKeepsLast(all, digits, 6);
    if |digits| == 12 {
      if candidate in Without15(digits, 2) {
        Without15Keeps(digits, 2, candidate);
      } else if candidate in Without15(digits, 3) {
        Without15Keeps(digits, 3, candidate);
      } else {
        Without15Keeps(digits, 4, candidate);
      }
    }
  }

  lemma SuffixOfCandidate(waId: Option<string>, candidate: string)
    requires candidate in NationalCandidates(waId)
    ensures PhoneSuffix(waId) == Some(Last(candidate, 6))
  {
    var first := NationalCandidates(waId)[0];
    assert first in NationalCandidates(waId);
    CandidateSuffix(waId, candidate);
    CandidateSuffix(waId, first);
  }

  lemma LastIsEnd(s: string, n: nat)
    requires n <= |s|
    ensures EndsWith(s, Last(s, n)) && |Last(s, n)| == n
  {
  }

  /** Every candidate of an id ends with its suffix, and so do the digits of every stored form of the same line. */
  lemma SuffixMissesNoStoredForm(waId: Option<string>, phone: Option<string>)
    requires IsSamePhone(waId, phone)
    ensures PhoneSuffix(waId).Some? && |PhoneSuffix(waId).value| == 6 && AllDigits(PhoneSuffix(waId).value)
    ensures EndsWith(Digits(phone.GetOr("")), PhoneSuffix(waId).value)
  {
    var candidate :| candidate in NationalCandidates(waId) && candidate in NationalCandidates(phone);
    SuffixOfCandidate(waId, candidate);
    CandidateSuffix(phone, candidate);
    LastIsEnd(candidate, 6);
    LastIsEnd(Digits(phone.GetOr("")), 6);
  }

  lemma {:induction false} DigitsAppend(raw: string, tail: string)
    requires AllDigits(tail)
    ensures Digits(raw + tail) == Digits(raw) + tail
  {
    if tail == "" {
      assert raw + tail == raw;
    } else {
      var last := |tail| - 1;
      assert (raw + tail)[..|raw + tail| - 1] == raw + tail[..last];
      DigitsAppend(raw, tail[..last]);
      assert tail == tail[..last] + [tail[last]];
    }
  }

  lemma DigitsEnd(raw: string, front: string, tail: string)
    requires raw == front + tail && AllDigits(tail)
    ensures EndsWith(Digits(raw), tail)
  {
    DigitsAppend(front, tail);
  }

  lemma SameEnd(s: string, a: string, b: string)
    requires EndsWith(s, a) && EndsWith(s, b) && |a| == |b|
    ensures a == b
  {
  }

  /** Of two phones of the same line, the search by suffix finds the stored one exactly when it ends in six digits. */
  lemma PrefilterFindsIff(waId: Option<string>, phone: string)
    requires IsSamePhone(waId, Some(phone))
    ensures |phone| >= 6
    ensures EndsWith(phone, PhoneSuffix(waId).value) <==> AllDigits(phone[|phone| - 6..])
  {
    SuffixMissesNoStoredForm(waId, Some(phone));
    var suffix := PhoneSuffix(waId).value;
    if AllDigits(phone[|phone| - 6..]) {
      assert phone == phone[..|phone| - 6] + phone[|phone| - 6..];
      DigitsEnd(phone, phone[..|phone| - 6], phone[|phone| - 6..]);
      SameEnd(Digits(phone), suffix, phone[|phone| - 6..]);
    }
  }

  lemma SamePhoneIsSymmetric(a: Option<string>, b: Option<string>)
    ensures IsSamePhone(a, b) <==> IsSamePhone(b, a)
  {
  }

  // ─── Writing to a stored phone ───────────────────────────

  lemma {:induction false} DigitsOfDigits(s: string)
    requires AllDigits(s)
    ensures Digits(s) == s
  {
    if s != "" {
      DigitsOfDigits(s[..|s| - 1]);
    }
  }

  /** The id built from a national number reads back as that number alone, unless it starts with 0: then as none. */
  lemma IdReadsBack(national: string)
    requires |national| == 10 && AllDigits(national)
    ensures NationalCandidates(Some("549" + national)) == if national[0] == '0' then [] else [national]
  {
    var id := "549" + national;
    DigitsOfDigits(id);
    assert "54" <= id && id[2..] == "9" + national && ("9" + national)[1..] == national;
    assert "0" <= national <==> national[0] == '0';
    assert Local(id) == if national[0] == '0' then national[1..] else national;
  }

  /** Every id a stored phone may have is the same line as the phone, exactly when its national number starts with no 0. */
  lemma IdsMatchTheirPhone(phone: Option<string>, i: nat)
    requires i < |WhatsAppIds(phone)|
    ensures IsSamePhone(Some(WhatsAppIds(phone)[i]), phone) <==> NationalCandidates(phone)[i][0] != '0'
  {
    var national := NationalCandidates(phone)[i];
    CandidateSuffix(phone, national);
    IdReadsBack(national);
  }

  /**
   * The two shapes a line arrives in are the same line: 549 + area + number, and area + 15 + number with or without the
   * trunk 0, for an area code of two to four digits that could not be read as a country code or a trunk.
   */
  lemma BothShapesMatch(area: string, number: string, trunk: bool)
    requires 2 <= |area| <= 4 && |area| + |number| == 10 && AllDigits(area + number)
    requires area[0] != '0' && !("54" <= area)
    ensures IsSamePhone(Some("549" + area + number), Some((if trunk then "0" else "") + area + "15" + number))
  {
    var national, stored := area + number, area + "15" + number;
    var raw := (if trunk then "0" else "") + area + "15" + number;
    assert "549" + area + number == "549" + national;
    assert raw == (if trunk then "0" else "") + stored;
    IdReadsBack(national);
    StoredReadsBack(area, number, raw);
    assert national in NationalCandidates(Some("549" + national));
  }

  lemma TwelveDigits(stored: string, area: nat, candidate: string)
    requires |stored| == 12 && 2 <= area <= 4 && candidate in Without15(stored, area)
    ensures candidate in CandidatesOf(stored)
  {
  }

  lemma Drop15(area: string, number: string)
    requires 2 <= |area| <= 4 && |area| + |number| == 10
    ensures area + number in Without15(area + "15" + number, |area|)
  {
    var stored := area + "15" + number;
    assert stored[|area|..|area| + 2] == "15";
    assert stored[..|area|] + stored[|area| + 2..] == area + number;
  }

  lemma StoredReadsBack(area: string, number: string, raw: string)
    requires 2 <= |area| <= 4 && |area| + |number| == 10 && AllDigits(area + number)
    requires area[0] != '0' && !("54" <= area)
    requires raw == area + "15" + number || raw == "0" + (area + "15" + number)
    ensures area + number in NationalCandidates(Some(raw))
  {
    var stored := area + "15" + number;
    assert Digits(raw) == raw by {
      StoredIsDigits(area, number);
      DigitsOfDigits(raw);
    }
    assert Local(raw) == stored by {
      assert stored[..2] == area[..2] && stored[0] == area[0];
      LocalOfStored(stored, raw);
    }
    Drop15(area, number);
    TwelveDigits(stored, |area|, area + number);
  }

  lemma StoredIsDigits(area: string, number: string)
    requires AllDigits(area + number)
    ensures AllDigits(area + "15" + number)
  {
    var stored, national := area + "15" + number, area + number;
    forall i | 0 <= i < |stored|
      ensures IsDigit(stored[i])
    {
      if i < |area| {
        assert stored[i] == national[i];
      } else if i >= |area| + 2 {
        assert stored[i] == national[i - 2];
      }
    }
  }

  lemma LocalOfStored(stored: string, raw: string)
    requires |stored| == 12 && stored[0] != '0' && !("54" <= stored)
    requires raw == stored || raw == "0" + stored
    ensures Local(raw) == stored
  {
    if raw != stored {
      assert raw[0] == '0' && raw[1..] == stored;
      assert DropPrefix(raw, "54") == raw;
    }
  }

  // ─── The one client behind a number ──────────────────────

  datatype Client = Client(id: int, phone: Option<string>)

  const TAKE := 20

  /** The only client whose phone is this number, among the first the suffix finds; none when several share it. */
  function FindClientByPhone(clients: seq<Client>, waId: string): Option<Client> {
    var suffix := PhoneSuffix(Some(waId));
    if suffix.None? then None else
      var candidates := Filter(clients, (c: Client) => Near(c, suffix.value));
      var matches := Filter(if |candidates| <= TAKE then candidates else candidates[..TAKE], (c: Client) => Owns(c, waId));
      if |matches| == 1 then Some(matches[0]) else None
  }

  predicate Near(c: Client, suffix: string) { c.phone.Some? && EndsWith(c.phone.value, suffix) }

  predicate Owns(c: Client, waId: string) { IsSamePhone(Some(waId), c.phone) }

  predicate EndsInSixDigits(c: Client) {
    c.phone.Some? && |c.phone.value| >= 6 && AllDigits(c.phone.value[|c.phone.value| - 6..])
  }

  lemma OwnerIsNear(c: Client, waId: string)
    requires Owns(c, waId) && EndsInSixDigits(c)
    ensures PhoneSuffix(Some(waId)).Some? && Near(c, PhoneSuffix(Some(waId)).value)
  {
    SuffixMissesNoStoredForm(Some(waId), c.phone);
    PrefilterFindsIff(Some(waId), c.phone.value);
  }

  /** Past the first twenty clients on the suffix nobody is looked at. */
  lemma OnlyTheFirstAreSeen(clients: seq<Client>, more: seq<Client>, waId: string)
    requires PhoneSuffix(Some(waId)).Some?
             ==> |Filter(clients, (c: Client) => Near(c, PhoneSuffix(Some(waId)).value))| >= 20
    ensures FindClientByPhone(clients + more, waId) == FindClientByPhone(clients, waId)
  {
    var suffix := PhoneSuffix(Some(waId));
    if suffix.Some? {
      var near := (c: Client) => Near(c, suffix.value);
      FilterBoth(clients, more, near);
      assert Filter(clients + more, near)[..TAKE] == Filter(clients, near)[..TAKE];
      assert |Filter(clients, near)| == TAKE ==> Filter(clients, near)[..TAKE] == Filter(clients, near);
      assert |Filter(clients + more, near)| == TAKE ==> Filter(clients + more, near)[..TAKE] == Filter(clients + more, near);
    }
  }

  /**
   * With at most TAKE clients on the suffix, and stored phones of the line that end in six digits, the client found is
   * the only one of the organization with this phone, and one is found whenever there is exactly one.
   */
  lemma FindsTheOnlyClient(clients: seq<Client>, waId: string)
    requires PhoneSuffix(Some(waId)).Some?
             ==> |Filter(clients, (c: Client) => Near(c, PhoneSuffix(Some(waId)).value))| <= TAKE
    requires forall c | c in clients && Owns(c, waId) :: EndsInSixDigits(c)
    ensures var owners := Filter(clients, (c: Client) => Owns(c, waId));
            FindClientByPhone(clients, waId) == if |owners| == 1 then Some(owners[0]) else None
  {
    var suffix, owns := PhoneSuffix(Some(waId)), (c: Client) => Owns(c, waId);
    forall c | c in clients && owns(c)
      ensures suffix.Some? && Near(c, suffix.value)
    {
      OwnerIsNear(c, waId);
    }
    if suffix.Some? {
      FilterTwice(clients, (c: Client) => Near(c, suffix.value), owns);
    } else {
      FilterNone(clients, owns);
    }
  }
}
