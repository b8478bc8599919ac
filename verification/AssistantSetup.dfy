/**
 * What a number is set up with, from its row and its organization's; and what the panel's setup writes, which
 * is only what changes it.
 */
module AssistantSetup {
  import opened Schedule
  import opened Texts
  import opened Wrappers
  import StaffNames

  type Lower = StaffNames.Lower

  // ─── Bot profiles ────────────────────────────────────────

  datatype Field =
    | OrgName | OrgShortName | OrgLegalName | TowTruckPhone | ClaimsPhone | CashPaymentPlaces
    | TransferAlias | TransferCbu | TransferHolder | TransferBank | ClaimsEmail | QuoteClosingNote

  const FIELDS := [OrgName, OrgShortName, OrgLegalName, TowTruckPhone, ClaimsPhone, CashPaymentPlaces,
                   TransferAlias, TransferCbu, TransferHolder, TransferBank, ClaimsEmail, QuoteClosingNote]
  const ACCOUNT: set<Field> := {TransferAlias, TransferCbu, TransferHolder, TransferBank}

  datatype Json = JsonText(text: string) | NotText

  /** A stored profile: null, something that is no object, or an object. */
  datatype Raw = Nothing | NotAnObject | Object(fields: map<Field, Json>)

  /** The fields that have a text; the others are null. */
  type Profile = map<Field, string>

  function Value(p: Profile, f: Field): Option<string> {
    if f in p then Some(p[f]) else None
  }

  function TextOf(value: Json): Option<string> {
    if value.JsonText? && Trim(value.text) != "" then Some(Trim(value.text)) else None
  }

  function ParseProfile(raw: Raw): Profile {
    if !raw.Object? then map[] else
      map f | f in raw.fields && TextOf(raw.fields[f]).Some? :: TextOf(raw.fields[f]).value
  }

  /** The fields sent, each over the stored one; an empty text clears it. */
  function Merge(raw: Raw, changes: map<Field, string>): Profile {
    var kept := ParseProfile(raw) - changes.Keys;
    kept + map f | f in changes && TextOf(JsonText(changes[f])).Some? :: TextOf(JsonText(changes[f])).value
  }

  lemma EveryFieldIsListed(f: Field)
    ensures f in FIELDS
  {
    var i := match f
      case OrgName => 0 case OrgShortName => 1 case OrgLegalName => 2 case TowTruckPhone => 3 case ClaimsPhone => 4
      case CashPaymentPlaces => 5 case TransferAlias => 6 case TransferCbu => 7 case TransferHolder => 8
      case TransferBank => 9 case ClaimsEmail => 10 case QuoteClosingNote => 11;
    assert FIELDS[i] == f;
  }

  /** The loop's state before a field: the fields seen are merged, the others are as stored. */
  ghost predicate MergedUpTo(merged: Profile, raw: Raw, changes: map<Field, string>, n: nat)
    requires n <= |FIELDS|
  {
    forall f: Field ::
      Value(merged, f) == if f in FIELDS[..n] then Value(Merge(raw, changes), f) else Value(ParseProfile(raw), f)
  }

  function MergeField(merged: Profile, field: Field, changes: map<Field, string>): Profile {
    if field !in changes then merged else
      var text := TextOf(JsonText(changes[field]));
      if text.Some? then merged[field := text.value] else merged - {field}
  }

  lemma MergedField(raw: Raw, changes: map<Field, string>, f: Field)
    ensures Value(Merge(raw, changes), f) ==
            if f in changes then TextOf(JsonText(changes[f])) else Value(ParseProfile(raw), f)
  {
  }

  lemma MergeFieldReads(merged: Profile, field: Field, changes: map<Field, string>, f: Field)
    ensures Value(MergeField(merged, field, changes), f) ==
            if f == field && f in changes then TextOf(JsonText(changes[f])) else Value(merged, f)
  {
  }

  lemma OneMoreField(merged: Profile, raw: Raw, changes: map<Field, string>, n: nat)
    requires n < |FIELDS| && MergedUpTo(merged, raw, changes, n)
    ensures MergedUpTo(MergeField(merged, FIELDS[n], changes), raw, changes, n + 1)
  {
    var next := MergeField(merged, FIELDS[n], changes);
    forall f: Field
      ensures Value(next, f) == if f in FIELDS[..n + 1] then Value(Merge(raw, changes), f) else Value(ParseProfile(raw), f)
    {
      assert FIELDS[..n + 1] == FIELDS[..n] + [FIELDS[n]];
      MergedField(raw, changes, f);
      FieldsDiffer(n);
      MergeFieldReads(merged, FIELDS[n], changes, f);
    }
  }

  /** The list names each field once. */
  lemma FieldsDiffer(n: nat)
    requires n < |FIELDS|
    ensures FIELDS[n] !in FIELDS[..n]
  {
  }

  method MergeBotProfile(raw: Raw, changes: map<Field, string>) returns (merged: Profile)
    ensures merged == Merge(raw, changes)
  {
    merged := ParseProfile(raw);
    for i := 0 to |FIELDS|
      invariant MergedUpTo(merged, raw, changes, i)
    {
      var field := FIELDS[i];
      OneMoreField(merged, raw, changes, i);
      if field in changes {
        var text := TextOf(JsonText(changes[field]));
        merged := if text.Some? then merged[field := text.value] else merged - {field};
      }
    }
    AllMerged(merged, raw, changes);
  }

  lemma AllMerged(merged: Profile, raw: Raw, changes: map<Field, string>)
    requires MergedUpTo(merged, raw, changes, |FIELDS|)
    ensures merged == Merge(raw, changes)
  {
    assert FIELDS[..|FIELDS|] == FIELDS;
    SameValuesSameProfile(merged, Merge(raw, changes));
  }

  lemma SameValuesSameProfile(a: Profile, b: Profile)
    requires forall f: Field | f in FIELDS :: Value(a, f) == Value(b, f)
    ensures a == b
  {
    forall f: Field
      ensures Value(a, f) == Value(b, f)
    {
      EveryFieldIsListed(f);
    }
    assert forall f: Field :: (f in a <==> Value(a, f).Some?) && (f in b <==> Value(b, f).Some?);
    assert a.Keys == b.Keys;
    assert forall f: Field | f in a :: a[f] == Value(a, f).value && b[f] == Value(b, f).value;
  }

  /** The column after a merge: the texts that are left, or null when none is. */
  function Stored(p: Profile): Raw {
    if p == map[] then Nothing else Object(map f | f in p :: JsonText(p[f]))
  }

  predicate Clean(p: Profile) { forall f | f in p :: p[f] != "" && Trimmed(p[f]) }

  lemma ParseIsClean(raw: Raw)
    ensures Clean(ParseProfile(raw))
  {
    if raw.Object? {
      forall f | f in ParseProfile(raw)
        ensures Trimmed(ParseProfile(raw)[f])
      {
        TrimTrims(raw.fields[f].text);
      }
    }
  }

  lemma MergeIsClean(raw: Raw, changes: map<Field, string>)
    ensures Clean(Merge(raw, changes))
  {
    ParseIsClean(raw);
    forall f | f in changes
      ensures Trimmed(Trim(changes[f]))
    {
      TrimTrims(changes[f]);
    }
  }

  lemma StoredReadsBack(p: Profile)
    requires Clean(p)
    ensures ParseProfile(Stored(p)) == p
  {
    forall f | f in p
      ensures Trim(p[f]) == p[f]
    {
      TrimTrims(p[f]);
    }
  }

  /** Two merges of the same fields to the same values are one. */
  lemma MergeAgain(raw: Raw, changes: map<Field, string>, again: map<Field, string>)
    requires forall f | f in again ::
               Value(Merge(raw, changes), f) == TextOf(JsonText(again[f]))
    ensures Merge(Stored(Merge(raw, changes)), again) == Merge(raw, changes)
  {
    MergeIsClean(raw, changes);
    StoredReadsBack(Merge(raw, changes));
    SameValuesSameProfile(Merge(Stored(Merge(raw, changes)), again), Merge(raw, changes));
  }

  predicate HasAccount(p: Profile) { p.Keys * ACCOUNT != {} }

  /** A number's own profile over its organization's, the account as a whole; null when neither has one. */
  function Overlay(organization: Raw, number: Raw): Option<Profile> {
    if organization.Nothing? && number.Nothing? then None else
      var own, base := ParseProfile(number), ParseProfile(organization);
      Some((if HasAccount(own) then base - ACCOUNT else base) + own)
  }

  /** The account is never mixed: all four fields are the number's own, or all four are the organization's. */
  lemma AccountIsWhole(organization: Raw, number: Raw)
    ensures var own, base, used := ParseProfile(number), ParseProfile(organization), Overlay(organization, number).GetOr(map[]);
            if HasAccount(own) then forall f | f in ACCOUNT :: Value(used, f) == Value(own, f)
            else forall f | f in ACCOUNT :: Value(used, f) == Value(base, f)
  {
    var own := ParseProfile(number);
    if !HasAccount(own) {
      forall f | f in ACCOUNT
        ensures f !in own
      {
        assert f in own ==> f in own.Keys * ACCOUNT;
      }
    } else {
      assert forall f | f in ACCOUNT :: f !in ParseProfile(organization) - ACCOUNT;
    }
  }

  // ─── Settings ────────────────────────────────────────────

  type RawWeek = days: seq<RawDay> | |days| == 7 witness [Absent, Absent, Absent, Absent, Absent, Absent, Absent]

  datatype Hours = NoHours | NotHours | Days(days: RawWeek)

  const OFFICE_DAY := [Range("08:00", "16:00")]
  const DEFAULT_SCHEDULE: Week := [OFFICE_DAY, OFFICE_DAY, OFFICE_DAY, OFFICE_DAY, OFFICE_DAY, [], []]

  predicate ValidHours(hours: Hours) { hours.Days? && ValidateSchedule(hours.days).Ok? }

  function ParseSchedule(hours: Hours): Week {
    if ValidHours(hours) then ValidateSchedule(hours.days).value else DEFAULT_SCHEDULE
  }

  datatype Settings = Settings(botName: Option<string>, staffNames: Option<string>, hours: Hours, botProfile: Raw)

  const NO_SETTINGS := Settings(None, None, NoHours, Nothing)

  datatype Effective = Effective(
    botName: Option<string>, staffNames: Option<string>, hours: Hours, botProfile: Option<Profile>)

  function EffectiveAssistant(organization: Settings, number: Option<Settings>): Effective {
    var own := number.GetOr(NO_SETTINGS);
    Effective(
      if own.botName.Some? then own.botName else organization.botName,
      if own.staffNames.Some? then own.staffNames else organization.staffNames,
      if own.hours.NoHours? then organization.hours else own.hours,
      Overlay(organization.botProfile, own.botProfile))
  }

  datatype Current = Current(organization: Settings, name: string, number: Option<Settings>) {
    function Now(): Effective { EffectiveAssistant(organization, number) }

    function Own(): Raw { number.GetOr(NO_SETTINGS).botProfile }

    function NowProfile(): Profile { Now().botProfile.GetOr(map[]) }

    /** The name the bot introduces: the profile's, or the organization's. */
    function Presentation(): string { Value(NowProfile(), OrgName).GetOr(name) }

    function OrganizationAlias(): Option<string> { Value(ParseProfile(organization.botProfile), TransferAlias) }
  }

  /** One setting: the number's own where it has one, else the organization's. */
  predicate OwnFirst<T(==)>(used: Option<T>, own: Option<T>, organization: Option<T>) {
    && (own.Some? ==> used == own)
    && (own.None? ==> used == organization)
  }

  /** Every setting of a number is its own where it has one and its organization's where it has not, hours included. */
  lemma SettingsAreOwnFirst(c: Current)
    ensures var own, used := c.number.GetOr(NO_SETTINGS), c.Now();
            && OwnFirst(used.botName, own.botName, c.organization.botName)
            && OwnFirst(used.staffNames, own.staffNames, c.organization.staffNames)
            && (own.hours != NoHours ==> used.hours == own.hours)
            && (own.hours == NoHours ==> used.hours == c.organization.hours)
  {
  }

  /** Hours that are no accepted week read as Monday to Friday from eight to four; an accepted week reads as itself. */
  lemma HoursRead(hours: Hours)
    ensures (hours.Days? && ValidateSchedule(hours.days).Ok?) ==> ValidateSchedule(hours.days) == Ok(ParseSchedule(hours))
    ensures !(hours.Days? && ValidateSchedule(hours.days).Ok?) ==>
              && |ParseSchedule(hours)| == 7 && ParseSchedule(hours)[5] == [] == ParseSchedule(hours)[6]
              && forall d | 0 <= d < 5 :: ParseSchedule(hours)[d] == [Range("08:00", "16:00")]
  {
  }

  // ─── The setup ───────────────────────────────────────────

  datatype Setup = Setup(botName: Option<string>, presentationName: Option<string>, transferAlias: Option<string>,
                         staffNames: Option<seq<string>>, hours: Option<Hours>)

  /** What is written: a field that is not there is left alone. */
  datatype Data = Data(botName: Option<Option<string>>, staffNames: Option<Option<string>>, hours: Option<Week>,
                       botProfile: Option<Raw>)

  datatype Outcome = Rejected | Written(data: Data)

  /** The four fields of an account, emptied together so that none of another account stays among them. */
  const NO_ACCOUNT: map<Field, string> :=
    map[TransferAlias := "", TransferCbu := "", TransferHolder := "", TransferBank := ""]

  const NO_DATA := Data(None, None, None, None)

  predicate SameAlias(a: Option<string>, b: Option<string>, lower: Lower) {
    lower(a.GetOr("")) == lower(b.GetOr(""))
  }

  function NameChanges(setup: Setup, c: Current): map<Field, string> {
    if setup.presentationName.None? || Trim(setup.presentationName.value) == c.Presentation() then map[] else
      var name := Trim(setup.presentationName.value);
      map[OrgName := name, OrgLegalName := name, OrgShortName := name]
  }

  function AliasChanges(setup: Setup, c: Current, lower: Lower): map<Field, string> {
    if setup.transferAlias.None? then map[] else
      var alias := Trim(setup.transferAlias.value);
      var now := Value(c.NowProfile(), TransferAlias);
      if SameAlias(Some(alias), now, lower) then map[]
      else if alias != "" && SameAlias(Some(alias), c.OrganizationAlias(), lower) then
        NO_ACCOUNT
      else map[TransferAlias := alias]
  }

  function ProfileChanges(setup: Setup, c: Current, lower: Lower): map<Field, string> {
    NameChanges(setup, c) + AliasChanges(setup, c, lower)
  }

  function BotNameData(sent: Option<string>, now: Option<string>): Option<Option<string>> {
    if sent.None? || TextOf(JsonText(sent.value)) == now then None else Some(TextOf(JsonText(sent.value)))
  }

  function StaffData(sent: Option<seq<string>>, now: Option<string>, lower: Lower): Option<Option<string>> {
    if sent.None? || StaffNames.Serialize(sent.value, lower) == StaffNames.Serialize(StaffNames.Parse(now), lower) then None
    else Some(StaffNames.Serialize(sent.value, lower))
  }

  function HoursData(sent: Option<Hours>, now: Hours): Option<Week> {
    if sent.None? || ParseSchedule(sent.value) == ParseSchedule(now) then None else Some(ParseSchedule(sent.value))
  }

  function ProfileData(own: Raw, changes: map<Field, string>): Option<Raw> {
    if changes == map[] then None else Some(Stored(Merge(own, changes)))
  }

  /** Only what differs from what the number uses is written; hours that are no week reject the whole setup. */
  function SetupData(setup: Setup, c: Current, lower: Lower): Outcome {
    if setup.hours.Some? && !ValidHours(setup.hours.value) then Rejected else
      var now := c.Now();
      Written(Data(
        BotNameData(setup.botName, now.botName), StaffData(setup.staffNames, now.staffNames, lower),
        HoursData(setup.hours, now.hours), ProfileData(c.Own(), ProfileChanges(setup, c, lower))))
  }

  method ProfileChangesOf(setup: Setup, c: Current, lower: Lower) returns (changes: map<Field, string>)
    ensures changes == ProfileChanges(setup, c, lower)
  {
    changes := map[];
    var now := c.NowProfile();
    if setup.presentationName.Some? {
      var name := Trim(setup.presentationName.value);
      if name != Value(now, OrgName).GetOr(c.name) {
        changes := changes + map[OrgName := name, OrgLegalName := name, OrgShortName := name];
      }
    }
    assert changes == NameChanges(setup, c);
    if setup.transferAlias.Some? {
      var alias := Trim(setup.transferAlias.value);
      var uses := SameAlias(Some(alias), Value(now, TransferAlias), lower);
      if alias != "" && SameAlias(Some(alias), c.OrganizationAlias(), lower) && !uses {
        changes := changes + NO_ACCOUNT;
      } else if !uses {
        changes := changes[TransferAlias := alias];
      }
    }
  }

  method StaffDataOf(sent: Option<seq<string>>, now: Option<string>, lower: Lower) returns (data: Option<Option<string>>)
    ensures data == StaffData(sent, now, lower)
  {
    data := None;
    if sent.Some? {
      var staff := StaffNames.SerializeStaffNames(sent.value, lower);
      var before := StaffNames.SerializeStaffNames(StaffNames.Parse(now), lower);
      if staff != before {
        data := Some(staff);
      }
    }
  }

  method ProfileDataOf(setup: Setup, c: Current, lower: Lower) returns (data: Option<Raw>)
    ensures data == ProfileData(c.Own(), ProfileChanges(setup, c, lower))
  {
    data := None;
    var changes := ProfileChangesOf(setup, c, lower);
    if changes != map[] {
      var own := MergeBotProfile(c.Own(), changes);
      data := Some(Stored(own));
    }
  }

  /** The data is filled in field by field; hours that are no week reject the whole setup. */
  method AssistantSetupData(setup: Setup, c: Current, lower: Lower) returns (outcome: Outcome)
    ensures outcome == SetupData(setup, c, lower)
  {
    var now := c.Now();
    var data := NO_DATA;
    if setup.botName.Some? {
      var botName := TextOf(JsonText(setup.botName.value));
      if botName != now.botName {
        data := data.(botName := Some(botName));
      }
    }
    var staff := StaffDataOf(setup.staffNames, now.staffNames, lower);
    data := data.(staffNames := staff);
    if setup.hours.Some? {
      if !ValidHours(setup.hours.value) {
        return Rejected;
      }
      var hours := ParseSchedule(setup.hours.value);
      if hours != ParseSchedule(now.hours) {
        data := data.(hours := Some(hours));
      }
    }
    var profile := ProfileDataOf(setup, c, lower);
    outcome := Written(data.(botProfile := profile));
  }

  // ─── Writing it ──────────────────────────────────────────

  function HoursOf(w: Week): Hours
    requires |w| == 7
  {
    Days(AsRawWeek(w))
  }

  lemma ParsedIsAWeek(hours: Hours)
    ensures |ParseSchedule(hours)| == 7 && TidyWeek(ParseSchedule(hours))
  {
    if ValidHours(hours) {
      ValidateIsIdempotent(hours.days);
    } else {
      assert AllValid(OFFICE_DAY);
    }
  }

  /** The number's row once the data is written over it. */
  ghost function Apply(number: Option<Settings>, data: Data): Settings
    requires data.hours.Some? ==> |data.hours.value| == 7
  {
    var own := number.GetOr(NO_SETTINGS);
    Settings(data.botName.GetOr(own.botName), data.staffNames.GetOr(own.staffNames),
             if data.hours.Some? then HoursOf(data.hours.value) else own.hours, data.botProfile.GetOr(own.botProfile))
  }

  /** The same organization and number once a setup that was not rejected is written. */
  ghost function After(setup: Setup, c: Current, lower: Lower): Current
    requires SetupData(setup, c, lower).Written?
  {
    ParsedIsAWeek(setup.hours.GetOr(NoHours));
    c.(number := Some(Apply(c.number, SetupData(setup, c, lower).data)))
  }
}
