/** What the panel's setup promises: twice is once, sent back is nothing, and what was typed is what is used. */
module AssistantSetupLaws {
  import opened AssistantSetup
  import opened Schedule
  import opened Texts
  import opened Wrappers
  import StaffNames

  // ─── The number's own profile after a setup ──────────────

  /** The number's own profile after these changes; with none the column stays as it was. */
  function OwnAfter(own: Raw, changes: map<Field, string>): Raw {
    if changes == map[] then own else Stored(Merge(own, changes))
  }

  /** Read back, each field is what was sent for it, and the others are as they were. */
  lemma OwnAfterReads(own: Raw, changes: map<Field, string>, f: Field)
    ensures Value(ParseProfile(OwnAfter(own, changes)), f) ==
            if f in changes then TextOf(JsonText(changes[f])) else Value(ParseProfile(own), f)
  {
    MergeIsClean(own, changes);
    StoredReadsBack(Merge(own, changes));
  }

  lemma AfterKeepsTheRest(setup: Setup, c: Current, lower: Lower)
    requires SetupData(setup, c, lower).Written?
    ensures After(setup, c, lower).organization == c.organization && After(setup, c, lower).name == c.name
    ensures After(setup, c, lower).Own() == OwnAfter(c.Own(), ProfileChanges(setup, c, lower))
  {
  }

  /** Whatever field a setup does not change keeps its value, or stays without one. */
  lemma OtherFieldsStay(setup: Setup, c: Current, lower: Lower, f: Field)
    requires SetupData(setup, c, lower).Written? && f !in ProfileChanges(setup, c, lower)
    ensures Value(ParseProfile(After(setup, c, lower).Own()), f) == Value(ParseProfile(c.Own()), f)
  {
    AfterKeepsTheRest(setup, c, lower);
    OwnAfterReads(c.Own(), ProfileChanges(setup, c, lower), f);
  }

  lemma NamesAreNoAccount(setup: Setup, c: Current, lower: Lower)
    ensures NameChanges(setup, c).Keys !! ACCOUNT && AliasChanges(setup, c, lower).Keys <= ACCOUNT
  {
  }

  lemma NameAfter(setup: Setup, c: Current, lower: Lower)
    ensures Value(ParseProfile(OwnAfter(c.Own(), ProfileChanges(setup, c, lower))), OrgName) ==
              if NameChanges(setup, c) == map[] then Value(ParseProfile(c.Own()), OrgName)
              else TextOf(JsonText(Trim(setup.presentationName.value)))
  {
    NamesAreNoAccount(setup, c, lower);
    OwnAfterReads(c.Own(), ProfileChanges(setup, c, lower), OrgName);
  }

  lemma AccountAfter(setup: Setup, c: Current, lower: Lower, f: Field)
    requires f in ACCOUNT
    ensures Value(ParseProfile(OwnAfter(c.Own(), ProfileChanges(setup, c, lower))), f) ==
              if f in AliasChanges(setup, c, lower) then TextOf(JsonText(AliasChanges(setup, c, lower)[f]))
              else Value(ParseProfile(c.Own()), f)
  {
    NamesAreNoAccount(setup, c, lower);
    OwnAfterReads(c.Own(), ProfileChanges(setup, c, lower), f);
  }

  // ─── The account in use ──────────────────────────────────

  function Used(organization: Raw, own: Raw): Profile { Overlay(organization, own).GetOr(map[]) }

  lemma HasAccountIff(p: Profile)
    ensures HasAccount(p) <==> TransferAlias in p || TransferCbu in p || TransferHolder in p || TransferBank in p
  {
    if HasAccount(p) {
      var f :| f in p.Keys * ACCOUNT;
    }
    assert forall f | f in p && f in ACCOUNT :: f in p.Keys * ACCOUNT;
  }

  lemma AccountFollowsOwn(organization: Raw, a: Raw, b: Raw)
    requires forall f | f in ACCOUNT :: Value(ParseProfile(a), f) == Value(ParseProfile(b), f)
    ensures forall f | f in ACCOUNT :: Value(Used(organization, a), f) == Value(Used(organization, b), f)
  {
    var p, q := ParseProfile(a), ParseProfile(b);
    assert p.Keys * ACCOUNT == q.Keys * ACCOUNT by {
      forall f | f in ACCOUNT
        ensures f in p <==> f in q
      {
        assert Value(p, f) == Value(q, f);
      }
    }
    AccountIsWhole(organization, a);
    AccountIsWhole(organization, b);
  }

  lemma NoAliasChangeKeepsTheAccount(setup: Setup, c: Current, lower: Lower)
    requires AliasChanges(setup, c, lower) == map[]
    ensures forall f | f in ACCOUNT ::
              Value(Used(c.organization.botProfile, OwnAfter(c.Own(), ProfileChanges(setup, c, lower))), f)
                == Value(c.NowProfile(), f)
  {
    var after := OwnAfter(c.Own(), ProfileChanges(setup, c, lower));
    forall f | f in ACCOUNT
      ensures Value(ParseProfile(after), f) == Value(ParseProfile(c.Own()), f)
    {
      AccountAfter(setup, c, lower, f);
    }
    AccountFollowsOwn(c.organization.botProfile, after, c.Own());
  }

  lemma ClearedFollows(setup: Setup, c: Current, lower: Lower, organization: Raw)
    requires AliasChanges(setup, c, lower) == NO_ACCOUNT
    ensures forall f | f in ACCOUNT ::
              Value(Used(organization, OwnAfter(c.Own(), ProfileChanges(setup, c, lower))), f)
                == Value(ParseProfile(organization), f)
  {
    var after := OwnAfter(c.Own(), ProfileChanges(setup, c, lower));
    assert Trim("") == "";
    forall f | f in ACCOUNT
      ensures f !in ParseProfile(after)
    {
      assert f in NO_ACCOUNT;
      AccountAfter(setup, c, lower, f);
    }
    AccountIsWhole(organization, after);
  }

  lemma OwnAliasIsUsed(setup: Setup, c: Current, lower: Lower, alias: string)
    requires AliasChanges(setup, c, lower) == map[TransferAlias := alias]
    requires alias != "" && Trim(alias) == alias
    ensures Value(Used(c.organization.botProfile, OwnAfter(c.Own(), ProfileChanges(setup, c, lower))), TransferAlias)
              == Some(alias)
  {
    var after := OwnAfter(c.Own(), ProfileChanges(setup, c, lower));
    AccountAfter(setup, c, lower, TransferAlias);
    HasAccountIff(ParseProfile(after));
    AccountIsWhole(c.organization.botProfile, after);
  }

  lemma TrimTwice(s: string)
    ensures Trim(Trim(s)) == Trim(s)
  {
    TrimTrims(s);
    TrimTrims(Trim(s));
  }

  lemma AliasCases(setup: Setup, c: Current, lower: Lower, alias: string)
    requires setup.transferAlias.Some? && alias == Trim(setup.transferAlias.value) && alias != ""
    ensures var changes := AliasChanges(setup, c, lower);
            || (changes == map[] && SameAlias(Some(alias), Value(c.NowProfile(), TransferAlias), lower))
            || (changes == NO_ACCOUNT && SameAlias(Some(alias), c.OrganizationAlias(), lower))
            || changes == map[TransferAlias := alias]
  {
  }

  lemma AliasInUse(setup: Setup, c: Current, lower: Lower, alias: string)
    requires setup.transferAlias.Some? && alias == Trim(setup.transferAlias.value) && alias != ""
    ensures SameAlias(Some(alias),
              Value(Used(c.organization.botProfile, OwnAfter(c.Own(), ProfileChanges(setup, c, lower))), TransferAlias), lower)
  {
    AliasCases(setup, c, lower, alias);
    var used := Used(c.organization.botProfile, OwnAfter(c.Own(), ProfileChanges(setup, c, lower)));
    if AliasChanges(setup, c, lower) == map[TransferAlias := alias] {
      assert Value(used, TransferAlias) == Some(alias) by {
        TrimTwice(setup.transferAlias.value);
        OwnAliasIsUsed(setup, c, lower, alias);
      }
    } else if AliasChanges(setup, c, lower) == NO_ACCOUNT {
      assert Value(used, TransferAlias) == c.OrganizationAlias() by {
        ClearedFollows(setup, c, lower, c.organization.botProfile);
      }
    } else {
      assert Value(used, TransferAlias) == Value(c.NowProfile(), TransferAlias) by {
        NoAliasChangeKeepsTheAccount(setup, c, lower);
      }
    }
  }

  /** A typed alias that is not empty is the one customers are given, ignoring case. */
  lemma TypedAliasIsUsed(setup: Setup, c: Current, lower: Lower)
    requires SetupData(setup, c, lower).Written?
    requires setup.transferAlias.Some? && Trim(setup.transferAlias.value) != ""
    ensures SameAlias(Some(Trim(setup.transferAlias.value)), Value(After(setup, c, lower).NowProfile(), TransferAlias), lower)
  {
    AfterKeepsTheRest(setup, c, lower);
    AliasInUse(setup, c, lower, Trim(setup.transferAlias.value));
  }

  /**
   * The organization's alias, typed over another one, gives the number the organization's whole account: CBU, holder
   * and bank with it, and whatever account the organization has later.
   */
  lemma OrganizationAliasFollowsIt(setup: Setup, c: Current, lower: Lower, later: Raw, f: Field)
    requires SetupData(setup, c, lower).Written? && f in ACCOUNT
    requires setup.transferAlias.Some? && Trim(setup.transferAlias.value) != ""
    requires SameAlias(Some(Trim(setup.transferAlias.value)), c.OrganizationAlias(), lower)
    requires !SameAlias(Some(Trim(setup.transferAlias.value)), Value(c.NowProfile(), TransferAlias), lower)
    ensures Value(Overlay(later, After(setup, c, lower).Own()).GetOr(map[]), f) == Value(ParseProfile(later), f)
  {
    AfterKeepsTheRest(setup, c, lower);
    ClearedFollows(setup, c, lower, later);
  }

  // ─── An alias sent empty ─────────────────────────────────

  ghost predicate OnlyEmptyIsEmpty(lower: Lower) { forall s :: lower(s) == lower("") ==> s == "" }

  lemma UsedAliasIsNotEmpty(c: Current)
    ensures Value(c.NowProfile(), TransferAlias) != Some("") && Clean(c.NowProfile())
  {
    ParseIsClean(c.Own());
    ParseIsClean(c.organization.botProfile);
  }

  lemma EmptyAliasChanges(setup: Setup, c: Current, lower: Lower)
    requires OnlyEmptyIsEmpty(lower) && setup.transferAlias.Some? && Trim(setup.transferAlias.value) == ""
    ensures AliasChanges(setup, c, lower) ==
              if Value(c.NowProfile(), TransferAlias).None? then map[] else map[TransferAlias := ""]
  {
    UsedAliasIsNotEmpty(c);
  }

  lemma UnusedAliasIsNotOwn(c: Current)
    requires Value(c.NowProfile(), TransferAlias).None?
    ensures TransferAlias !in ParseProfile(c.Own())
  {
    HasAccountIff(ParseProfile(c.Own()));
    AccountIsWhole(c.organization.botProfile, c.Own());
  }

  /** With the alias sent empty, the alias is not the number's own afterwards, and the rest of its account is as it was. */
  lemma OwnAccountAfterEmpty(setup: Setup, c: Current, lower: Lower, f: Field)
    requires OnlyEmptyIsEmpty(lower) && f in ACCOUNT
    requires setup.transferAlias.Some? && Trim(setup.transferAlias.value) == ""
    ensures Value(ParseProfile(OwnAfter(c.Own(), ProfileChanges(setup, c, lower))), f) ==
              if f == TransferAlias then None else Value(ParseProfile(c.Own()), f)
  {
    EmptyAliasChanges(setup, c, lower);
    AccountAfter(setup, c, lower, f);
    assert Trim("") == "";
    if Value(c.NowProfile(), TransferAlias).None? {
      UnusedAliasIsNotOwn(c);
    }
  }

  lemma FallsBackIff(organization: Raw, own: Profile, after: Raw)
    requires Value(ParseProfile(after), TransferAlias).None?
    requires forall f | f in ACCOUNT && f != TransferAlias :: Value(ParseProfile(after), f) == Value(own, f)
    ensures Value(Used(organization, after), TransferAlias) == Value(ParseProfile(organization), TransferAlias) <==>
              || TransferAlias !in ParseProfile(organization)
              || (TransferCbu !in own && TransferHolder !in own && TransferBank !in own)
  {
    var own2 := ParseProfile(after);
    assert Value(own2, TransferCbu) == Value(own, TransferCbu);
    assert Value(own2, TransferHolder) == Value(own, TransferHolder);
    assert Value(own2, TransferBank) == Value(own, TransferBank);
    HasAccountIff(own2);
    AccountIsWhole(organization, after);
  }

  /**
   * An alias sent empty leaves the organization's alias in use only when the number has no CBU, holder or bank of its
   * own; with one of them the account stays the number's, and customers are given no alias at all.
   */
  lemma EmptyAliasFallsBackIff(setup: Setup, c: Current, lower: Lower)
    requires SetupData(setup, c, lower).Written? && OnlyEmptyIsEmpty(lower)
    requires setup.transferAlias.Some? && Trim(setup.transferAlias.value) == ""
    ensures var own := ParseProfile(c.Own());
            Value(After(setup, c, lower).NowProfile(), TransferAlias) == c.OrganizationAlias() <==>
              c.OrganizationAlias().None? || (TransferCbu !in own && TransferHolder !in own && TransferBank !in own)
  {
    AfterKeepsTheRest(setup, c, lower);
    forall f | f in ACCOUNT
      ensures Value(ParseProfile(OwnAfter(c.Own(), ProfileChanges(setup, c, lower))), f) ==
                if f == TransferAlias then None else Value(ParseProfile(c.Own()), f)
    {
      OwnAccountAfterEmpty(setup, c, lower, f);
    }
    FallsBackIff(c.organization.botProfile, ParseProfile(c.Own()), OwnAfter(c.Own(), ProfileChanges(setup, c, lower)));
  }

  // ─── The names ───────────────────────────────────────────

  lemma BotNameIsUsed(setup: Setup, c: Current, lower: Lower)
    requires SetupData(setup, c, lower).Written? && setup.botName.Some?
    ensures var typed := Trim(setup.botName.value);
            After(setup, c, lower).Now().botName == if typed != "" then Some(typed) else c.organization.botName
  {
  }

  /** The name introduced when the number has none of its own. */
  function Fallback(c: Current): string { Value(ParseProfile(c.organization.botProfile), OrgName).GetOr(c.name) }

  lemma NameFollowsOwn(c: Current, own: Raw)
    ensures Value(Used(c.organization.botProfile, own), OrgName).GetOr(c.name) ==
              Value(ParseProfile(own), OrgName).GetOr(Fallback(c))
    ensures Value(ParseProfile(own), OrgName) != Some("")
  {
    ParseIsClean(own);
  }

  lemma NameUsed(own: Option<string>, after: Option<string>, fallback: string, typed: string)
    requires own != Some("") && Trim(typed) == typed
    requires after == if typed == own.GetOr(fallback) then own else TextOf(JsonText(typed))
    ensures after.GetOr(fallback) == if typed != "" then typed else fallback
  {
  }

  lemma NameAfterTyped(setup: Setup, c: Current, lower: Lower, typed: string)
    requires setup.presentationName.Some? && typed == Trim(setup.presentationName.value)
    ensures Value(ParseProfile(OwnAfter(c.Own(), ProfileChanges(setup, c, lower))), OrgName) ==
              if typed == c.Presentation() then Value(ParseProfile(c.Own()), OrgName) else TextOf(JsonText(typed))
  {
    NameAfter(setup, c, lower);
    if typed != c.Presentation() {
      assert OrgName in NameChanges(setup, c);
    }
  }

  lemma NameInUse(setup: Setup, c: Current, lower: Lower, typed: string)
    requires setup.presentationName.Some? && typed == Trim(setup.presentationName.value)
    ensures Value(Used(c.organization.botProfile, OwnAfter(c.Own(), ProfileChanges(setup, c, lower))), OrgName).GetOr(c.name)
              == if typed != "" then typed else Fallback(c)
  {
    var after := OwnAfter(c.Own(), ProfileChanges(setup, c, lower));
    NameFollowsOwn(c, c.Own());
    NameFollowsOwn(c, after);
    NameAfterTyped(setup, c, lower, typed);
    TrimTwice(setup.presentationName.value);
    NameUsed(Value(ParseProfile(c.Own()), OrgName), Value(ParseProfile(after), OrgName), Fallback(c), typed);
  }

  /** A name typed is the one introduced; an empty one leaves the organization's. */
  lemma PresentationIsUsed(setup: Setup, c: Current, lower: Lower)
    requires SetupData(setup, c, lower).Written? && setup.presentationName.Some?
    ensures var typed := Trim(setup.presentationName.value);
            After(setup, c, lower).Presentation() == if typed != "" then typed else Fallback(c)
  {
    AfterKeepsTheRest(setup, c, lower);
    NameInUse(setup, c, lower, Trim(setup.presentationName.value));
  }

  // ─── Hours and staff ─────────────────────────────────────

  /** Hours that are a week are the hours in use. */
  lemma HoursAreUsed(setup: Setup, c: Current, lower: Lower)
    requires SetupData(setup, c, lower).Written? && setup.hours.Some?
    ensures ValidHours(setup.hours.value)
    ensures ParseSchedule(After(setup, c, lower).Now().hours) == ParseSchedule(setup.hours.value)
  {
    var w := ParseSchedule(setup.hours.value);
    ParsedIsAWeek(setup.hours.value);
    TidyWeekIsAcceptedAsItIs(w);
  }

  /** The staff sent are the ones in use, as long as no name has a comma inside. */
  lemma StaffIsUsed(setup: Setup, c: Current, lower: Lower)
    requires SetupData(setup, c, lower).Written? && setup.staffNames.Some?
    requires var kept := StaffNames.Kept(setup.staffNames.value, {}, lower); kept != [] && Without(kept, ',')
    ensures StaffNames.Kept(StaffNames.Parse(After(setup, c, lower).Now().staffNames), {}, lower) ==
            StaffNames.Kept(setup.staffNames.value, {}, lower)
  {
    var names, now := setup.staffNames.value, c.Now().staffNames;
    StaffNames.StaffReadsBackIff(names, lower);
    StaffNames.KeptAgain(names, lower);
    if StaffNames.Serialize(names, lower) == StaffNames.Serialize(StaffNames.Parse(now), lower) {
      StaffNames.StaffReadsBackIff(StaffNames.Parse(now), lower);
      StaffNames.ParsedHasNoComma(now, lower);
    }
  }

  // ─── Twice is once ───────────────────────────────────────

  /** Any state of the number whose own profile is what the first setup left. */
  ghost predicate Follows(setup: Setup, c: Current, lower: Lower, after: Current) {
    && after.organization == c.organization && after.name == c.name
    && after.Own() == OwnAfter(c.Own(), ProfileChanges(setup, c, lower))
  }

  lemma SecondNameChange(setup: Setup, c: Current, lower: Lower, after: Current)
    requires Follows(setup, c, lower, after) && NameChanges(setup, after) != map[]
    ensures NameChanges(setup, after) == NameChanges(setup, c) && Trim(setup.presentationName.value) == ""
  {
    NameInUse(setup, c, lower, Trim(setup.presentationName.value));
    NameFollowsOwn(c, c.Own());
  }

  lemma SecondAliasChange(setup: Setup, c: Current, lower: Lower, after: Current)
    requires Follows(setup, c, lower, after) && AliasChanges(setup, after, lower) != map[]
    ensures AliasChanges(setup, after, lower) == AliasChanges(setup, c, lower) == map[TransferAlias := ""]
  {
    if Trim(setup.transferAlias.value) != "" {
      AliasInUse(setup, c, lower, Trim(setup.transferAlias.value));
      assert false;
    } else if AliasChanges(setup, c, lower) == map[] {
      NoAliasChangeKeepsTheAccount(setup, c, lower);
      assert false;
    }
  }

  lemma SecondChange(setup: Setup, c: Current, lower: Lower, after: Current, f: Field)
    requires Follows(setup, c, lower, after) && f in ProfileChanges(setup, after, lower)
    ensures f in ProfileChanges(setup, c, lower)
    ensures ProfileChanges(setup, c, lower)[f] == ProfileChanges(setup, after, lower)[f] == ""
  {
    NamesAreNoAccount(setup, c, lower);
    NamesAreNoAccount(setup, after, lower);
    if f in AliasChanges(setup, after, lower) {
      SecondAliasChange(setup, c, lower, after);
    } else {
      SecondNameChange(setup, c, lower, after);
    }
  }

  /** All a second setup can still change is to clear what the first one cleared. */
  lemma SecondChangesNothing(setup: Setup, c: Current, lower: Lower, after: Current)
    requires Follows(setup, c, lower, after)
    ensures OwnAfter(after.Own(), ProfileChanges(setup, after, lower)) == after.Own()
  {
    var own, first, second := c.Own(), ProfileChanges(setup, c, lower), ProfileChanges(setup, after, lower);
    if second != map[] {
      forall f | f in second
        ensures f in first && Value(Merge(own, first), f) == TextOf(JsonText(second[f]))
      {
        SecondChange(setup, c, lower, after, f);
      }
      var f :| f in second;
      assert f in first;
      MergeAgain(own, first, second);
    }
  }

  lemma HoursTwice(setup: Setup, c: Current, lower: Lower)
    requires SetupData(setup, c, lower).Written?
    ensures SetupData(setup, After(setup, c, lower), lower).Written?
    ensures SetupData(setup, After(setup, c, lower), lower).data.hours.None?
  {
    if setup.hours.Some? {
      HoursAreUsed(setup, c, lower);
    }
  }

  /** Writing the same setup a second time leaves the number as the first time left it. */
  lemma SetupTwiceIsOnce(setup: Setup, c: Current, lower: Lower)
    requires SetupData(setup, c, lower).Written?
    ensures var once := After(setup, c, lower);
            SetupData(setup, once, lower).Written? && After(setup, once, lower) == once
  {
    AfterKeepsTheRest(setup, c, lower);
    SecondChangesNothing(setup, c, lower, After(setup, c, lower));
    HoursTwice(setup, c, lower);
  }

  // ─── Sent back as it was ─────────────────────────────────

  /** The form as the panel fills it in: what the number already uses. */
  function Prefilled(c: Current): Setup {
    ParsedIsAWeek(c.Now().hours);
    Setup(Some(c.Now().botName.GetOr("")), Some(c.Presentation()),
          Some(Value(c.NowProfile(), TransferAlias).GetOr("")), Some(StaffNames.Parse(c.Now().staffNames)),
          Some(HoursOf(ParseSchedule(c.Now().hours))))
  }

  lemma PrefilledAlias(c: Current, lower: Lower)
    ensures AliasChanges(Prefilled(c), c, lower) == map[]
  {
    UsedAliasIsNotEmpty(c);
    TrimTrims(Value(c.NowProfile(), TransferAlias).GetOr(""));
  }

  lemma PrefilledProfile(c: Current, lower: Lower)
    ensures ProfileChanges(Prefilled(c), c, lower) == map[] <==> Trimmed(c.Presentation())
  {
    PrefilledAlias(c, lower);
    TrimTrims(c.Presentation());
    assert ProfileChanges(Prefilled(c), c, lower) == NameChanges(Prefilled(c), c);
  }

  lemma PrefilledHours(c: Current)
    ensures ValidHours(Prefilled(c).hours.value) && HoursData(Prefilled(c).hours, c.Now().hours) == None
  {
    ParsedIsAWeek(c.Now().hours);
    TidyWeekIsAcceptedAsItIs(ParseSchedule(c.Now().hours));
  }

  /**
   * Sending it back writes nothing, exactly when the two names were stored without white space around them and the
   * bot's is not an empty text.
   */
  lemma SentBackWritesNothingIff(c: Current, lower: Lower)
    ensures SetupData(Prefilled(c), c, lower) == Written(NO_DATA) <==>
              && (c.Now().botName.Some? ==> c.Now().botName.value != "" && Trimmed(c.Now().botName.value))
              && Trimmed(c.Presentation())
  {
    TrimTrims(c.Now().botName.GetOr(""));
    PrefilledProfile(c, lower);
    PrefilledHours(c);
  }
}
