/**
 What saving and reading a configuration preserves.
 */
module ConfigLaws {
  import opened ConfigTables
  import opened NameSets
  import opened Utf8

  /** The keys kept for other tools are not the program's own. */
  predicate SeparateProfile(p: Profile) {
    p.texts.Keys <= TEXT_KEYS && p.extra.Keys !! PROFILE_KEYS
  }

  predicate Separate(c: Config) {
    && c.extra.Keys !! TOP_KEYS
    && c.service.extra.Keys !! SERVICE_KEYS
    && forall n :: n in c.profiles ==> SeparateProfile(c.profiles[n])
  }

  // ----- a saved configuration reads back

  lemma HandleRoundTrip(h: Handle)
    ensures IsHandle(HandleTable(h)) && HandleOf(HandleTable(h)) == h
  {
  }

  lemma AddressesRoundTrip(a: map<string, seq<string>>)
    ensures IsAddresses(AddressTable(a)) && AddressesOf(AddressTable(a)) == a
  {
    forall n | n in a ensures IsTexts(ArrayOf(a[n])) && Texts(ArrayOf(a[n])) == a[n] {
      TextsRoundTrip(a[n]);
    }
  }

  /** Where the settings about roots and addresses are written. */
  ghost predicate HoldsRoot(t: Entries, p: Profile)
    requires p.rootSeq <= MAX_INTEGER
  {
    && ("exec_direct_addresses" in t <==> p.directAddresses != map[])
    && ("exec_direct_addresses" in t ==> t["exec_direct_addresses"] == AddressTable(p.directAddresses))
    && ("root_seq" in t <==> p.rootSeq != 0)
    && ("root_seq" in t ==> t["root_seq"] == Int(p.rootSeq))
    && ("root_rotations" in t <==> p.rootRotations != [])
    && ("root_rotations" in t ==> t["root_rotations"] == ArrayOf(p.rootRotations))
  }

  ghost predicate HoldsRole(t: Entries, p: Profile) {
    && "signer" in t && t["signer"] == Str("local")
    && ("published_services" in t <==> p.publishedServices != [])
    && ("published_services" in t ==> t["published_services"] == ArrayOf(p.publishedServices))
    && ("handle" in t <==> p.handle.Some?)
    && ("handle" in t ==> t["handle"] == HandleTable(p.handle.value))
  }

  lemma RootSettingsHold(p: Profile)
    requires p.rootSeq <= MAX_INTEGER
    ensures HoldsRoot(RootSettings(p), p) && RootSettings(p).Keys <= ROOT_KEYS
  {
    hide AddressTable, ArrayOf;
  }

  lemma RoleSettingsHold(p: Profile)
    ensures HoldsRole(RoleSettings(p), p) && RoleSettings(p).Keys <= ROLE_KEYS
  {
    hide ArrayOf, HandleTable;
  }

  /** Settings, texts and the rest do not overlap. */
  lemma KeysApart()
    ensures TEXT_KEYS !! SETTING_KEYS && ROOT_KEYS !! ROLE_KEYS
  {
  }

  lemma ProfileTableAt(p: Profile, t: Entries)
    requires SeparateProfile(p) && p.rootSeq <= MAX_INTEGER && t == ProfileTable(p)
    ensures forall k :: k in TEXT_KEYS ==> (k in t <==> k in p.texts) && (k in t ==> t[k] == Str(p.texts[k]))
    ensures forall k :: k in SETTING_KEYS ==> (k in t <==> k in Settings(p)) && (k in t ==> t[k] == Settings(p)[k])
    ensures forall k :: k !in PROFILE_KEYS ==> (k in t <==> k in p.extra) && (k in t ==> t[k] == p.extra[k])
  {
    hide RootSettings, RoleSettings, HoldsRoot, HoldsRole;
    RootSettingsHold(p);
    RoleSettingsHold(p);
    KeysApart();
  }

  lemma ProfileHolds(p: Profile)
    requires SeparateProfile(p) && p.rootSeq <= MAX_INTEGER
    ensures HoldsRoot(ProfileTable(p), p) && HoldsRole(ProfileTable(p), p)
  {
    hide RootSettings, RoleSettings, ProfileTable, AddressTable, ArrayOf, HandleTable;
    RootSettingsHold(p);
    RoleSettingsHold(p);
    KeysApart();
    ProfileTableAt(p, ProfileTable(p));
  }

  lemma RootSettingsRead(t: Entries, p: Profile)
    requires p.rootSeq <= MAX_INTEGER && HoldsRoot(t, p)
    ensures "exec_direct_addresses" in t ==> IsAddresses(t["exec_direct_addresses"])
    ensures (if "exec_direct_addresses" in t then AddressesOf(t["exec_direct_addresses"]) else map[])
              == p.directAddresses
    ensures "root_seq" in t ==> t["root_seq"].Int? && t["root_seq"].n >= 0
    ensures (if "root_seq" in t then t["root_seq"].n else 0) == p.rootSeq
    ensures "root_rotations" in t ==> IsTexts(t["root_rotations"])
    ensures TextsAt(t, "root_rotations") == p.rootRotations
  {
    hide AddressTable, AddressesOf, IsAddresses, ArrayOf, Texts, IsTexts;
    AddressesRoundTrip(p.directAddresses);
    TextsRoundTrip(p.rootRotations);
  }

  lemma RoleSettingsRead(t: Entries, p: Profile)
    requires HoldsRole(t, p)
    ensures "published_services" in t ==> IsTexts(t["published_services"])
    ensures TextsAt(t, "published_services") == p.publishedServices
    ensures "handle" in t ==> IsHandle(t["handle"])
    ensures (if "handle" in t then Some(HandleOf(t["handle"])) else None) == p.handle
  {
    hide ArrayOf, Texts, IsTexts, HandleTable, HandleOf, IsHandle;
    TextsRoundTrip(p.publishedServices);
    if p.handle.Some? {
      HandleRoundTrip(p.handle.value);
    }
  }

  lemma ProfileRoundTrip(p: Profile)
    requires SeparateProfile(p) && p.rootSeq <= MAX_INTEGER
    ensures IsProfile(ProfileTable(p)) && ProfileOf(ProfileTable(p)) == p
  {
    hide ProfileTable, Settings, HoldsRoot, IsAddresses, AddressesOf, IsHandle, HandleOf, TextsAt, IsTexts;
    var t := ProfileTable(p);
    ProfileTableAt(p, t);
    ProfileHolds(p);
    RootSettingsRead(t, p);
    RoleSettingsRead(t, p);
    assert (map k | k in TEXT_KEYS && k in t :: t[k].text) == p.texts;
    assert t - PROFILE_KEYS == p.extra;
  }

  lemma ServiceFlags(s: Service, t: Entries)
    requires s.extra.Keys !! SERVICE_KEYS && t == ServiceTable(s)
    ensures "enabled" in t && t["enabled"] == Bool(s.enabled)
    ensures "offline_banner" in t && t["offline_banner"] == Bool(s.offlineBanner)
    ensures t - SERVICE_KEYS == s.extra
  {
  }

  lemma ServiceTexts(s: Service, t: Entries)
    requires s.extra.Keys !! SERVICE_KEYS && t == ServiceTable(s)
    ensures ("node_id" in t ==> t["node_id"].Str?) && TextAt(t, "node_id") == s.nodeId
    ensures ("relay" in t ==> t["relay"].Str?) && TextAt(t, "relay") == s.relay
  {
  }

  lemma ServiceTableAt(s: Service, t: Entries)
    requires s.extra.Keys !! SERVICE_KEYS && t == ServiceTable(s)
    ensures "enabled" in t && t["enabled"] == Bool(s.enabled)
    ensures "offline_banner" in t && t["offline_banner"] == Bool(s.offlineBanner)
    ensures ("node_id" in t ==> t["node_id"].Str?) && TextAt(t, "node_id") == s.nodeId
    ensures ("relay" in t ==> t["relay"].Str?) && TextAt(t, "relay") == s.relay
    ensures t - SERVICE_KEYS == s.extra
  {
    hide ServiceTable, TextAt;
    ServiceFlags(s, t);
    ServiceTexts(s, t);
  }

  lemma ServiceRoundTrip(s: Service)
    requires s.extra.Keys !! SERVICE_KEYS
    ensures IsService(ServiceTable(s)) && ServiceOf(ServiceTable(s)) == s
  {
    hide ServiceTable, TextAt;
    ServiceTableAt(s, ServiceTable(s));
  }

  lemma ProfilesRoundTrip(p: map<string, Profile>)
    requires forall n :: n in p ==> SeparateProfile(p[n]) && p[n].rootSeq <= MAX_INTEGER
    ensures IsProfiles(ProfilesTable(p)) && ProfilesOf(ProfilesTable(p)) == p
  {
    hide IsProfile, ProfileOf, ProfileTable, SeparateProfile;
    forall n | n in p ensures IsProfile(ProfileTable(p[n])) && ProfileOf(ProfileTable(p[n])) == p[n] {
      ProfileRoundTrip(p[n]);
    }
  }

  lemma ConfigRoundTrip(c: Config)
    requires Separate(c) && Storable(c)
    ensures IsConfig(ConfigTable(c)) && ConfigOf(ConfigTable(c)) == c.(version := VERSION)
  {
    hide SeparateProfile, IsProfiles, ProfilesOf, ProfilesTable, IsService, ServiceOf, ServiceTable;
    ProfilesRoundTrip(c.profiles);
    ServiceRoundTrip(c.service);
    assert ConfigTable(c) - TOP_KEYS == c.extra;
  }

  /** With kept keys that are not the program's own, what was saved reads as the same
      configuration with services sorted, or is refused for a name: saving does not check them. */
  lemma ParseSaved(c: Config)
    requires Separate(c) && Storable(c)
    ensures Parse(ConfigTable(c)) ==
              if ValidNames(c) then Some(SortServices(c.(version := VERSION))) else None
  {
    hide IsConfig, ConfigOf, ConfigTable, Separate, Migrate;
    ConfigRoundTrip(c);
    SavedFormat(c);
  }

  lemma SavedFormat(c: Config)
    requires Separate(c) && Storable(c)
    ensures Format(ConfigTable(c)) == Some(VERSION)
  {
    hide ProfilesTable, ServiceTable;
  }

  // ----- parsed configurations are fixed points

  /** Everything the parser promises of its result. */
  ghost predicate Settled(c: Config) {
    && Separate(c) && Storable(c) && ValidNames(c) && c.version == VERSION
    && forall n :: n in c.profiles ==> StrictlyAscending(c.profiles[n].publishedServices)
  }

  lemma ReadProfile(p: Entries)
    requires IsProfile(p)
    ensures SeparateProfile(ProfileOf(p)) && ProfileOf(p).rootSeq <= MAX_INTEGER
  {
    hide IsTexts, IsHandle, IsAddresses;
  }

  lemma ReadConfig(t: Entries)
    requires IsConfig(t)
    ensures Separate(ConfigOf(t)) && Storable(ConfigOf(t)) && ConfigOf(t).version == VERSION
  {
    hide IsProfile, ProfileOf, SeparateProfile;
    if "profiles" in t {
      forall n | n in t["profiles"].entries
        ensures SeparateProfile(ProfileOf(t["profiles"].entries[n].entries))
        ensures ProfileOf(t["profiles"].entries[n].entries).rootSeq <= MAX_INTEGER
      {
        ReadProfile(t["profiles"].entries[n].entries);
      }
    }
  }

  lemma SortedSettles(c: Config)
    requires Separate(c) && Storable(c) && ValidNames(c) && c.version == VERSION
    ensures Settled(SortServices(c))
  {
    hide StrictlyAscending, SortedUnique, ValidName;
    forall n | n in c.profiles ensures StrictlyAscending(SortedUnique(c.profiles[n].publishedServices)) {
      SortedUniqueEffect(c.profiles[n].publishedServices);
    }
  }

  lemma ParsedSettled(t: Entries)
    requires Parse(t).Some?
    ensures Settled(Parse(t).value) && (Format(t) == Some(0) || Format(t) == Some(VERSION))
  {
    hide IsConfig, ConfigOf, Separate, Storable, ValidNames, SortServices, Settled;
    ReadConfig(Upgrade(t).value);
    SortedSettles(ConfigOf(Upgrade(t).value));
  }

  lemma SettledSorted(c: Config)
    requires Settled(c)
    ensures SortServices(c) == c
  {
    hide StrictlyAscending, SortedUnique, Separate, Storable, ValidNames;
    forall n | n in c.profiles
      ensures SortedUnique(c.profiles[n].publishedServices) == c.profiles[n].publishedServices
    {
      SortedUniqueFixed(c.profiles[n].publishedServices);
    }
    assert SortServices(c).profiles == c.profiles;
  }

  /** A parsed configuration can be saved, and parsing the saved table gives it back: the file
      is migrated at most once. */
  lemma ParseReachesFixpoint(t: Entries)
    requires Parse(t).Some?
    ensures
      var c := Parse(t).value;
      Serialize(c).Some? && Format(Serialize(c).value) == Some(VERSION) && Parse(Serialize(c).value) == Some(c)
  {
    hide Parse, ConfigTable, SortServices, Format, Separate, Storable, ValidNames;
    ParsedSettled(t);
    var c := Parse(t).value;
    SettledSorted(c);
    SavedFormat(c);
    ParseSaved(c);
    assert c.(version := VERSION) == c;
  }

  // ----- exactly which configurations are saved without loss

  /** The table of a configuration reads back exactly when no kept key is the program's own: a
      kept key written later hides the setting of that name. */
  lemma RoundTripIsExact(c: Config)
    requires Storable(c)
    ensures (IsConfig(ConfigTable(c)) && ConfigOf(ConfigTable(c)) == c.(version := VERSION)) <==> Separate(c)
  {
    hide IsConfig, ConfigOf, ConfigTable, SeparateProfile, Storable;
    if Separate(c) {
      ConfigRoundTrip(c);
    } else if IsConfig(ConfigTable(c)) {
      ReadConfig(ConfigTable(c));
    }
  }

  lemma SortedSeparate(c: Config)
    ensures Separate(SortServices(c)) <==> Separate(c)
    ensures ValidNames(SortServices(c)) <==> ValidNames(c)
  {
    hide SortedUnique, ValidName;
    var d := SortServices(c);
    forall n | n in c.profiles ensures SeparateProfile(d.profiles[n]) <==> SeparateProfile(c.profiles[n]) {
    }
    assert d.profiles.Keys == c.profiles.Keys;
  }

  /** Saving and loading gives a configuration back, services sorted, exactly when its integers
      can be stored, no kept key is the program's own and the names are valid. */
  lemma SavedReloadsExactly(c: Config)
    ensures (Serialize(c).Some? && Parse(Serialize(c).value) == Some(SortServices(c.(version := VERSION)))) <==>
              Storable(c) && Separate(c) && ValidNames(c)
  {
    hide Parse, ConfigTable, SortServices, Separate, ValidNames, Storable, Format;
    var d := c.(version := VERSION);
    SortedSeparate(d);
    SameButVersion(c);
    if Storable(c) {
      if Separate(c) && ValidNames(c) {
        ParseSaved(c);
      } else if Parse(ConfigTable(c)).Some? {
        ParsedSettled(ConfigTable(c));
      }
    }
  }

  lemma SameButVersion(c: Config)
    ensures Separate(c.(version := VERSION)) <==> Separate(c)
    ensures ValidNames(c.(version := VERSION)) <==> ValidNames(c)
  {
    hide SeparateProfile, ValidName;
  }

  /** A change that sets a name with an upper-case letter saves a file that no longer loads. */
  lemma BadNameSaved()
    ensures
      var c := DEFAULT_CONFIG.(activeProfile := "Prod");
      Separate(c) && Storable(c) && !ValidNames(c) && Parse(ConfigTable(c)) == None
  {
    hide ConfigTable, Parse, SortServices;
    var c := DEFAULT_CONFIG.(activeProfile := "Prod");
    assert !IsNameChar("Prod"[0]);
    assert !ValidName(c.activeProfile);
    ParseSaved(c);
  }

  /** So does a change that keeps a value of its own under one of the program's keys. */
  lemma KnownKeyKept()
    ensures
      var c := DEFAULT_CONFIG.(extra := map["active_profile" := Int(1)]);
      !Separate(c) && Storable(c) && ValidNames(c) && Parse(ConfigTable(c)) == None
  {
    hide ProfilesTable, ServiceTable, Migrate, SortServices, IsService, IsProfiles;
    var c := DEFAULT_CONFIG.(extra := map["active_profile" := Int(1)]);
    assert "active_profile" in c.extra.Keys * TOP_KEYS;
    assert ValidName("default");
    assert !ConfigTable(c)["active_profile"].Str?;
    assert ConfigTable(c)["version"] == Int(VERSION);
  }
}
