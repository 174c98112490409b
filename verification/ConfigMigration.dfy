/**
 What migration from format 0 keeps and means.
 */
module ConfigMigration {
  import opened Chars
  import opened ConfigLaws
  import opened ConfigTables
  import opened Utf8

  const MIGRATED_KEYS: set<string> := {"root_pubkey", "email", "published_services"}
  const HANDLE_KEYS: set<string> := {"handle", "handle_status", "handle_claimed_at"}

  // ----- what migration does to each key of a profile

  /** The same tables, key by key. */
  ghost predicate SameAt(a: Entries, b: Entries, k: string) {
    (k in a <==> k in b) && (k in a ==> a[k] == b[k])
  }

  lemma SameEverywhere(a: Entries, b: Entries)
    requires forall k :: SameAt(a, b, k)
    ensures a == b
  {
    forall k ensures (k in a <==> k in b) && (k in a ==> a[k] == b[k]) {
      assert SameAt(a, b, k);
    }
  }


  lemma KeepTextAt(t: Entries, key: string, k: string)
    ensures k != key ==> SameAt(KeepText(t, key), t, k)
    ensures key in KeepText(t, key) <==> TakeText(t, key).Some?
    ensures key in KeepText(t, key) ==> KeepText(t, key)[key] == t[key]
  {
  }

  lemma MigrateServicesAt(p: Entries, k: string)
    requires k != "published_services"
    ensures SameAt(MigrateServices(p), p, k)
  {
    hide Pieces, SplitCommas, ArrayOf;
  }

  lemma MigrateHandleAt(p: Entries, k: string)
    requires k !in HANDLE_KEYS
    ensures SameAt(MigrateHandle(p), p, k)
  {
  }

  /** Other keys are kept as they are. */
  lemma MigrateOther(p: Entries, k: string)
    requires k !in MIGRATED_KEYS && k !in HANDLE_KEYS
    ensures SameAt(MigrateProfile(p), p, k)
  {
    hide KeepText, MigrateServices, MigrateHandle;
    var p1 := KeepText(p, "root_pubkey");
    var p2 := KeepText(p1, "email");
    KeepTextAt(p, "root_pubkey", k);
    KeepTextAt(p1, "email", k);
    MigrateServicesAt(p2, k);
    MigrateHandleAt(MigrateServices(p2), k);
  }

  /** `root_pubkey` and `email` stay exactly when they hold a non-empty text. */
  lemma MigrateText(p: Entries, key: string)
    requires key == "root_pubkey" || key == "email"
    ensures key in MigrateProfile(p) <==> TakeText(p, key).Some?
    ensures key in MigrateProfile(p) ==> MigrateProfile(p)[key] == p[key]
  {
    hide KeepText, MigrateServices, MigrateHandle;
    var p1 := KeepText(p, "root_pubkey");
    var p2 := KeepText(p1, "email");
    KeepTextAt(p, "root_pubkey", key);
    KeepTextAt(p1, "email", key);
    MigrateServicesAt(p2, key);
    MigrateHandleAt(MigrateServices(p2), key);
  }

  /** The services become the non-empty trimmed pieces between commas; a list that is not a
      non-empty text is dropped. */
  lemma MigrateList(p: Entries)
    ensures
      var list := TakeText(p, "published_services");
      && ("published_services" in MigrateProfile(p) <==> list.Some?)
      && (list.Some? ==> MigrateProfile(p)["published_services"] == ArrayOf(Pieces(SplitCommas(list.value))))
  {
    hide KeepText, MigrateHandle, Pieces, SplitCommas, ArrayOf;
    var p1 := KeepText(p, "root_pubkey");
    var p2 := KeepText(p1, "email");
    KeepTextAt(p, "root_pubkey", "published_services");
    KeepTextAt(p1, "email", "published_services");
    MigrateHandleAt(MigrateServices(p2), "published_services");
  }

  /** The handle a migrated profile has. */
  function FlatToHandle(p: Entries): Option<Toml> {
    var name, status := TakeText(p, "handle"), TakeText(p, "handle_status");
    if name.Some? && status.Some? && status.value != "unregistered" then
      Some(Table(map["name" := Str(name.value), "status" := Str(status.value)]
                 + OptionalText("claimed_at", TakeText(p, "handle_claimed_at"))))
    else None
  }

  lemma FlatToHandleFrame(p: Entries, q: Entries)
    requires forall k :: k in HANDLE_KEYS ==> SameAt(p, q, k)
    ensures FlatToHandle(p) == FlatToHandle(q)
  {
    assert SameAt(p, q, "handle") && SameAt(p, q, "handle_status") && SameAt(p, q, "handle_claimed_at");
  }

  lemma MigrateHandleValue(p: Entries, k: string)
    requires k in HANDLE_KEYS
    ensures k in MigrateHandle(p) <==> k == "handle" && FlatToHandle(p).Some?
    ensures k in MigrateHandle(p) ==> MigrateHandle(p)[k] == FlatToHandle(p).value
  {
  }

  /** The three flat keys become one handle table, or none. */
  lemma MigrateFlat(p: Entries, k: string)
    requires k in HANDLE_KEYS
    ensures k in MigrateProfile(p) <==> k == "handle" && FlatToHandle(p).Some?
    ensures k in MigrateProfile(p) ==> MigrateProfile(p)[k] == FlatToHandle(p).value
  {
    hide KeepText, MigrateServices, MigrateHandle, FlatToHandle;
    var p1 := KeepText(p, "root_pubkey");
    var p2 := KeepText(p1, "email");
    var p3 := MigrateServices(p2);
    forall j | j in HANDLE_KEYS ensures SameAt(p, p3, j) {
      KeepTextAt(p, "root_pubkey", j);
      KeepTextAt(p1, "email", j);
      MigrateServicesAt(p2, j);
    }
    FlatToHandleFrame(p, p3);
    MigrateHandleValue(p3, k);
  }

  // ----- unknown keys survive

  lemma UpgradeTop(t: Entries, k: string)
    requires Upgrade(t).Some? && k != "aster_service" && k != "profiles"
    ensures k in Upgrade(t).value <==> k in t
    ensures k in t ==> Upgrade(t).value[k] == t[k]
  {
    hide KeepText, MigrateProfiles;
  }

  /** A top-level key the program does not know is saved with the value it was read with. */
  lemma UnknownTopKept(t: Entries, k: string)
    requires Parse(t).Some? && k !in TOP_KEYS
    ensures Serialize(Parse(t).value).Some?
    ensures
      var saved := Serialize(Parse(t).value).value;
      (k in saved <==> k in t) && (k in t ==> saved[k] == t[k])
  {
    hide Upgrade, ValidNames, ProfilesOf, ServiceOf, IsConfig;
    UpgradeTop(t, k);
    ParseReachesFixpoint(t);
  }

  /** The entries of the service table; none when there is no table. */
  function ServiceEntries(t: Entries): Entries {
    if "aster_service" in t && t["aster_service"].Table? then t["aster_service"].entries else map[]
  }

  function ProfileEntries(t: Entries): Entries {
    if "profiles" in t && t["profiles"].Table? then t["profiles"].entries else map[]
  }

  lemma UpgradeService(t: Entries, k: string)
    requires Upgrade(t).Some? && k !in SERVICE_KEYS
    ensures k in ServiceEntries(Upgrade(t).value) <==> k in ServiceEntries(t)
    ensures k in ServiceEntries(t) ==> ServiceEntries(Upgrade(t).value)[k] == ServiceEntries(t)[k]
  {
    hide KeepText, MigrateProfiles;
    var s := ServiceEntries(t);
    KeepTextAt(s, "node_id", k);
    KeepTextAt(KeepText(s, "node_id"), "relay", k);
  }

  lemma SavedService(c: Config, k: string)
    requires Separate(c) && Storable(c) && k !in SERVICE_KEYS
    ensures k in ServiceEntries(ConfigTable(c)) <==> k in c.service.extra
    ensures k in c.service.extra ==> ServiceEntries(ConfigTable(c))[k] == c.service.extra[k]
  {
    hide ProfilesTable, ServiceTable;
    var t := ServiceTable(c.service);
    ServiceTableAt(c.service, t);
    assert ServiceEntries(ConfigTable(c)) == t;
    assert k in t <==> k in t - SERVICE_KEYS;
  }

  lemma ReadService(u: Entries, k: string)
    requires IsConfig(u) && k !in SERVICE_KEYS
    ensures k in ConfigOf(u).service.extra <==> k in ServiceEntries(u)
    ensures k in ServiceEntries(u) ==> ConfigOf(u).service.extra[k] == ServiceEntries(u)[k]
  {
    hide ProfilesOf, IsProfiles;
  }

  /** So is an unknown key of the service table. */
  lemma UnknownServiceKept(t: Entries, k: string)
    requires Parse(t).Some? && k !in SERVICE_KEYS
    ensures Serialize(Parse(t).value).Some?
    ensures
      var saved := ServiceEntries(Serialize(Parse(t).value).value);
      (k in saved <==> k in ServiceEntries(t)) && (k in saved ==> saved[k] == ServiceEntries(t)[k])
  {
    hide Upgrade, ValidNames, ConfigOf, IsConfig, ConfigTable, ServiceEntries, Separate, Storable;
    UpgradeService(t, k);
    ReadService(Upgrade(t).value, k);
    ParsedSettled(t);
    ParseReachesFixpoint(t);
    SavedService(Parse(t).value, k);
  }

  lemma UpgradeProfiles(t: Entries, n: string)
    requires Upgrade(t).Some?
    ensures n in ProfileEntries(Upgrade(t).value) <==> n in ProfileEntries(t)
    ensures n in ProfileEntries(t) ==>
              ProfileEntries(Upgrade(t).value)[n] ==
              if Format(t) == Some(0) then Table(MigrateProfile(TableAt(t, n))) else ProfileEntries(t)[n]
  {
    hide KeepText, MigrateProfile;
  }

  /** The entries of profile `n`. */
  function TableAt(t: Entries, n: string): Entries {
    if n in ProfileEntries(t) && ProfileEntries(t)[n].Table? then ProfileEntries(t)[n].entries else map[]
  }

  lemma ReadProfiles(u: Entries, n: string)
    requires IsConfig(u)
    ensures n in ConfigOf(u).profiles <==> n in ProfileEntries(u)
    ensures n in ProfileEntries(u) ==>
              && ProfileEntries(u)[n].Table? && IsProfile(TableAt(u, n))
              && ConfigOf(u).profiles[n] == ProfileOf(TableAt(u, n))
  {
    hide IsProfile, ProfileOf;
  }

  lemma SavedProfiles(c: Config, n: string)
    requires Separate(c) && Storable(c)
    ensures n in ProfileEntries(ConfigTable(c)) <==> n in c.profiles
    ensures n in c.profiles ==> TableAt(ConfigTable(c), n) == ProfileTable(c.profiles[n])
  {
    hide ProfileTable, ServiceTable;
  }

  lemma SavedProfileExtra(p: Profile, k: string)
    requires SeparateProfile(p) && p.rootSeq <= MAX_INTEGER && k !in PROFILE_KEYS
    ensures k in ProfileTable(p) <==> k in p.extra
    ensures k in p.extra ==> ProfileTable(p)[k] == p.extra[k]
  {
    hide Settings;
    ProfileTableAt(p, ProfileTable(p));
  }

  lemma ReadProfileExtra(p: Entries, k: string)
    requires IsProfile(p) && k !in PROFILE_KEYS
    ensures k in ProfileOf(p).extra <==> k in p
    ensures k in p ==> ProfileOf(p).extra[k] == p[k]
  {
    hide IsProfile;
  }

  /** No profile appears or disappears. */
  lemma ProfilesKept(t: Entries, n: string)
    requires Parse(t).Some?
    ensures Serialize(Parse(t).value).Some?
    ensures n in ProfileEntries(Serialize(Parse(t).value).value) <==> n in ProfileEntries(t)
  {
    hide Upgrade, ValidNames, ConfigOf, IsConfig, ConfigTable, ProfileEntries, Separate, Storable;
    UpgradeProfiles(t, n);
    ReadProfiles(Upgrade(t).value, n);
    ParsedSettled(t);
    ParseReachesFixpoint(t);
    SavedProfiles(Parse(t).value, n);
  }

  /** An unknown key of a profile is saved with the value it was read with, except the two flat
      handle keys of format 0, which never are. */
  lemma UnknownProfileKept(t: Entries, n: string, k: string)
    requires Parse(t).Some? && n in ProfileEntries(t) && k !in PROFILE_KEYS
    ensures Serialize(Parse(t).value).Some?
    ensures
      var saved := TableAt(Serialize(Parse(t).value).value, n);
      && (k in saved <==> k in TableAt(t, n) && !(Format(t) == Some(0) && k in HANDLE_KEYS))
      && (k in saved ==> saved[k] == TableAt(t, n)[k])
  {
    hide Upgrade, ValidNames, ConfigOf, IsConfig, ConfigTable, ProfileEntries, Separate, Storable, MigrateProfile,
      IsProfile, ProfileOf, ProfileTable, Format;
    var u, p := Upgrade(t).value, TableAt(t, n);
    UpgradeProfiles(t, n);
    ReadProfiles(u, n);
    ParsedSettled(t);
    ParseReachesFixpoint(t);
    var c := Parse(t).value;
    SavedProfiles(c, n);
    ReadProfileExtra(TableAt(u, n), k);
    SettledProfile(c, n);
    SavedProfileExtra(c.profiles[n], k);
    UnknownIsNotMigrated(k);
    if k in HANDLE_KEYS {
      MigrateFlat(p, k);
    } else {
      MigrateOther(p, k);
    }
  }

  lemma SettledProfile(c: Config, n: string)
    requires Settled(c) && n in c.profiles
    ensures SeparateProfile(c.profiles[n]) && c.profiles[n].rootSeq <= MAX_INTEGER
  {
  }

  lemma UnknownIsNotMigrated(k: string)
    requires k !in PROFILE_KEYS
    ensures k !in MIGRATED_KEYS && k != "handle"
  {
  }

  // ----- unknown keys of a handle do not

  /** The entries of a profile's handle; none when there is no such table. */
  function HandleEntries(p: Entries): Entries {
    if "handle" in p && p["handle"].Table? then p["handle"].entries else map[]
  }

  function AddressEntries(p: Entries): Entries {
    if "exec_direct_addresses" in p && p["exec_direct_addresses"].Table? then p["exec_direct_addresses"].entries
    else map[]
  }

  predicate HandleKey(k: string) {
    k == "name" || k == "status" || k == "claimed_at"
  }

  lemma HandleKeys(h: Handle, k: string)
    ensures k in HandleTable(h).entries <==> k == "name" || k == "status" || (k == "claimed_at" && h.claimedAt.Some?)
  {
  }

  /** A handle that is read and written keeps its three keys and no other. */
  lemma HandleRewritten(t: Toml, k: string)
    requires IsHandle(t)
    ensures
      var saved := HandleTable(HandleOf(t)).entries;
      (k in saved <==> k in t.entries && HandleKey(k)) && (k in saved ==> saved[k] == t.entries[k])
  {
    HandleKeys(HandleOf(t), k);
  }

  lemma AddressesRewritten(t: Toml)
    requires IsAddresses(t)
    ensures AddressTable(AddressesOf(t)) == t
  {
    forall n | n in t.entries ensures ArrayOf(Texts(t.entries[n])) == t.entries[n] {
      TextsRewritten(t.entries[n]);
    }
    assert AddressTable(AddressesOf(t)).entries == t.entries;
  }

  lemma TextsRewritten(t: Toml)
    requires IsTexts(t)
    ensures ArrayOf(Texts(t)) == t
  {
    assert ArrayOf(Texts(t)).items == t.items;
  }

  /** A profile that is read and written again: its handle keeps the three known keys, its
      addresses keep all. */
  lemma TablesRewritten(p: Entries, sorted: seq<string>, k: string)
    requires IsProfile(p) && ProfileOf(p).rootSeq <= MAX_INTEGER
    ensures
      var saved := ProfileTable(ProfileOf(p).(publishedServices := sorted));
      && (k in HandleEntries(saved) <==> k in HandleEntries(p) && HandleKey(k))
      && (k in HandleEntries(saved) ==> HandleEntries(saved)[k] == HandleEntries(p)[k])
      && AddressEntries(saved) == AddressEntries(p)
  {
    hide ProfileTable, HandleTable, HandleOf, IsHandle, AddressTable, AddressesOf, IsAddresses, IsTexts, HandleKey;
    var q := ProfileOf(p).(publishedServices := sorted);
    ReadProfile(p);
    assert SeparateProfile(q);
    ProfileHolds(q);
    if "handle" in p {
      IsHandleTable(p["handle"]);
      HandleRewritten(p["handle"], k);
    }
    if "exec_direct_addresses" in p {
      IsAddressTable(p["exec_direct_addresses"]);
      AddressesRewritten(p["exec_direct_addresses"]);
      AddressesEmpty(p["exec_direct_addresses"]);
    }
  }

  lemma IsHandleTable(t: Toml)
    requires IsHandle(t)
    ensures t.Table? && HandleTable(HandleOf(t)).Table?
  {
  }

  lemma IsAddressTable(t: Toml)
    requires IsAddresses(t)
    ensures t.Table?
  {
  }

  lemma AddressesEmpty(t: Toml)
    requires IsAddresses(t)
    ensures AddressesOf(t) == map[] <==> t.entries == map[]
  {
    assert AddressesOf(t).Keys == t.entries.Keys;
  }

  /** The profile a parsed file saves under a name is the one it was read with, services sorted. */
  lemma SavedFromRead(t: Entries, n: string) returns (sorted: seq<string>)
    requires Parse(t).Some? && n in ProfileEntries(t)
    ensures Serialize(Parse(t).value).Some? && Upgrade(t).Some?
    ensures
      var p := TableAt(Upgrade(t).value, n);
      && IsProfile(p) && ProfileOf(p).rootSeq <= MAX_INTEGER
      && TableAt(Serialize(Parse(t).value).value, n) == ProfileTable(ProfileOf(p).(publishedServices := sorted))
  {
    hide Upgrade, ValidNames, ConfigOf, IsConfig, ConfigTable, ProfileEntries, Separate, Storable, MigrateProfile,
      IsProfile, ProfileOf, ProfileTable, Format, TableAt;
    var u := Upgrade(t).value;
    UpgradeProfiles(t, n);
    ReadProfiles(u, n);
    ParsedSettled(t);
    ParseReachesFixpoint(t);
    var c := Parse(t).value;
    SavedProfiles(c, n);
    SettledProfile(c, n);
    sorted := c.profiles[n].publishedServices;
  }

  /** For every file: of the entries a profile's handle is read with, the three known keys are
      saved, with their values, and no other is; the addresses, the other table inside a
      profile that the program reads, keep every entry. */
  lemma UnknownHandleLost(t: Entries, n: string, k: string)
    requires Parse(t).Some? && n in ProfileEntries(t)
    ensures Serialize(Parse(t).value).Some? && Upgrade(t).Some?
    ensures
      var saved, read := TableAt(Serialize(Parse(t).value).value, n), TableAt(Upgrade(t).value, n);
      && (k in HandleEntries(saved) <==> k in HandleEntries(read) && HandleKey(k))
      && (k in HandleEntries(saved) ==> HandleEntries(saved)[k] == HandleEntries(read)[k])
      && AddressEntries(saved) == AddressEntries(read)
  {
    hide Parse, Serialize, Upgrade, ProfileEntries, TableAt, IsProfile, ProfileOf, ProfileTable, HandleEntries,
      AddressEntries, HandleKey;
    var sorted := SavedFromRead(t, n);
    TablesRewritten(TableAt(Upgrade(t).value, n), sorted, k);
  }

  /** A handle with a fourth key. */
  const NOTED_HANDLE: Entries := map["name" := Str("ops"), "status" := Str("pending"), "note" := Str("on call")]

  const NOTED_PROFILE: Entries := map["handle" := Table(NOTED_HANDLE)]

  const NOTED_FILE: Entries := map["version" := Int(1), "profiles" := Table(map["prod" := Table(NOTED_PROFILE)])]

  lemma NotedProfileRead()
    ensures IsProfile(NOTED_PROFILE) && HandleEntries(NOTED_PROFILE) == NOTED_HANDLE
  {
    assert IsHandle(Table(NOTED_HANDLE));
  }

  lemma NotedConfigRead()
    ensures IsConfig(NOTED_FILE) && ConfigOf(NOTED_FILE).activeProfile == "default"
    ensures ConfigOf(NOTED_FILE).profiles.Keys == {"prod"}
  {
    hide IsProfile, ProfileOf, IsService, ServiceOf;
    NotedProfileRead();
  }

  lemma NotedFileRead()
    ensures Upgrade(NOTED_FILE) == Some(NOTED_FILE) && Parse(NOTED_FILE).Some?
    ensures "prod" in ProfileEntries(NOTED_FILE) && TableAt(NOTED_FILE, "prod") == NOTED_PROFILE
  {
    hide SortServices, Migrate, IsConfig, ConfigOf;
    NotedConfigRead();
    assert ValidName("default") && ValidName("prod");
  }

  /** A file that loads and whose fourth handle key the next save drops. */
  lemma HandleNoteLost()
    ensures Parse(NOTED_FILE).Some? && Serialize(Parse(NOTED_FILE).value).Some?
    ensures "note" in HandleEntries(TableAt(NOTED_FILE, "prod"))
    ensures "note" !in HandleEntries(TableAt(Serialize(Parse(NOTED_FILE).value).value, "prod"))
  {
    hide Parse, Serialize, TableAt, ProfileEntries, HandleEntries, Upgrade;
    NotedFileRead();
    NotedProfileRead();
    UnknownHandleLost(NOTED_FILE, "prod", "note");
    assert "note" in NOTED_HANDLE;
  }

  // ----- what format 0 means

  function TextOf(o: Option<string>): string {
    if o.Some? then o.value else ""
  }

  function JoinCommas(s: seq<string>): string {
    if s == [] then "" else if |s| == 1 then s[0] else s[0] + "," + JoinCommas(s[1..])
  }

  /** The three flat handle keys; status `unregistered` means no handle. */
  function FlatHandle(h: Option<Handle>): Entries {
    if h.None? then map["handle" := Str(""), "handle_status" := Str("unregistered"), "handle_claimed_at" := Str("")]
    else map["handle" := Str(h.value.name),
             "handle_status" := Str(if h.value.status.Pending? then "pending" else "verified"),
             "handle_claimed_at" := Str(TextOf(h.value.claimedAt))]
  }

  function TextSetting(p: Profile, key: string): Option<string> {
    if key in p.texts then Some(p.texts[key]) else None
  }

  /** A profile in the layout of format 0: unset values are empty strings. */
  function LegacyProfile(p: Profile): Entries
    requires p.rootSeq <= MAX_INTEGER
  {
    ProfileTable(p)
      ["root_pubkey" := Str(TextOf(TextSetting(p, "root_pubkey")))]
      ["email" := Str(TextOf(TextSetting(p, "email")))]
      ["published_services" := Str(JoinCommas(p.publishedServices))]
    + FlatHandle(p.handle)
  }

  predicate PlainName(s: string) {
    s != "" && Trim(s) == s && ',' !in s
  }

  /** What format 0 can express: no set value is empty and service names are plain. */
  predicate Expressible(p: Profile) {
    && SeparateProfile(p) && p.rootSeq <= MAX_INTEGER
    && p.extra.Keys !! {"handle_status", "handle_claimed_at"}
    && TextSetting(p, "root_pubkey") != Some("") && TextSetting(p, "email") != Some("")
    && (forall i :: 0 <= i < |p.publishedServices| ==> PlainName(p.publishedServices[i]))
    && (p.handle.Some? ==> p.handle.value.name != "" && p.handle.value.claimedAt != Some(""))
  }

  lemma {:induction false} SplitPrefix(a: string, b: string)
    requires ',' !in a
    ensures SplitCommas(a + "," + b) == [a] + SplitCommas(b)
  {
    if a == [] {
      assert a + "," + b == "," + b;
    } else {
      assert a + "," + b == [a[0]] + (a[1..] + "," + b);
      SplitPrefix(a[1..], b);
      assert [a[0]] + a[1..] == a;
    }
  }

  lemma {:induction false} SplitWhole(a: string)
    requires ',' !in a
    ensures SplitCommas(a) == [a]
  {
    if a != [] {
      SplitWhole(a[1..]);
      assert [a[0]] + a[1..] == a;
    }
  }

  /** Splitting undoes joining for names without commas. */
  lemma {:induction false} SplitJoined(s: seq<string>)
    requires s != [] && forall i :: 0 <= i < |s| ==> ',' !in s[i]
    ensures SplitCommas(JoinCommas(s)) == s
  {
    if |s| == 1 {
      SplitWhole(s[0]);
    } else {
      SplitJoined(s[1..]);
      SplitPrefix(s[0], JoinCommas(s[1..]));
      assert s == [s[0]] + s[1..];
    }
  }

  lemma {:induction false} PlainPieces(s: seq<string>)
    requires forall i :: 0 <= i < |s| ==> PlainName(s[i])
    ensures Pieces(s) == s
  {
    if s != [] {
      PlainPieces(s[1..]);
      assert s == [s[0]] + s[1..];
    }
  }

  /** The list read from joined plain names is those names. */
  lemma JoinedList(s: seq<string>)
    requires forall i :: 0 <= i < |s| ==> PlainName(s[i])
    ensures JoinCommas(s) == "" <==> s == []
    ensures s != [] ==> Pieces(SplitCommas(JoinCommas(s))) == s
  {
    if s != [] {
      SplitJoined(s);
      PlainPieces(s);
    }
  }

  /** The flat form of a handle reads back as the table of the same handle. */
  lemma FlatRoundTrip(t: Entries, h: Option<Handle>)
    requires h.Some? ==> h.value.name != "" && h.value.claimedAt != Some("")
    requires forall k :: k in HANDLE_KEYS ==> SameAt(t, FlatHandle(h), k)
    ensures FlatToHandle(t) == if h.Some? then Some(HandleTable(h.value)) else None
  {
    assert SameAt(t, FlatHandle(h), "handle") && SameAt(t, FlatHandle(h), "handle_status");
    assert SameAt(t, FlatHandle(h), "handle_claimed_at");
  }

  /** A profile whose flat keys spell a handle, or none, has exactly that handle once migrated. */
  lemma MigratedHandleMeans(t: Entries, h: Option<Handle>)
    requires h.Some? ==> h.value.name != "" && h.value.claimedAt != Some("")
    requires forall k :: k in HANDLE_KEYS ==> SameAt(t, FlatHandle(h), k)
    ensures
      var m := MigrateProfile(t);
      && "handle_status" !in m && "handle_claimed_at" !in m
      && ("handle" in m ==> IsHandle(m["handle"]))
      && (if "handle" in m then Some(HandleOf(m["handle"])) else None) == h
  {
    hide MigrateProfile, FlatToHandle, FlatHandle, HandleTable, IsHandle, HandleOf;
    FlatRoundTrip(t, h);
    MigrateFlat(t, "handle");
    MigrateFlat(t, "handle_status");
    MigrateFlat(t, "handle_claimed_at");
    if h.Some? {
      HandleRoundTrip(h.value);
    }
  }

  lemma LegacyAt(p: Profile, k: string)
    requires p.rootSeq <= MAX_INTEGER
    ensures k !in MIGRATED_KEYS && k !in HANDLE_KEYS ==> SameAt(LegacyProfile(p), ProfileTable(p), k)
    ensures "root_pubkey" in LegacyProfile(p)
    ensures LegacyProfile(p)["root_pubkey"] == Str(TextOf(TextSetting(p, "root_pubkey")))
    ensures "email" in LegacyProfile(p) && LegacyProfile(p)["email"] == Str(TextOf(TextSetting(p, "email")))
    ensures "published_services" in LegacyProfile(p)
    ensures LegacyProfile(p)["published_services"] == Str(JoinCommas(p.publishedServices))
  {
    hide ProfileTable, TextOf, TextSetting, JoinCommas;
    FlatHandleKeys(p.handle);
    assert MIGRATED_KEYS !! HANDLE_KEYS;
  }

  lemma FlatHandleKeys(h: Option<Handle>)
    ensures FlatHandle(h).Keys == HANDLE_KEYS
  {
  }

  lemma LegacyHandle(p: Profile)
    requires p.rootSeq <= MAX_INTEGER
    ensures forall k :: k in HANDLE_KEYS ==> SameAt(LegacyProfile(p), FlatHandle(p.handle), k)
  {
    hide ProfileTable, TextOf, TextSetting, JoinCommas, FlatHandle;
    FlatHandleKeys(p.handle);
  }

  lemma LegacyProfileAt(p: Profile, k: string)
    requires Expressible(p)
    ensures SameAt(MigrateProfile(LegacyProfile(p)), ProfileTable(p), k)
  {
    hide ProfileTable, LegacyProfile, MigrateProfile, JoinCommas, ArrayOf, HandleTable, FlatHandle, FlatToHandle,
      PlainName, SeparateProfile, Pieces, SplitCommas;
    var t := LegacyProfile(p);
    LegacyAt(p, k);
    LegacyHandle(p);
    ProfileTableTexts(p, k);
    ProfileTableRoles(p);
    if k == "root_pubkey" || k == "email" {
      MigrateText(t, k);
    } else if k == "published_services" {
      MigrateList(t);
      JoinedList(p.publishedServices);
    } else if k in HANDLE_KEYS {
      MigrateFlat(t, k);
      FlatRoundTrip(t, p.handle);
    } else {
      MigrateOther(t, k);
    }
  }

  lemma ProfileTableTexts(p: Profile, k: string)
    requires Expressible(p)
    ensures k == "root_pubkey" || k == "email" ==> SameAt(ProfileTable(p), OptionalText(k, TextSetting(p, k)), k)
    ensures "handle_status" !in ProfileTable(p) && "handle_claimed_at" !in ProfileTable(p)
  {
    hide ProfileTable, Settings, PlainName;
    ProfileTableAt(p, ProfileTable(p));
    assert "handle_status" !in PROFILE_KEYS && "handle_claimed_at" !in PROFILE_KEYS;
  }

  lemma ProfileTableRoles(p: Profile)
    requires Expressible(p)
    ensures HoldsRole(ProfileTable(p), p)
  {
    hide ProfileTable, HoldsRoot, HoldsRole, PlainName, TextSetting, SeparateProfile;
    ProfileHolds(p);
  }

  /** Migrating a profile written in the old layout gives the table the new layout writes. */
  lemma MigratedLegacy(p: Profile)
    requires Expressible(p)
    ensures MigrateProfile(LegacyProfile(p)) == ProfileTable(p)
  {
    hide SeparateProfile, PlainName, TextSetting, MigrateProfile, LegacyProfile, ProfileTable;
    forall k ensures SameAt(MigrateProfile(LegacyProfile(p)), ProfileTable(p), k) {
      LegacyProfileAt(p, k);
    }
    SameEverywhere(MigrateProfile(LegacyProfile(p)), ProfileTable(p));
  }

  // ----- whole files of format 0

  function LegacyService(s: Service): Entries {
    ServiceTable(s)["node_id" := Str(TextOf(s.nodeId))]["relay" := Str(TextOf(s.relay))]
  }

  function LegacyProfiles(p: map<string, Profile>): (r: Entries)
    requires forall n :: n in p ==> p[n].rootSeq <= MAX_INTEGER
    ensures AllTables(r)
  {
    map n | n in p :: Table(LegacyProfile(p[n]))
  }

  /** A configuration in the layout of format 0, which has no version key. */
  function LegacyTable(c: Config): Entries
    requires Storable(c)
  {
    map["active_profile" := Str(c.activeProfile),
        "aster_service" := Table(LegacyService(c.service)),
        "profiles" := Table(LegacyProfiles(c.profiles))]
    + c.extra
  }

  predicate ExpressibleConfig(c: Config) {
    && Separate(c) && Storable(c)
    && c.service.nodeId != Some("") && c.service.relay != Some("")
    && forall n :: n in c.profiles ==> Expressible(c.profiles[n])
  }

  lemma LegacyServiceAt(s: Service, k: string)
    requires s.extra.Keys !! SERVICE_KEYS && s.nodeId != Some("") && s.relay != Some("")
    ensures SameAt(KeepText(KeepText(LegacyService(s), "node_id"), "relay"), ServiceTable(s), k)
  {
    hide ServiceTable, KeepText;
    var t := LegacyService(s);
    var t1 := KeepText(t, "node_id");
    ServiceTableAt(s, ServiceTable(s));
    KeepTextAt(t, "node_id", k);
    KeepTextAt(t, "node_id", "relay");
    KeepTextAt(t1, "relay", k);
  }

  lemma MigratedLegacyService(s: Service)
    requires s.extra.Keys !! SERVICE_KEYS && s.nodeId != Some("") && s.relay != Some("")
    ensures KeepText(KeepText(LegacyService(s), "node_id"), "relay") == ServiceTable(s)
  {
    hide ServiceTable, KeepText, LegacyService;
    forall k ensures SameAt(KeepText(KeepText(LegacyService(s), "node_id"), "relay"), ServiceTable(s), k) {
      LegacyServiceAt(s, k);
    }
    SameEverywhere(KeepText(KeepText(LegacyService(s), "node_id"), "relay"), ServiceTable(s));
  }

  lemma MigratedLegacyProfiles(p: map<string, Profile>)
    requires forall n :: n in p ==> p[n].rootSeq <= MAX_INTEGER
    requires forall n :: n in p ==> Expressible(p[n])
    ensures Table(MigrateProfiles(LegacyProfiles(p))) == ProfilesTable(p)
  {
    hide LegacyProfile, MigrateProfile, ProfileTable, SeparateProfile, PlainName, TextSetting;
    forall n | n in p ensures MigrateProfile(LegacyProfile(p[n])) == ProfileTable(p[n]) {
      MigratedLegacy(p[n]);
    }
  }

  /** A top table of format 0, and what changing its two tables makes of it. */
  lemma TopTables(active: Toml, service: Toml, profiles: Toml, service': Toml, extra: Entries)
    requires extra.Keys !! TOP_KEYS
    ensures
      var t := map["active_profile" := active, "aster_service" := service, "profiles" := profiles] + extra;
      && "version" !in t
      && "aster_service" in t && t["aster_service"] == service
      && "profiles" in t["aster_service" := service'] && t["aster_service" := service']["profiles"] == profiles
  {
  }

  lemma TopTablesStamped(active: Toml, service: Toml, profiles: Toml, service': Toml, profiles': Toml, extra: Entries)
    requires extra.Keys !! TOP_KEYS
    ensures
      var t := map["active_profile" := active, "aster_service" := service, "profiles" := profiles] + extra;
      t["aster_service" := service']["profiles" := profiles'] ==
      (map["version" := Int(VERSION), "active_profile" := active, "aster_service" := service', "profiles" := profiles']
       + extra) - {"version"}
  {
  }

  /** Migration of a whole file in the old layout gives the new layout but for the stamp. */
  lemma MigratedFile(c: Config)
    requires ExpressibleConfig(c)
    ensures Migrate(LegacyTable(c)) == Some(ConfigTable(c) - {"version"})
  {
    hide LegacyService, KeepText, ServiceTable, MigrateProfiles, LegacyProfiles, ProfilesTable, Expressible, AllTables;
    MigratedLegacyService(c.service);
    MigratedLegacyProfiles(c.profiles);
    var active, service, profiles := Str(c.activeProfile), Table(LegacyService(c.service)),
        Table(LegacyProfiles(c.profiles));
    TopTables(active, service, profiles, Table(ServiceTable(c.service)), c.extra);
    TopTablesStamped(active, service, profiles, Table(ServiceTable(c.service)), ProfilesTable(c.profiles), c.extra);
  }

  lemma StampIgnored(t: Entries)
    ensures IsConfig(t - {"version"}) <==> IsConfig(t)
    ensures IsConfig(t) ==> ConfigOf(t - {"version"}) == ConfigOf(t)
  {
    hide IsProfiles, ProfilesOf, IsService, ServiceOf;
    var u := t - {"version"};
    assert SameAt(u, t, "active_profile") && SameAt(u, t, "aster_service") && SameAt(u, t, "profiles");
    assert u - TOP_KEYS == t - TOP_KEYS;
  }

  lemma ParseOfUpgrade(a: Entries, b: Entries)
    requires Upgrade(a).Some? && Upgrade(b).Some?
    requires IsConfig(Upgrade(a).value) <==> IsConfig(Upgrade(b).value)
    requires IsConfig(Upgrade(a).value) ==> ConfigOf(Upgrade(a).value) == ConfigOf(Upgrade(b).value)
    ensures Parse(a) == Parse(b)
  {
    hide IsConfig, ConfigOf, Upgrade, SortServices, ValidNames;
  }

  lemma LegacyFormat(c: Config)
    requires Separate(c) && Storable(c)
    ensures Format(LegacyTable(c)) == Some(0)
  {
    hide LegacyService, LegacyProfiles;
  }

  /** A file in the old layout and the same configuration in the new layout read as the same
      configuration. */
  lemma FormatsAgree(c: Config)
    requires ExpressibleConfig(c)
    ensures Parse(LegacyTable(c)) == Parse(ConfigTable(c))
    ensures Parse(LegacyTable(c)) == if ValidNames(c) then Some(SortServices(c.(version := VERSION))) else None
  {
    hide IsConfig, ConfigOf, ConfigTable, Migrate, SortServices, ValidNames, Expressible, Parse, LegacyTable, Separate,
      Storable, Format;
    MigratedFile(c);
    LegacyFormat(c);
    SavedFormat(c);
    StampIgnored(ConfigTable(c));
    ParseOfUpgrade(LegacyTable(c), ConfigTable(c));
    ParseSaved(c);
  }

  // ----- why the stamp matters

  /** Migrating twice is the same as migrating once exactly when the profile has no handle and
      no published services. */
  lemma MigrateTwice(p: Entries)
    ensures
      var m := MigrateProfile(p);
      MigrateProfile(m) == m <==> "handle" !in m && "published_services" !in m
  {
    hide MigrateProfile;
    var m := MigrateProfile(p);
    MigrateList(p);
    MigrateList(m);
    MigrateFlat(p, "handle");
    MigrateFlat(m, "handle");
    if "handle" !in m && "published_services" !in m {
      forall k ensures SameAt(MigrateProfile(m), m, k) {
        SecondMigration(p, k);
      }
      SameEverywhere(MigrateProfile(m), m);
    }
  }

  lemma SecondMigration(p: Entries, k: string)
    requires "handle" !in MigrateProfile(p) && "published_services" !in MigrateProfile(p)
    ensures SameAt(MigrateProfile(MigrateProfile(p)), MigrateProfile(p), k)
  {
    hide MigrateProfile, FlatToHandle;
    var m := MigrateProfile(p);
    if k == "root_pubkey" || k == "email" {
      MigrateText(p, k);
      MigrateText(m, k);
    } else if k == "published_services" {
      MigrateList(m);
    } else if k in HANDLE_KEYS {
      MigrateFlat(p, k);
      MigrateFlat(m, k);
      NoFlatHandle(m);
    } else {
      MigrateOther(m, k);
    }
  }

  lemma NoFlatHandle(p: Entries)
    requires "handle" !in p
    ensures FlatToHandle(p).None?
  {
  }

  // ----- the program

  /** The loop of `v0_to_v1`: profile by profile, in place. */
  method MigrateEach(before: Entries) returns (r: Option<Entries>)
    ensures r.Some? <==> AllTables(before)
    ensures r.Some? ==> r.value == MigrateProfiles(before)
  {
    hide MigrateProfile;
    var profiles, todo := before, before.Keys;
    while todo != {}
      invariant todo <= before.Keys == profiles.Keys
      invariant forall n :: n in todo ==> profiles[n] == before[n]
      invariant forall n :: n in before && n !in todo ==>
                  before[n].Table? && profiles[n] == Table(MigrateProfile(before[n].entries))
      decreases |todo|
    {
      var n :| n in todo;
      if !profiles[n].Table? {
        return None;
      }
      profiles := profiles[n := Table(MigrateProfile(profiles[n].entries))];
      todo := todo - {n};
    }
    assert profiles == MigrateProfiles(before);
    r := Some(profiles);
  }

  /** `v0_to_v1`. */
  method MigrateTable(t: Entries) returns (r: Option<Entries>)
    ensures r == Migrate(t)
  {
    hide KeepText, MigrateProfiles, AllTables;
    var table := t;
    if "aster_service" in table && table["aster_service"].Table? {
      var svc := table["aster_service"].entries;
      svc := KeepText(svc, "node_id");
      svc := KeepText(svc, "relay");
      table := table["aster_service" := Table(svc)];
    }
    if !("profiles" in table && table["profiles"].Table?) {
      return Some(table);
    }
    var profiles := MigrateEach(table["profiles"].entries);
    r := if profiles.Some? then Some(table["profiles" := Table(profiles.value)]) else None;
  }
}
