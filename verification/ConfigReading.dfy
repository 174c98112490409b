/**
 What a configuration file is read as, key by key, and which files are read at all: the values
 of keys it does not name, the names and words it may use, the versions it may declare.
 */
module ConfigReading {
  import opened Chars
  import opened ConfigMigration
  import opened ConfigTables
  import opened NameSets
  import opened Utf8

  // ----- nothing given

  /** An empty file, and one that only declares the format, is the default configuration. */
  lemma NothingGiven()
    ensures
      var c := Config(1, "default", Service(true, None, None, true, map[]), map[], map[]);
      Parse(map[]) == Some(c) && Parse(map["version" := Int(1)]) == Some(c) && DEFAULT_CONFIG == c
  {
    var c := Config(1, "default", Service(true, None, None, true, map[]), map[], map[]);
    assert ValidName("default");
    EmptyRead(map[], c);
    EmptyRead(map["version" := Int(1)], c);
    assert SortServices(c).profiles == map[];
  }

  lemma EmptyRead(t: Entries, c: Config)
    requires t.Keys <= {"version"} && c == DEFAULT_CONFIG
    ensures IsConfig(t) && ConfigOf(t) == c
    ensures "version" !in t || t["version"] == Int(1) ==> Upgrade(t) == Some(t)
  {
    assert "active_profile" !in t && "aster_service" !in t && "profiles" !in t;
    assert t - TOP_KEYS == map[];
    var none: Entries := map[];
    assert none - SERVICE_KEYS == map[];
  }

  // ----- what each key is read as

  /** The service's switches are on unless the file says otherwise. */
  lemma ServiceSwitches(t: Entries)
    requires Parse(t).Some?
    ensures Upgrade(t).Some?
    ensures
      var (c, s) := (Parse(t).value.service, ServiceEntries(Upgrade(t).value));
      && (c.enabled <==> !("enabled" in s && s["enabled"] == Bool(false)))
      && (c.offlineBanner <==> !("offline_banner" in s && s["offline_banner"] == Bool(false)))
      && c.nodeId == (if "node_id" in s && s["node_id"].Str? then Some(s["node_id"].text) else None)
      && c.relay == (if "relay" in s && s["relay"].Str? then Some(s["relay"].text) else None)
  {
    hide IsProfiles, ProfilesOf, SortServices, ValidNames, Upgrade;
    SortedService(ConfigOf(Upgrade(t).value));
  }

  lemma SortedService(c: Config)
    ensures SortServices(c).service == c.service && SortServices(c).activeProfile == c.activeProfile
    ensures SortServices(c).profiles.Keys == c.profiles.Keys
    ensures forall n :: n in c.profiles ==>
              SortServices(c).profiles[n] ==
              c.profiles[n].(publishedServices := SortedUnique(c.profiles[n].publishedServices))
  {
  }

  /** The active profile is the file's, or "default". */
  lemma ActiveProfile(t: Entries)
    requires Parse(t).Some?
    ensures Parse(t).value.activeProfile ==
              if "active_profile" in t && t["active_profile"].Str? then t["active_profile"].text else "default"
  {
    hide IsProfiles, ProfilesOf, SortServices, ValidNames, Upgrade, ServiceOf, IsService;
    UpgradeTop(t, "active_profile");
    SortedService(ConfigOf(Upgrade(t).value));
  }

  lemma TextsRead(p: Entries)
    requires IsProfile(p)
    ensures forall k :: k in ProfileOf(p).texts <==>
                          k in p && k in {"exec_credential_file", "exec_policy_namespace", "exec_audience",
                                          "root_pubkey", "next_root_commitment", "root_cadence",
                                          "replication_allowance", "email"}
  {
    hide IsAddresses, IsTexts, IsHandle, TextsAt;
  }

  lemma SettingsRead(p: Entries)
    requires IsProfile(p)
    ensures
      var c := ProfileOf(p);
      && ("root_seq" !in p ==> c.rootSeq == 0) && ("root_rotations" !in p ==> c.rootRotations == [])
      && ("published_services" !in p ==> c.publishedServices == [])
      && ("exec_direct_addresses" !in p ==> c.directAddresses == map[]) && ("handle" !in p ==> c.handle == None)
  {
    hide IsAddresses, IsTexts, IsHandle;
  }

  /** A profile's settings when the file does not name them. */
  lemma ProfileDefaults(t: Entries, n: string)
    requires Parse(t).Some? && n in Parse(t).value.profiles && Upgrade(t).Some?
    ensures
      var (c, p) := (Parse(t).value.profiles[n], TableAt(Upgrade(t).value, n));
      && ("root_seq" !in p ==> c.rootSeq == 0) && ("root_rotations" !in p ==> c.rootRotations == [])
      && ("published_services" !in p ==> c.publishedServices == [])
      && ("exec_direct_addresses" !in p ==> c.directAddresses == map[]) && ("handle" !in p ==> c.handle == None)
      && (forall k :: k in c.texts <==>
                        k in p && k in {"exec_credential_file", "exec_policy_namespace", "exec_audience",
                                        "root_pubkey", "next_root_commitment", "root_cadence",
                                        "replication_allowance", "email"})
  {
    hide SortServices, ValidNames, Upgrade, ConfigOf, TableAt, IsConfig, IsProfile, ProfileOf;
    SortedService(ConfigOf(Upgrade(t).value));
    ReadProfiles(Upgrade(t).value, n);
    TextsRead(TableAt(Upgrade(t).value, n));
    SettingsRead(TableAt(Upgrade(t).value, n));
  }

  // ----- which tables are configurations

  /** What a key may hold. */
  datatype Kind = Anything | Text | Flag | Count | TextList | LocalWord | Lists | HandleForm | Section

  predicate Holds(kind: Kind, v: Toml) {
    match kind
    case Anything => true
    case Text => v.Str?
    case Flag => v.Bool?
    case Count => v.Int? && v.n >= 0
    case TextList => v.Array? && forall i :: 0 <= i < |v.items| ==> v.items[i].Str?
    case LocalWord => v == Str("local")
    case Lists =>
      v.Table? && forall n :: n in v.entries ==>
        v.entries[n].Array? && forall i :: 0 <= i < |v.entries[n].items| ==> v.entries[n].items[i].Str?
    case HandleForm =>
      && v.Table? && "name" in v.entries && v.entries["name"].Str?
      && "status" in v.entries && (v.entries["status"] == Str("pending") || v.entries["status"] == Str("verified"))
      && ("claimed_at" in v.entries ==> v.entries["claimed_at"].Str?)
    case Section => v.Table?
  }

  function TopKind(key: string): Kind {
    match key
    case "active_profile" => Text
    case "aster_service" => Section
    case "profiles" => Section
    case _ => Anything
  }

  function ServiceKind(key: string): Kind {
    match key
    case "enabled" => Flag
    case "offline_banner" => Flag
    case "node_id" => Text
    case "relay" => Text
    case _ => Anything
  }

  function ProfileKind(key: string): Kind {
    match key
    case "exec_credential_file" => Text
    case "exec_policy_namespace" => Text
    case "exec_audience" => Text
    case "root_pubkey" => Text
    case "next_root_commitment" => Text
    case "root_cadence" => Text
    case "replication_allowance" => Text
    case "email" => Text
    case "exec_direct_addresses" => Lists
    case "root_seq" => Count
    case "root_rotations" => TextList
    case "published_services" => TextList
    case "signer" => LocalWord
    case "handle" => HandleForm
    case _ => Anything
  }

  ghost predicate Fits(t: Entries, kind: string -> Kind) {
    forall k :: k in t ==> Holds(kind(k), t[k])
  }

  lemma TopFits(t: Entries)
    ensures Fits(t, TopKind) <==>
              && ("active_profile" in t ==> t["active_profile"].Str?)
              && ("aster_service" in t ==> t["aster_service"].Table?) && ("profiles" in t ==> t["profiles"].Table?)
  {
  }

  lemma ServiceFits(t: Entries)
    ensures Fits(t, ServiceKind) <==> IsService(t)
  {
  }

  lemma KindsAgree(v: Toml)
    ensures Holds(Lists, v) <==> IsAddresses(v)
    ensures Holds(TextList, v) <==> IsTexts(v)
    ensures Holds(HandleForm, v) <==> IsHandle(v)
  {
  }

  lemma TextKinds(key: string)
    ensures ProfileKind(key) == Text <==> key in TEXT_KEYS
    ensures key !in PROFILE_KEYS ==> ProfileKind(key) == Anything
  {
  }

  lemma SettingFits(p: Entries, key: string)
    requires key in SETTING_KEYS
    ensures key in p && IsProfile(p) ==> Holds(ProfileKind(key), p[key])
  {
    hide IsHandle, IsAddresses, IsTexts;
    if key in p {
      KindsAgree(p[key]);
    }
  }

  lemma KeyFits(p: Entries, key: string)
    requires key in p && IsProfile(p)
    ensures Holds(ProfileKind(key), p[key])
  {
    hide ProfileKind, IsHandle, IsAddresses, IsTexts;
    TextKinds(key);
    if key in SETTING_KEYS {
      SettingFits(p, key);
    }
  }

  lemma SettingsFit(p: Entries)
    requires Fits(p, ProfileKind)
    ensures "exec_direct_addresses" in p ==> Holds(Lists, p["exec_direct_addresses"])
    ensures "root_seq" in p ==> Holds(Count, p["root_seq"])
    ensures "root_rotations" in p ==> Holds(TextList, p["root_rotations"])
    ensures "published_services" in p ==> Holds(TextList, p["published_services"])
    ensures "signer" in p ==> Holds(LocalWord, p["signer"])
    ensures "handle" in p ==> Holds(HandleForm, p["handle"])
  {
    hide Holds;
  }

  lemma ProfileFits(p: Entries)
    ensures Fits(p, ProfileKind) <==> IsProfile(p)
  {
    if IsProfile(p) {
      hide Holds, ProfileKind, IsProfile;
      forall k | k in p ensures Holds(ProfileKind(k), p[k]) {
        KeyFits(p, k);
      }
    }
    if Fits(p, ProfileKind) {
      FitsProfile(p);
    }
  }

  lemma FitsProfile(p: Entries)
    requires Fits(p, ProfileKind)
    ensures IsProfile(p)
  {
    hide ProfileKind, IsHandle, IsAddresses, IsTexts;
    SettingsFit(p);
    forall k | k in p ensures k in TEXT_KEYS ==> Holds(Text, p[k]) {
      TextKinds(k);
    }
    forall k | k in p ensures
      && (Holds(Lists, p[k]) <==> IsAddresses(p[k])) && (Holds(TextList, p[k]) <==> IsTexts(p[k]))
      && (Holds(HandleForm, p[k]) <==> IsHandle(p[k]))
    {
      KindsAgree(p[k]);
    }
  }

  ghost predicate ProfilesFit(profiles: Entries) {
    forall n :: n in profiles ==>
      profiles[n].Table? && Fits(profiles[n].entries, ProfileKind) && ValidName(n)
  }

  /** A table of format 1 is read exactly when every key holds what it may, in the table, in its
      service and in every profile, and the names are valid. */
  lemma ReadExactly(t: Entries)
    requires "version" in t && t["version"] == Int(1)
    ensures Parse(t).Some? <==>
              && Fits(t, TopKind) && Fits(ServiceEntries(t), ServiceKind) && ProfilesFit(ProfileEntries(t))
              && ("active_profile" in t ==> t["active_profile"].Str? && ValidName(t["active_profile"].text))
  {
    hide Fits, IsService, ServiceOf, IsProfile, ProfileOf, ValidName, SortServices;
    TopFits(t);
    ServiceFits(ServiceEntries(t));
    DefaultIsValid();
    forall n | n in ProfileEntries(t) && ProfileEntries(t)[n].Table?
      ensures Fits(ProfileEntries(t)[n].entries, ProfileKind) <==> IsProfile(ProfileEntries(t)[n].entries)
    {
      ProfileFits(ProfileEntries(t)[n].entries);
    }
    NothingFits();
  }

  lemma DefaultIsValid()
    ensures ValidName("default")
  {
  }

  lemma NothingFits()
    ensures IsService(map[])
  {
  }

  // ----- which files are refused

  /** A name is 1 to 64 lower-case letters, digits, hyphens and underscores. */
  lemma NamesExactly(name: string)
    ensures ValidName(name) <==>
              && 1 <= |name| <= 64
              && forall i :: 0 <= i < |name| ==>
                   var c := name[i] as int;
                   97 <= c <= 122 || 48 <= c <= 57 || c == 45 || c == 95
  {
  }

  lemma MigrateStamped(t: Entries)
    requires "version" !in t
    ensures
      var u := t["version" := Int(0)];
      && (Migrate(u).Some? <==> Migrate(t).Some?)
      && (Migrate(t).Some? ==> Migrate(u).value - {"version"} == Migrate(t).value)
  {
    hide KeepText, MigrateProfiles, AllTables;
    var u := t["version" := Int(0)];
    assert MigrateService(u) == MigrateService(t)["version" := Int(0)];
    assert "profiles" in MigrateService(u) <==> "profiles" in MigrateService(t);
  }

  /** Only formats 0 and 1 are read; a file that declares none is format 0. */
  lemma FormatsExactly(t: Entries)
    ensures Parse(t).Some? ==> "version" !in t || t["version"] == Int(0) || t["version"] == Int(1)
    ensures "version" !in t ==> Parse(t) == Parse(t["version" := Int(0)])
  {
    hide IsConfig, ConfigOf, SortServices, ValidNames, Migrate;
    if "version" !in t {
      MigrateStamped(t);
      if Migrate(t).Some? {
        StampIgnored(Migrate(t["version" := Int(0)]).value);
        ParseOfUpgrade(t, t["version" := Int(0)]);
      }
    }
  }

  /** A signer other than "local" and a handle that is neither pending nor verified are refused. */
  lemma WordsExactly(t: Entries, n: string)
    requires Parse(t).Some? && n in Parse(t).value.profiles && Upgrade(t).Some?
    ensures
      var (c, p) := (Parse(t).value.profiles[n], TableAt(Upgrade(t).value, n));
      && ("signer" in p ==> p["signer"] == Str("local"))
      && (c.handle.Some? <==> "handle" in p)
      && (c.handle.Some? ==>
            && "status" in HandleEntries(p) && "name" in HandleEntries(p)
            && HandleEntries(p)["name"] == Str(c.handle.value.name)
            && HandleEntries(p)["status"] == Str(if c.handle.value.status == Pending then "pending" else "verified"))
  {
    hide IsProfiles, ProfilesOf, SortServices, ValidNames, Upgrade, ServiceOf, IsService, ConfigOf, TableAt, IsConfig;
    SortedService(ConfigOf(Upgrade(t).value));
    ReadProfiles(Upgrade(t).value, n);
  }

  // ----- format 0

  /** A key holds a text that is not empty. */
  predicate SaysText(t: Entries, key: string) {
    key in t && t[key].Str? && t[key].text != ""
  }

  lemma TakeSays(t: Entries, key: string)
    ensures TakeText(t, key) == if SaysText(t, key) then Some(t[key].text) else None
  {
  }

  /** A profile of format 0 has a handle exactly when it says a name and a status other than
      "unregistered"; the handle is that name, that status and the time it says, if it does. */
  lemma FlatHandleExactly(p: Entries)
    ensures "handle" in MigrateProfile(p) <==>
              SaysText(p, "handle") && SaysText(p, "handle_status") && p["handle_status"] != Str("unregistered")
    ensures "handle" in MigrateProfile(p) ==>
              var h := HandleEntries(MigrateProfile(p));
              && (forall k :: k in h <==>
                    k == "name" || k == "status" || (k == "claimed_at" && SaysText(p, "handle_claimed_at")))
              && h["name"] == p["handle"] && h["status"] == p["handle_status"]
              && ("claimed_at" in h ==> h["claimed_at"] == p["handle_claimed_at"])
    ensures "handle_status" !in MigrateProfile(p) && "handle_claimed_at" !in MigrateProfile(p)
  {
    hide MigrateProfile, TakeText;
    MigrateFlat(p, "handle");
    MigrateFlat(p, "handle_status");
    MigrateFlat(p, "handle_claimed_at");
    TakeSays(p, "handle");
    TakeSays(p, "handle_status");
    TakeSays(p, "handle_claimed_at");
  }

  /** The texts and the list of a profile stay exactly when they are not empty. */
  lemma FlatTextsExactly(p: Entries)
    ensures forall key :: key == "root_pubkey" || key == "email" ==>
              && (key in MigrateProfile(p) <==> SaysText(p, key))
              && (key in MigrateProfile(p) ==> MigrateProfile(p)[key] == p[key])
    ensures "published_services" in MigrateProfile(p) <==> SaysText(p, "published_services")
  {
    hide MigrateProfile, TakeText;
    MigrateText(p, "root_pubkey");
    MigrateText(p, "email");
    MigrateList(p);
    TakeSays(p, "root_pubkey");
    TakeSays(p, "email");
    TakeSays(p, "published_services");
  }

  /** A text of the service stays exactly when it is not empty, and any other key as it is. */
  ghost predicate SameOrSays(was: Entries, now: Entries, key: string) {
    && (key in now <==> if key == "node_id" || key == "relay" then SaysText(was, key) else key in was)
    && (key in now ==> key in was && now[key] == was[key])
  }


  lemma FlatServiceExactly(t: Entries)
    requires Migrate(t).Some? && "aster_service" in t && t["aster_service"].Table?
    ensures forall key :: SameOrSays(ServiceEntries(t), ServiceEntries(Migrate(t).value), key)
  {
    hide KeepText, MigrateProfiles, TakeText;
    var was := ServiceEntries(t);
    var mid := KeepText(was, "node_id");
    assert ServiceEntries(Migrate(t).value) == KeepText(mid, "relay");
    TakeSays(was, "node_id");
    TakeSays(mid, "relay");
    forall key ensures SameOrSays(was, KeepText(mid, "relay"), key) {
      KeepTextAt(was, "node_id", key);
      KeepTextAt(mid, "relay", key);
      KeepTextAt(was, "node_id", "relay");
      KeepTextAt(mid, "relay", "node_id");
    }
  }

  /** The strings of a list that are not empty. */
  function NonEmpty(names: seq<string>): seq<string> {
    if names == [] then [] else (if names[0] == "" then [] else [names[0]]) + NonEmpty(names[1..])
  }

  /** Names with white space around them. */
  function Padded(before: seq<string>, names: seq<string>, after: seq<string>): seq<string>
    requires |before| == |names| == |after|
  {
    seq(|names|, i requires 0 <= i < |names| => before[i] + names[i] + after[i])
  }

  /** A list of service names with white space around them is read as the names that are left. */
  lemma {:induction false} PaddedPieces(before: seq<string>, names: seq<string>, after: seq<string>)
    requires |before| == |names| == |after|
    requires forall i :: 0 <= i < |names| ==> Blank(before[i]) && Tight(names[i]) && Blank(after[i])
    ensures Pieces(Padded(before, names, after)) == NonEmpty(names)
  {
    hide Trim, Blank, Tight;
    if names != [] {
      var parts := Padded(before, names, after);
      TrimExactly(before[0], names[0], after[0]);
      PaddedPieces(before[1..], names[1..], after[1..]);
      assert parts[1..] == Padded(before[1..], names[1..], after[1..]);
    }
  }

  /** A comma-separated list of format 0, names without commas in any white space. */
  lemma PaddedList(before: seq<string>, names: seq<string>, after: seq<string>, parts: seq<string>)
    requires |before| == |names| == |after| == |parts| && names != []
    requires forall i :: 0 <= i < |names| ==>
               && Blank(before[i]) && Tight(names[i]) && Blank(after[i])
               && ',' !in names[i] && parts[i] == before[i] + names[i] + after[i]
    ensures Pieces(SplitCommas(JoinCommas(parts))) == NonEmpty(names)
  {
    hide Pieces, SplitCommas, JoinCommas, NonEmpty, Tight;
    forall i | 0 <= i < |parts| ensures ',' !in parts[i] {
      NoComma(before[i]);
      NoComma(after[i]);
    }
    SplitJoined(parts);
    PaddedPieces(before, names, after);
    assert parts == Padded(before, names, after);
  }

  lemma NoComma(s: string)
    requires Blank(s)
    ensures ',' !in s
  {
    assert !IsWhitespace(',');
  }
}
