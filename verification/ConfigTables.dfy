/**
 The operator configuration as tables: how a table becomes a configuration and back, and how
 format 0 becomes format 1.
 */
module ConfigTables {
  import opened Chars
  import opened NameSets
  import opened Utf8

  /** A value of a configuration file; `Other` stands for floats and dates, kept as they are. */
  datatype Toml =
    | Str(text: string)
    | Int(n: i64)
    | Bool(b: bool)
    | Other(text: string)
    | Array(items: seq<Toml>)
    | Table(entries: Entries)

  type Entries = map<string, Toml>

  const MAX_INTEGER: int := 0x7FFF_FFFF_FFFF_FFFF

  type i64 = n: int | -MAX_INTEGER - 1 <= n <= MAX_INTEGER
  type u64 = n: int | 0 <= n <= 2 * MAX_INTEGER + 1

  const VERSION: i64 := 1

  datatype HandleStatus = Pending | Verified

  datatype Handle = Handle(name: string, status: HandleStatus, claimedAt: Option<string>)

  datatype Service = Service(
    enabled: bool,
    nodeId: Option<string>,
    relay: Option<string>,
    offlineBanner: bool,
    extra: Entries)

  /** One operator identity; `texts` holds the optional text settings that are set. */
  datatype Profile = Profile(
    texts: map<string, string>,
    directAddresses: map<string, seq<string>>,
    rootSeq: u64,
    rootRotations: seq<string>,
    publishedServices: seq<string>,
    handle: Option<Handle>,
    extra: Entries)

  datatype Config = Config(
    version: i64,
    activeProfile: string,
    service: Service,
    profiles: map<string, Profile>,
    extra: Entries)

  const DEFAULT_CONFIG: Config := Config(VERSION, "default", Service(true, None, None, true, map[]), map[], map[])

  const TEXT_KEYS: set<string> := {
    "exec_credential_file", "exec_policy_namespace", "exec_audience", "root_pubkey",
    "next_root_commitment", "root_cadence", "replication_allowance", "email"}

  const ROOT_KEYS: set<string> := {"exec_direct_addresses", "root_seq", "root_rotations"}

  const ROLE_KEYS: set<string> := {"signer", "published_services", "handle"}

  const SETTING_KEYS: set<string> := ROOT_KEYS + ROLE_KEYS

  const PROFILE_KEYS: set<string> := TEXT_KEYS + SETTING_KEYS

  const SERVICE_KEYS: set<string> := {"enabled", "node_id", "relay", "offline_banner"}

  const TOP_KEYS: set<string> := {"version", "active_profile", "aster_service", "profiles"}

  // ----- reading

  predicate IsTexts(t: Toml) {
    t.Array? && forall i :: 0 <= i < |t.items| ==> t.items[i].Str?
  }

  function Texts(t: Toml): seq<string>
    requires IsTexts(t)
  {
    seq(|t.items|, i requires 0 <= i < |t.items| => t.items[i].text)
  }

  function ArrayOf(s: seq<string>): Toml {
    Array(seq(|s|, i requires 0 <= i < |s| => Str(s[i])))
  }

  lemma TextsRoundTrip(s: seq<string>)
    ensures IsTexts(ArrayOf(s)) && Texts(ArrayOf(s)) == s
  {
  }

  function TextAt(t: Entries, key: string): Option<string>
    requires key in t ==> t[key].Str?
  {
    if key in t then Some(t[key].text) else None
  }

  function BoolAt(t: Entries, key: string, default: bool): bool
    requires key in t ==> t[key].Bool?
  {
    if key in t then t[key].b else default
  }

  function TextsAt(t: Entries, key: string): seq<string>
    requires key in t ==> IsTexts(t[key])
  {
    if key in t then Texts(t[key]) else []
  }

  predicate IsHandle(t: Toml) {
    && t.Table?
    && "name" in t.entries && t.entries["name"].Str?
    && "status" in t.entries && (t.entries["status"] == Str("pending") || t.entries["status"] == Str("verified"))
    && ("claimed_at" in t.entries ==> t.entries["claimed_at"].Str?)
  }

  function HandleOf(t: Toml): Handle
    requires IsHandle(t)
  {
    Handle(t.entries["name"].text,
           if t.entries["status"] == Str("pending") then Pending else Verified,
           TextAt(t.entries, "claimed_at"))
  }

  predicate IsAddresses(t: Toml) {
    t.Table? && forall n :: n in t.entries ==> IsTexts(t.entries[n])
  }

  predicate IsProfile(p: Entries) {
    && (forall k :: k in TEXT_KEYS && k in p ==> p[k].Str?)
    && ("exec_direct_addresses" in p ==> IsAddresses(p["exec_direct_addresses"]))
    && ("root_seq" in p ==> p["root_seq"].Int? && p["root_seq"].n >= 0)
    && ("root_rotations" in p ==> IsTexts(p["root_rotations"]))
    && ("signer" in p ==> p["signer"] == Str("local"))
    && ("published_services" in p ==> IsTexts(p["published_services"]))
    && ("handle" in p ==> IsHandle(p["handle"]))
  }

  function ProfileOf(p: Entries): Profile
    requires IsProfile(p)
  {
    Profile(
      map k | k in TEXT_KEYS && k in p :: p[k].text,
      if "exec_direct_addresses" in p then AddressesOf(p["exec_direct_addresses"]) else map[],
      if "root_seq" in p then p["root_seq"].n else 0,
      TextsAt(p, "root_rotations"),
      TextsAt(p, "published_services"),
      if "handle" in p then Some(HandleOf(p["handle"])) else None,
      p - PROFILE_KEYS)
  }

  function AddressesOf(t: Toml): map<string, seq<string>>
    requires IsAddresses(t)
  {
    map n | n in t.entries :: Texts(t.entries[n])
  }

  predicate IsService(s: Entries) {
    && ("enabled" in s ==> s["enabled"].Bool?)
    && ("node_id" in s ==> s["node_id"].Str?)
    && ("relay" in s ==> s["relay"].Str?)
    && ("offline_banner" in s ==> s["offline_banner"].Bool?)
  }

  function ServiceOf(s: Entries): Service
    requires IsService(s)
  {
    Service(BoolAt(s, "enabled", true), TextAt(s, "node_id"), TextAt(s, "relay"),
            BoolAt(s, "offline_banner", true), s - SERVICE_KEYS)
  }

  predicate IsProfiles(t: Toml) {
    t.Table? && forall n :: n in t.entries ==> t.entries[n].Table? && IsProfile(t.entries[n].entries)
  }

  function ProfilesOf(t: Toml): map<string, Profile>
    requires IsProfiles(t)
  {
    map n | n in t.entries :: ProfileOf(t.entries[n].entries)
  }

  /** A format 1 table with fields of the right types. */
  predicate IsConfig(t: Entries) {
    && ("active_profile" in t ==> t["active_profile"].Str?)
    && ("aster_service" in t ==> t["aster_service"].Table? && IsService(t["aster_service"].entries))
    && ("profiles" in t ==> IsProfiles(t["profiles"]))
  }

  function ConfigOf(t: Entries): Config
    requires IsConfig(t)
  {
    Config(VERSION,
           if "active_profile" in t then t["active_profile"].text else "default",
           if "aster_service" in t then ServiceOf(t["aster_service"].entries) else ServiceOf(map[]),
           if "profiles" in t then ProfilesOf(t["profiles"]) else map[],
           t - TOP_KEYS)
  }

  // ----- writing

  function Optional(key: string, present: bool, value: Toml): (r: Entries)
    ensures forall k :: k in r <==> k == key && present
    ensures present ==> r[key] == value
  {
    if present then map[key := value] else map[]
  }

  function OptionalText(key: string, value: Option<string>): (r: Entries)
    ensures forall k :: k in r <==> k == key && value.Some?
    ensures value.Some? ==> r[key] == Str(value.value)
  {
    if value.Some? then map[key := Str(value.value)] else map[]
  }

  function HandleTable(h: Handle): Toml {
    Table(map["name" := Str(h.name), "status" := Str(if h.status.Pending? then "pending" else "verified")]
          + OptionalText("claimed_at", h.claimedAt))
  }

  function AddressTable(a: map<string, seq<string>>): Toml {
    Table(map n | n in a :: ArrayOf(a[n]))
  }

  function RootSettings(p: Profile): Entries
    requires p.rootSeq <= MAX_INTEGER
  {
    Optional("exec_direct_addresses", p.directAddresses != map[], AddressTable(p.directAddresses))
    + Optional("root_seq", p.rootSeq != 0, Int(p.rootSeq))
    + Optional("root_rotations", p.rootRotations != [], ArrayOf(p.rootRotations))
  }

  /** Only `signer` is always written. */
  function RoleSettings(p: Profile): Entries {
    map["signer" := Str("local")]
    + Optional("published_services", p.publishedServices != [], ArrayOf(p.publishedServices))
    + (if p.handle.Some? then map["handle" := HandleTable(p.handle.value)] else map[])
  }

  /** The settings of a profile that are not plain texts. */
  function Settings(p: Profile): Entries
    requires p.rootSeq <= MAX_INTEGER
  {
    RootSettings(p) + RoleSettings(p)
  }

  function ProfileTable(p: Profile): Entries
    requires p.rootSeq <= MAX_INTEGER
  {
    (map k | k in p.texts :: Str(p.texts[k])) + Settings(p) + p.extra
  }

  function ServiceTable(s: Service): Entries {
    map["enabled" := Bool(s.enabled)]
    + OptionalText("node_id", s.nodeId)
    + OptionalText("relay", s.relay)
    + map["offline_banner" := Bool(s.offlineBanner)]
    + s.extra
  }

  predicate Storable(c: Config) {
    forall n :: n in c.profiles ==> c.profiles[n].rootSeq <= MAX_INTEGER
  }

  function ProfilesTable(p: map<string, Profile>): Toml
    requires forall n :: n in p ==> p[n].rootSeq <= MAX_INTEGER
  {
    Table(map n | n in p :: Table(ProfileTable(p[n])))
  }

  /** What `save_locked` writes: the configuration stamped with the current format. */
  function ConfigTable(c: Config): Entries
    requires Storable(c)
  {
    map["version" := Int(VERSION),
        "active_profile" := Str(c.activeProfile),
        "aster_service" := Table(ServiceTable(c.service)),
        "profiles" := ProfilesTable(c.profiles)]
    + c.extra
  }

  // ----- names

  predicate IsNameChar(c: char) {
    'a' <= c <= 'z' || '0' <= c <= '9' || c == '-' || c == '_'
  }

  /** `validate_profile_name`. */
  predicate ValidName(name: string) {
    0 < |name| <= 64 && forall i :: 0 <= i < |name| ==> IsNameChar(name[i])
  }

  predicate ValidNames(c: Config) {
    ValidName(c.activeProfile) && forall n :: n in c.profiles ==> ValidName(n)
  }

  /** Every profile's published services sorted and unique. */
  function SortServices(c: Config): Config {
    c.(profiles := map n | n in c.profiles ::
         c.profiles[n].(publishedServices := SortedUnique(c.profiles[n].publishedServices)))
  }

  // ----- format 0

  /** `take_str` and its removal of the key. */
  function TakeText(t: Entries, key: string): Option<string> {
    if key in t && t[key].Str? && t[key].text != "" then Some(t[key].text) else None
  }

  /** Drop a key unless it holds a non-empty text. */
  function KeepText(t: Entries, key: string): Entries {
    (t - {key}) + OptionalText(key, TakeText(t, key))
  }

  function SplitCommas(s: string): (r: seq<string>)
    ensures r != []
  {
    if s == [] then [[]]
    else if s[0] == ',' then [[]] + SplitCommas(s[1..])
    else var rest := SplitCommas(s[1..]); [[s[0]] + rest[0]] + rest[1..]
  }

  /** Trim every piece and drop the empty ones. */
  function Pieces(parts: seq<string>): seq<string> {
    if parts == [] then []
    else if Trim(parts[0]) == "" then Pieces(parts[1..])
    else [Trim(parts[0])] + Pieces(parts[1..])
  }

  function MigrateServices(p: Entries): Entries {
    var list := TakeText(p, "published_services");
    if list.None? then p - {"published_services"}
    else p["published_services" := ArrayOf(Pieces(SplitCommas(list.value)))]
  }

  function MigrateHandle(p: Entries): Entries {
    var name, status := TakeText(p, "handle"), TakeText(p, "handle_status");
    var rest := p - {"handle", "handle_status", "handle_claimed_at"};
    if name.Some? && status.Some? && status.value != "unregistered" then
      rest["handle" := Table(map["name" := Str(name.value), "status" := Str(status.value)]
                             + OptionalText("claimed_at", TakeText(p, "handle_claimed_at")))]
    else rest
  }

  function MigrateProfile(p: Entries): Entries {
    MigrateHandle(MigrateServices(KeepText(KeepText(p, "root_pubkey"), "email")))
  }

  function MigrateService(t: Entries): Entries {
    if "aster_service" in t && t["aster_service"].Table? then
      t["aster_service" := Table(KeepText(KeepText(t["aster_service"].entries, "node_id"), "relay"))]
    else t
  }

  predicate AllTables(t: Entries) {
    forall n :: n in t ==> t[n].Table?
  }

  function MigrateProfiles(profiles: Entries): Entries
    requires AllTables(profiles)
  {
    map n | n in profiles :: Table(MigrateProfile(profiles[n].entries))
  }

  /** `v0_to_v1`: fails when a profile is not a table. */
  function Migrate(t: Entries): Option<Entries> {
    var t1 := MigrateService(t);
    if !("profiles" in t1 && t1["profiles"].Table?) then Some(t1)
    else if !AllTables(t1["profiles"].entries) then None
    else Some(t1["profiles" := Table(MigrateProfiles(t1["profiles"].entries))])
  }

  // ----- parsing

  /** The declared format; a file without one is format 0. */
  function Format(t: Entries): Option<int> {
    if "version" !in t then Some(0)
    else if t["version"].Int? then Some(t["version"].n)
    else None
  }

  /** The table brought to format 1. */
  function Upgrade(t: Entries): Option<Entries> {
    match Format(t)
    case None => None
    case Some(v) =>
      if v > VERSION || v < 0 then None
      else if v == VERSION then Some(t)
      else Migrate(t)
  }

  /** `parse`, after the text has been read into a table. */
  function Parse(t: Entries): Option<Config> {
    match Upgrade(t)
    case None => None
    case Some(u) =>
      if !IsConfig(u) then None
      else
        var c := ConfigOf(u);
        if ValidNames(c) then Some(SortServices(c)) else None
  }

  /** `toml::to_string` of a configuration: integers above the format's range are refused. */
  function Serialize(c: Config): Option<Entries> {
    if Storable(c) then Some(ConfigTable(c)) else None
  }
}
