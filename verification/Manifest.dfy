/**
 Contract manifests in the form the directory service hashes: fields in declaration order
 with defaults filled in, counts as integers, printed as `json.dumps(asdict(manifest))`.
 */
module Manifest {
  import opened Chars
  import opened Context
  import opened Decimal
  import opened Grammar
  import opened Json
  import opened Printer
  import opened RoundTrip
  import opened Scalars
  import opened Soundness
  import opened Utf8
  import opened Writer

  /** What the code calls outside: reading a float literal, `f.trunc() as i128`, and BLAKE3. */
  datatype Env = Env(fp: Rounding, trunc: Decimal -> int, hash: string -> string)

  const FIELDS: seq<Keyed<Json>> := [
    Keyed("v", Int(1)),
    Keyed("service", Str("")),
    Keyed("version", Int(1)),
    Keyed("contract_id", Str("")),
    Keyed("canonical_encoding", Str("fory-xlang/0.15")),
    Keyed("type_count", Int(0)),
    Keyed("type_hashes", Array([])),
    Keyed("method_count", Int(0)),
    Keyed("methods", Array([])),
    Keyed("serialization_modes", Array([])),
    Keyed("producer_language", Str("")),
    Keyed("scoped", Str("shared")),
    Keyed("description", Str("")),
    Keyed("tags", Array([])),
    Keyed("deprecated", Bool(false)),
    Keyed("semver", Null),
    Keyed("vcs_revision", Null),
    Keyed("vcs_tag", Null),
    Keyed("vcs_url", Null),
    Keyed("changelog", Null),
    Keyed("published_by", Str("")),
    Keyed("published_at_epoch_ms", Int(0))
  ]

  const MAX_METHODS: nat := 10_000
  const MAX_TYPE_HASHES: nat := 100_000
  const MAX_FIELDS_PER_METHOD: nat := 1_000

  datatype CanonicalManifest = CanonicalManifest(service: string, version: int, json: string, contractId: string)

  /** `PyJson::get` on a field list: the first field with the key. */
  function Get(fields: seq<Keyed<Json>>, key: string): Option<Json> {
    if fields == [] then None else if fields[0].key == key then Some(fields[0].value) else Get(fields[1..], key)
  }

  function Member(v: Json, key: string): Option<Json> {
    if v.Object? then Get(v.fields, key) else None
  }

  /** `s.trim().parse::<i128>()`. */
  function ParseI128(s: string): Option<int> {
    var t := Trim(s);
    var d := if Starts(t, '+') || Starts(t, '-') then t[1..] else t;
    if d == [] || !AllDigits(d) then None
    else
      var n: int := if Starts(t, '-') then -(NatVal(d) as int) else NatVal(d);
      if InI128(n) then Some(n) else None
  }

  function Clamp(n: int): int {
    if n < I128_MIN then I128_MIN else if n > I128_MAX then I128_MAX else n
  }

  /** Python's `int(x)` for the values a manifest plausibly holds. */
  function AsInt(env: Env, v: Json): (r: Option<int>)
    ensures r.Some? && (v.Int? ==> InI128(v.n)) ==> InI128(r.value)
  {
    match v
    case Int(n) => Some(n)
    case Bool(b) => Some(if b then 1 else 0)
    case Float(Finite(d)) => Some(Clamp(env.trunc(d)))
    case Str(s) => ParseI128(s)
    case _ => None
  }

  predicate IsCount(name: string) {
    name == "version" || name == "method_count" || name == "type_count"
  }

  /** One field's canonical value: from the file or the default, counts as integers. */
  function FieldValue(env: Env, fields: seq<Keyed<Json>>, f: Keyed<Json>): Option<Json> {
    var value := match Get(fields, f.key) case Some(v) => v case None => f.value;
    if IsCount(f.key) then
      match AsInt(env, value) case Some(n) => Some(Int(n)) case None => None
    else Some(value)
  }

  /** All fields of `table` in its order; none if one of them has no canonical value. */
  function Fill(env: Env, fields: seq<Keyed<Json>>, table: seq<Keyed<Json>>): Option<seq<Keyed<Json>>> {
    if table == [] then Some([])
    else match FieldValue(env, fields, table[0])
      case None => None
      case Some(v) =>
        match Fill(env, fields, table[1..])
        case None => None
        case Some(more) => Some([Keyed(table[0].key, v)] + more)
  }

  predicate KnownKeys(fields: seq<Keyed<Json>>) {
    forall i :: 0 <= i < |fields| ==> HasKey(FIELDS, fields[i].key)
  }

  predicate HasSchemaVersion(fields: seq<Keyed<Json>>) {
    Get(fields, "v").Some? && !Get(fields, "v").value.Null?
  }

  predicate MethodOk(m: Json) {
    match Member(m, "fields")
    case Some(Array(f)) => |f| <= MAX_FIELDS_PER_METHOD
    case _ => true
  }

  predicate WithinLimits(fields: seq<Keyed<Json>>) {
    && (match Get(fields, "methods")
        case Some(Array(ms)) => |ms| <= MAX_METHODS && forall i :: 0 <= i < |ms| ==> MethodOk(ms[i])
        case _ => true)
    && (match Get(fields, "type_hashes")
        case Some(Array(h)) => |h| <= MAX_TYPE_HASHES
        case _ => true)
  }

  /** The checks and the result once the fields are filled in. */
  function Finish(env: Env, out: seq<Keyed<Json>>): Option<CanonicalManifest> {
    if !WithinLimits(out) then None
    else
      match (Get(out, "service"), Get(out, "version"))
      case (Some(Str(service)), Some(Int(version))) =>
        var json := Dumps(Object(out), PYTHON_DEFAULT);
        Some(CanonicalManifest(service, version, json, env.hash(json)))
      case _ => None
  }

  function CanonicalValue(env: Env, v: Json): Option<CanonicalManifest> {
    if !v.Object? || !KnownKeys(v.fields) || !HasSchemaVersion(v.fields) then None
    else match Fill(env, v.fields, FIELDS)
      case None => None
      case Some(out) => Finish(env, out)
  }

  /** `canonical`: one manifest object, as text. */
  function Canonical(env: Env, t: string): Option<CanonicalManifest> {
    match Parse(env.fp, t)
    case None => None
    case Some(v) => CanonicalValue(env, v)
  }

  // ----- the field table

  /** A number that tells the field names apart: length, first and last character. */
  function Tag(key: string): int {
    if key == [] then 0 else |key| * 65536 + key[0] as int * 256 + key[|key| - 1] as int
  }

  const TAGS: seq<int> := [
    95862, 488293, 489070, 746340, 1205095, 685172, 750707, 814452, 486771, 1274739, 1142885,
    422756, 746606, 291955, 681060, 422770, 816750, 489063, 489068, 615271, 815225, 1405043
  ]

  lemma FieldTag(i: nat)
    requires i < |FIELDS|
    ensures |FIELDS| == |TAGS| && Tag(FIELDS[i].key) == TAGS[i]
  {
  }

  lemma TagsDistinct(i: nat, j: nat)
    requires i < j < |TAGS|
    ensures TAGS[i] != TAGS[j]
  {
  }

  lemma FieldsDistinct()
    ensures DistinctKeys(FIELDS)
  {
    forall i, j | 0 <= i < j < |FIELDS| ensures FIELDS[i].key != FIELDS[j].key {
      FieldTag(i);
      FieldTag(j);
      TagsDistinct(i, j);
    }
  }

  // ----- lookups

  lemma {:induction false} GetAt(fields: seq<Keyed<Json>>, i: nat)
    requires DistinctKeys(fields) && i < |fields|
    ensures Get(fields, fields[i].key) == Some(fields[i].value)
  {
    if i > 0 {
      assert fields[0].key != fields[i].key;
      GetAt(fields[1..], i - 1);
    }
  }

  lemma {:induction false} GetNone(fields: seq<Keyed<Json>>, key: string)
    ensures Get(fields, key).None? <==> !HasKey(fields, key)
  {
    if fields != [] {
      GetNone(fields[1..], key);
      if fields[0].key != key {
        assert HasKey(fields, key) ==> HasKey(fields[1..], key) by {
          if i :| 0 <= i < |fields| && fields[i].key == key {
            assert fields[1..][i - 1].key == key;
          }
        }
        assert HasKey(fields[1..], key) ==> HasKey(fields, key) by {
          if i :| 0 <= i < |fields[1..]| && fields[1..][i].key == key {
            assert fields[i + 1].key == key;
          }
        }
      }
    }
  }

  /** Looking a key up does not depend on the order of the fields. */
  lemma GetPermuted(a: seq<Keyed<Json>>, b: seq<Keyed<Json>>, key: string)
    requires multiset(a) == multiset(b) && DistinctKeys(a) && DistinctKeys(b)
    ensures Get(a, key) == Get(b, key)
  {
    GetNone(a, key);
    GetNone(b, key);
    if i :| 0 <= i < |a| && a[i].key == key {
      SameElements(a, b, a[i]);
      var j :| 0 <= j < |b| && b[j] == a[i];
      GetAt(a, i);
      GetAt(b, j);
    } else if j :| 0 <= j < |b| && b[j].key == key {
      SameElements(b, a, b[j]);
      assert HasKey(a, key);
    }
  }

  lemma {:induction false} FillAt(env: Env, fields: seq<Keyed<Json>>, table: seq<Keyed<Json>>)
    requires Fill(env, fields, table).Some?
    ensures
      var out := Fill(env, fields, table).value;
      && |out| == |table|
      && forall i :: 0 <= i < |table| ==>
           out[i].key == table[i].key && FieldValue(env, fields, table[i]) == Some(out[i].value)
  {
    hide FieldValue;
    if table != [] {
      FillAt(env, fields, table[1..]);
    }
  }

  /** A field list in the table's order whose values are canonical is left as it is. */
  lemma {:induction false} FillFixed(env: Env, fields: seq<Keyed<Json>>, table: seq<Keyed<Json>>, out: seq<Keyed<Json>>)
    requires |out| == |table| && forall i :: 0 <= i < |table| ==>
      out[i].key == table[i].key && FieldValue(env, fields, table[i]) == Some(out[i].value)
    ensures Fill(env, fields, table) == Some(out)
  {
    hide FieldValue;
    if table != [] {
      FillFixed(env, fields, table[1..], out[1..]);
      assert out == [Keyed(table[0].key, out[0].value)] + out[1..];
    }
  }

  lemma {:induction false} FillSame(env: Env, a: seq<Keyed<Json>>, b: seq<Keyed<Json>>, table: seq<Keyed<Json>>)
    requires forall i :: 0 <= i < |table| ==> Get(a, table[i].key) == Get(b, table[i].key)
    ensures Fill(env, a, table) == Fill(env, b, table)
  {
    hide Get;
    if table != [] {
      FillSame(env, a, b, table[1..]);
    }
  }

  lemma CountFixed(env: Env, fields: seq<Keyed<Json>>, f: Keyed<Json>, v: Json, again: seq<Keyed<Json>>)
    requires FieldValue(env, fields, f) == Some(v) && Get(again, f.key) == Some(v)
    ensures FieldValue(env, again, f) == Some(v)
  {
    hide Get;
  }

  // ----- canonicalising twice

  lemma FieldGood(env: Env, fields: seq<Keyed<Json>>, f: Keyed<Json>, budget: nat)
    requires forall i :: 0 <= i < |fields| ==> Good(env.fp, fields[i].value, budget)
    requires Good(env.fp, f.value, budget) && FieldValue(env, fields, f).Some?
    ensures Good(env.fp, FieldValue(env, fields, f).value, budget)
  {
    GetGood(env.fp, fields, f.key, budget);
  }

  lemma {:induction false} GetGood(fp: Rounding, fields: seq<Keyed<Json>>, key: string, budget: nat)
    requires forall i :: 0 <= i < |fields| ==> Good(fp, fields[i].value, budget)
    ensures Get(fields, key).Some? ==> Good(fp, Get(fields, key).value, budget)
  {
    hide Good;
    if fields != [] && fields[0].key != key {
      GetGood(fp, fields[1..], key, budget);
    }
  }

  lemma DefaultsGood(fp: Rounding, budget: nat, i: nat)
    requires budget > 0 && i < |FIELDS|
    ensures Good(fp, FIELDS[i].value, budget)
  {
    hide DistinctKeys;
    var v := FIELDS[i].value;
    assert v in {Int(0), Int(1), Str(""), Str("fory-xlang/0.15"), Str("shared"), Array([]), Bool(false), Null};
  }

  /** A filled-in manifest is a value its own text is read back to. */
  lemma FilledGood(env: Env, fields: seq<Keyed<Json>>, out: seq<Keyed<Json>>)
    requires Good(env.fp, Object(fields), MAX_DEPTH) && Fill(env, fields, FIELDS) == Some(out)
    ensures DistinctKeys(out) && Good(env.fp, Object(out), MAX_DEPTH)
  {
    hide FieldValue, Fill;
    FillAt(env, fields, FIELDS);
    FieldsDistinct();
    ObjectParts(env.fp, fields);
    forall i | 0 <= i < |out| ensures Good(env.fp, out[i].value, MAX_DEPTH - 1) {
      DefaultsGood(env.fp, MAX_DEPTH - 1, i);
      FieldGood(env, fields, FIELDS[i], MAX_DEPTH - 1);
    }
    ObjectGood(env.fp, out, MAX_DEPTH - 1);
  }

  lemma ObjectParts(fp: Rounding, fields: seq<Keyed<Json>>)
    requires Good(fp, Object(fields), MAX_DEPTH)
    ensures forall i :: 0 <= i < |fields| ==> Good(fp, fields[i].value, MAX_DEPTH - 1)
  {
  }

  lemma FillTwice(env: Env, fields: seq<Keyed<Json>>, out: seq<Keyed<Json>>)
    requires Fill(env, fields, FIELDS) == Some(out) && HasSchemaVersion(fields)
    ensures KnownKeys(out) && HasSchemaVersion(out) && Fill(env, out, FIELDS) == Some(out)
  {
    hide FieldValue, Fill, Get, DistinctKeys;
    FillAt(env, fields, FIELDS);
    FieldsDistinct();
    SameKeysDistinct(FIELDS, out);
    forall i | 0 <= i < |FIELDS| ensures FieldValue(env, out, FIELDS[i]) == Some(out[i].value) {
      GetAt(out, i);
      CountFixed(env, fields, FIELDS[i], out[i].value, out);
    }
    FillFixed(env, out, FIELDS, out);
    forall i | 0 <= i < |out| ensures HasKey(FIELDS, out[i].key) {
    }
    GetAt(out, 0);
    SchemaVersionKept(env, fields, out[0].value);
  }

  lemma SchemaVersionKept(env: Env, fields: seq<Keyed<Json>>, v: Json)
    requires HasSchemaVersion(fields) && FieldValue(env, fields, FIELDS[0]) == Some(v)
    ensures Get(fields, "v") == Some(v) && FIELDS[0].key == "v"
  {
    assert |"v"| == 1 && |"version"| == 7 && |"method_count"| == 12 && |"type_count"| == 10;
  }

  lemma SameKeysDistinct<T, U>(a: seq<Keyed<T>>, b: seq<Keyed<U>>)
    requires DistinctKeys(a) && |a| == |b| && forall i :: 0 <= i < |a| ==> b[i].key == a[i].key
    ensures DistinctKeys(b)
  {
  }

  /** Canonicalisation is idempotent: a manifest's canonical text canonicalises to itself. */
  lemma CanonicalIdempotent(env: Env, t: string)
    requires Proper(env.fp) && Canonical(env, t).Some?
    ensures Canonical(env, Canonical(env, t).value.json) == Canonical(env, t)
  {
    hide Parse, Fill, KnownKeys, HasSchemaVersion, Finish, Dump;
    var m := Canonical(env, t).value;
    var v := Parse(env.fp, t).value;
    ParseSound(env.fp, t);
    var out := Fill(env, v.fields, FIELDS).value;
    FilledGood(env, v.fields, out);
    FinishText(env, out);
    ParseDumpsExact(env.fp, Object(out), PYTHON_DEFAULT);
    FillTwice(env, v.fields, out);
  }

  lemma FinishText(env: Env, out: seq<Keyed<Json>>)
    requires Finish(env, out).Some?
    ensures Finish(env, out).value.json == Dumps(Object(out), PYTHON_DEFAULT)
  {
    hide Get, WithinLimits, Dump;
  }

  /** The contract ID depends on the fields, not on the order the file lists them in. */
  lemma CanonicalIgnoresKeyOrder(env: Env, t: string, u: string)
    requires Proper(env.fp)
    requires Parse(env.fp, t).Some? && Parse(env.fp, u).Some?
    requires Parse(env.fp, t).value.Object? && Parse(env.fp, u).value.Object?
    requires multiset(Parse(env.fp, t).value.fields) == multiset(Parse(env.fp, u).value.fields)
    ensures Canonical(env, t) == Canonical(env, u)
  {
    hide Parse, Fill, KnownKeys, Finish, Get;
    var a, b := Parse(env.fp, t).value.fields, Parse(env.fp, u).value.fields;
    ParseSound(env.fp, t);
    ParseSound(env.fp, u);
    forall k: string ensures Get(a, k) == Get(b, k) {
      GetPermuted(a, b, k);
    }
    FillSame(env, a, b, FIELDS);
    KnownKeysPermuted(a, b);
    KnownKeysPermuted(b, a);
  }

  lemma KnownKeysPermuted(a: seq<Keyed<Json>>, b: seq<Keyed<Json>>)
    requires multiset(a) == multiset(b)
    ensures KnownKeys(a) ==> KnownKeys(b)
  {
    if KnownKeys(a) {
      forall j | 0 <= j < |b| ensures HasKey(FIELDS, b[j].key) {
        SameElements(b, a, b[j]);
      }
    }
  }

  // ----- files holding a list of manifests

  /** `items.iter().map(..).collect()`: all results, or none if one of them failed. */
  function Collect(results: seq<Option<CanonicalManifest>>): Option<seq<CanonicalManifest>> {
    if results == [] then Some([])
    else match (results[0], Collect(results[1..]))
      case (Some(m), Some(more)) => Some([m] + more)
      case _ => None
  }

  function CanonicalItems(env: Env, items: seq<Json>): (r: seq<Option<CanonicalManifest>>)
    ensures |r| == |items|
    ensures forall i :: 0 <= i < |items| ==> r[i] == Canonical(env, Dumps(items[i], PYTHON_DEFAULT))
  {
    seq(|items|, i requires 0 <= i < |items| => Canonical(env, Dumps(items[i], PYTHON_DEFAULT)))
  }

  /** `canonical_all`: one manifest object or a list of them. */
  function CanonicalAll(env: Env, t: string): Option<seq<CanonicalManifest>> {
    match Parse(env.fp, t)
    case None => None
    case Some(Array(items)) => Collect(CanonicalItems(env, items))
    case Some(_) => Collect([Canonical(env, t)])
  }

  /** A text that is one value with room for one more level of nesting around it. */
  predicate Nestable(fp: Rounding, t: string) {
    match ParseValue(fp, SkipWs(t), MAX_DEPTH - 1)
    case Ok(_, rest) => SkipWs(rest) == []
    case Err => false
  }

  function ElementValue(fp: Rounding, t: string): Json
    requires Nestable(fp, t)
  {
    ParseValue(fp, SkipWs(t), MAX_DEPTH - 1).value
  }

  function Commas(ts: seq<string>): string {
    if ts == [] then "" else if |ts| == 1 then ts[0] else ts[0] + "," + Commas(ts[1..])
  }

  function ArrayText(ts: seq<string>): string {
    "[" + Commas(ts) + "]"
  }

  function ElementValues(fp: Rounding, ts: seq<string>): (r: seq<Json>)
    requires forall i :: 0 <= i < |ts| ==> Nestable(fp, ts[i])
    ensures |r| == |ts| && forall i :: 0 <= i < |ts| ==> r[i] == ElementValue(fp, ts[i])
  {
    seq(|ts|, i requires 0 <= i < |ts| => ElementValue(fp, ts[i]))
  }

  lemma {:induction false} SkipWsAll(r: string, y: string)
    requires SkipWs(r) == []
    ensures SkipWs(r + y) == SkipWs(y)
    ensures Boundary(y) ==> Boundary(r + y)
  {
    if r == [] {
      assert r + y == y;
    } else {
      SkipWsAll(r[1..], y);
      assert (r + y)[1..] == r[1..] + y;
    }
  }

  /** An element followed by a delimiter is read as it is read alone. */
  lemma ElementInContext(fp: Rounding, t: string, y: string)
    requires Nestable(fp, t) && (Starts(y, ',') || Starts(y, ']'))
    ensures
      var r := ParseValue(fp, SkipWs(t + y), MAX_DEPTH - 1);
      r.Ok? && r.value == ElementValue(fp, t) && SkipWs(r.rest) == y
  {
    hide ParseValue;
    ValueNotEmpty(fp, MAX_DEPTH - 1);
    SkipWsExtend(t, y);
    var r := ParseValue(fp, SkipWs(t), MAX_DEPTH - 1).rest;
    SkipWsAll(r, y);
    ValueExtend(fp, SkipWs(t), y, MAX_DEPTH - 1, MAX_DEPTH - 1);
  }

  lemma {:induction false} ParseElements(fp: Rounding, ts: seq<string>, acc: seq<Json>)
    requires ts != [] && forall i :: 0 <= i < |ts| ==> Nestable(fp, ts[i])
    ensures ParseItems(fp, Commas(ts) + "]", MAX_DEPTH - 1, acc) == Ok(Array(acc + ElementValues(fp, ts)), [])
  {
    hide ParseValue, Nestable, ElementValue, SkipWs;
    var v := ElementValue(fp, ts[0]);
    if |ts| == 1 {
      ElementInContext(fp, ts[0], "]");
      assert acc + ElementValues(fp, ts) == acc + [v];
    } else {
      var x := Commas(ts[1..]) + "]";
      assert Commas(ts) + "]" == ts[0] + ("," + x);
      ElementInContext(fp, ts[0], "," + x);
      assert ("," + x)[1..] == x;
      ParseElements(fp, ts[1..], acc + [v]);
      assert acc + [v] + ElementValues(fp, ts[1..]) == acc + ElementValues(fp, ts);
    }
  }

  lemma ParseArrayText(fp: Rounding, ts: seq<string>)
    requires forall i :: 0 <= i < |ts| ==> Nestable(fp, ts[i])
    ensures Parse(fp, ArrayText(ts)) == Some(Array(ElementValues(fp, ts)))
  {
    hide ParseItems, ParseFields, Nestable, ElementValue;
    var t := ArrayText(ts);
    assert t[1..] == Commas(ts) + "]";
    if ts == [] {
      assert t[1..] == "]";
    } else {
      ParseElements(fp, ts, []);
      FirstElement(fp, ts);
      SkipWsIdempotent(t[1..]);
      ItemsSkipWs(fp, SkipWs(t[1..]), t[1..], MAX_DEPTH - 1, []);
      assert [] + ElementValues(fp, ts) == ElementValues(fp, ts);
    }
  }

  /** The text after `[` goes on with the first element, not with `]`. */
  lemma FirstElement(fp: Rounding, ts: seq<string>)
    requires ts != [] && Nestable(fp, ts[0])
    ensures !Starts(SkipWs(Commas(ts) + "]"), ']')
  {
    hide ParseNumber, ParseItems, ParseFields, ParseString;
    var y := if |ts| == 1 then "]" else "," + Commas(ts[1..]) + "]";
    assert Commas(ts) + "]" == ts[0] + y;
    ValueNotEmpty(fp, MAX_DEPTH - 1);
    SkipWsExtend(ts[0], y);
    NotClosing(fp, SkipWs(ts[0]));
  }

  lemma NotClosing(fp: Rounding, t: string)
    requires ParseValue(fp, t, MAX_DEPTH - 1).Ok?
    ensures !Starts(t, ']')
  {
    if Starts(t, ']') {
      LiteralStart(t, "null");
      LiteralStart(t, "true");
      LiteralStart(t, "false");
      LiteralStart(t, "NaN");
      LiteralStart(t, "Infinity");
    }
  }

  lemma NestableParses(fp: Rounding, t: string)
    requires Nestable(fp, t)
    ensures Parse(fp, t) == Some(ElementValue(fp, t))
  {
    hide ParseValue;
    var r := ParseValue(fp, SkipWs(t), MAX_DEPTH - 1);
    assert r.rest + [] == r.rest && SkipWs(t) + [] == SkipWs(t);
    SkipWsAll(r.rest, []);
    ValueExtend(fp, SkipWs(t), [], MAX_DEPTH - 1, MAX_DEPTH);
  }

  /** Canonicalising a list of manifests is canonicalising each element's own text. */
  lemma CanonicalAllElementwise(env: Env, ts: seq<string>)
    requires Proper(env.fp) && forall i :: 0 <= i < |ts| ==> Nestable(env.fp, ts[i])
    ensures CanonicalAll(env, ArrayText(ts))
         == Collect(seq(|ts|, i requires 0 <= i < |ts| => Canonical(env, ts[i])))
  {
    hide Parse, CanonicalValue, Nestable, ElementValue, Collect;
    var items := ElementValues(env.fp, ts);
    ParseArrayText(env.fp, ts);
    forall i | 0 <= i < |ts| ensures Canonical(env, Dumps(items[i], PYTHON_DEFAULT)) == Canonical(env, ts[i]) {
      NestableParses(env.fp, ts[i]);
      ReparseExact(env.fp, ts[i], PYTHON_DEFAULT);
    }
    assert CanonicalItems(env, items) == seq(|ts|, i requires 0 <= i < |ts| => Canonical(env, ts[i]));
  }

  // ----- as the program runs it

  method Lookup(fields: seq<Keyed<Json>>, key: string) returns (r: Option<Json>)
    ensures r == Get(fields, key)
  {
    var i := 0;
    while i < |fields|
      invariant i <= |fields| && Get(fields[i..], key) == Get(fields, key)
    {
      assert fields[i..][0] == fields[i] && fields[i..][1..] == fields[i + 1..];
      if fields[i].key == key {
        return Some(fields[i].value);
      }
      i := i + 1;
    }
    r := None;
  }

  /** The checks on a filled-in manifest. */
  method CheckLimits(out: seq<Keyed<Json>>) returns (ok: bool)
    ensures ok == WithinLimits(out)
  {
    hide Get;
    var methods := Lookup(out, "methods");
    if methods.Some? && methods.value.Array? {
      var ms := methods.value.items;
      if |ms| > MAX_METHODS {
        return false;
      }
      for k := 0 to |ms|
        invariant forall i :: 0 <= i < k ==> MethodOk(ms[i])
      {
        if ms[k].Object? {
          var f := Lookup(ms[k].fields, "fields");
          if f.Some? && f.value.Array? && |f.value.items| > MAX_FIELDS_PER_METHOD {
            return false;
          }
        }
      }
    }
    var hashes := Lookup(out, "type_hashes");
    ok := !(hashes.Some? && hashes.value.Array? && |hashes.value.items| > MAX_TYPE_HASHES);
  }

  /** `canonical`, after parsing: unknown keys refused, fields filled in one by one, limits
      checked, text printed. */
  method CanonicalFields(env: Env, fields: seq<Keyed<Json>>) returns (r: Option<CanonicalManifest>)
    ensures r == CanonicalValue(env, Object(fields))
  {
    hide Get, WithinLimits, Dump, HasKey;
    for k := 0 to |fields|
      invariant forall i :: 0 <= i < k ==> HasKey(FIELDS, fields[i].key)
    {
      var known := Lookup(FIELDS, fields[k].key);
      GetNone(FIELDS, fields[k].key);
      if known.None? {
        assert !KnownKeys(fields);
        return None;
      }
    }
    var v := Lookup(fields, "v");
    if v.None? || v.value.Null? {
      return None;
    }
    var filled := FillLoop(env, fields, FIELDS);
    if filled.None? {
      return None;
    }
    var ok := CheckLimits(filled.value);
    if !ok {
      return None;
    }
    var json := WriteAll(Object(filled.value), PYTHON_DEFAULT);
    var service := Lookup(filled.value, "service");
    var version := Lookup(filled.value, "version");
    if service.None? || !service.value.Str? || version.None? || !version.value.Int? {
      return None;
    }
    r := Some(CanonicalManifest(service.value.s, version.value.n, json, env.hash(json)));
  }

  method FillLoop(env: Env, fields: seq<Keyed<Json>>, table: seq<Keyed<Json>>) returns (r: Option<seq<Keyed<Json>>>)
    ensures r == Fill(env, fields, table)
  {
    hide Get, AsInt, Fill;
    var out := [];
    var k := 0;
    assert table[0..] == table;
    PrependNothing(Fill(env, fields, table));
    while k < |table|
      invariant k <= |table|
      invariant Fill(env, fields, table) == Prepend(out, Fill(env, fields, table[k..]))
    {
      FillStep(env, fields, table, k, out);
      var found := Lookup(fields, table[k].key);
      var value := if found.Some? then found.value else table[k].value;
      if IsCount(table[k].key) {
        var n := AsInt(env, value);
        if n.None? {
          return None;
        }
        value := Int(n.value);
      }
      out := out + [Keyed(table[k].key, value)];
      k := k + 1;
    }
    FillNothing(env, fields);
    assert table[k..] == [] && out + [] == out;
    r := Some(out);
  }

  function Prepend<T>(out: seq<T>, more: Option<seq<T>>): Option<seq<T>> {
    match more case None => None case Some(m) => Some(out + m)
  }

  lemma PrependNothing<T>(m: Option<seq<T>>)
    ensures Prepend([], m) == m
  {
    if m.Some? {
      assert [] + m.value == m.value;
    }
  }

  lemma FillNothing(env: Env, fields: seq<Keyed<Json>>)
    ensures Fill(env, fields, []) == Some([])
  {
  }

  lemma FillStep(env: Env, fields: seq<Keyed<Json>>, table: seq<Keyed<Json>>, k: nat, out: seq<Keyed<Json>>)
    requires k < |table|
    ensures Prepend(out, Fill(env, fields, table[k..])) ==
      match FieldValue(env, fields, table[k])
      case None => None
      case Some(v) => Prepend(out + [Keyed(table[k].key, v)], Fill(env, fields, table[k + 1..]))
  {
    hide FieldValue;
    assert table[k..][0] == table[k] && table[k..][1..] == table[k + 1..];
    var more := Fill(env, fields, table[k + 1..]);
    var v := FieldValue(env, fields, table[k]);
    if v.Some? && more.Some? {
      assert out + ([Keyed(table[k].key, v.value)] + more.value) == out + [Keyed(table[k].key, v.value)] + more.value;
    }
  }
}
