/**
 What a canonical manifest holds, and which files have one, in terms of the file's own fields.
 */
module ManifestLaws {
  import Canonical
  import opened Chars
  import opened Decimal
  import opened Documents
  import opened Grammar
  import opened Json
  import opened Manifest
  import opened Printer
  import opened RoundTrip
  import opened Soundness
  import opened Syntax
  import opened Utf8

  // ----- whole numbers

  /** Digits with an optional sign, white space around them, and a value that fits 128 bits. */
  ghost predicate SpelledBy(s: string, a: string, sign: string, digits: string, b: string, n: int) {
    && s == a + (sign + digits) + b && Blank(a) && Blank(b)
    && (sign == "" || sign == "+" || sign == "-") && digits != [] && AllDigits(digits)
    && n == (if sign == "-" then -(Worth(digits) as int) else Worth(digits))
    && -0x8000_0000_0000_0000_0000_0000_0000_0000 <= n < 0x8000_0000_0000_0000_0000_0000_0000_0000
  }

  ghost predicate Spells(s: string, n: int) {
    exists a, sign, digits, b :: SpelledBy(s, a, sign, digits, b, n)
  }

  /** The integer a value stands for: itself, a truth value, a float cut to its whole part and to
      the 128-bit range, or a text that spells it. */
  ghost predicate Whole(env: Env, v: Json, n: int) {
    match v
    case Int(m) => n == m
    case Bool(b) => n == if b then 1 else 0
    case Float(Finite(d)) =>
      var whole := env.trunc(d);
      if whole < -0x8000_0000_0000_0000_0000_0000_0000_0000 then n == -0x8000_0000_0000_0000_0000_0000_0000_0000
      else if whole >= 0x8000_0000_0000_0000_0000_0000_0000_0000 then n == 0x7FFF_FFFF_FFFF_FFFF_FFFF_FFFF_FFFF_FFFF
      else n == whole
    case Str(s) => Spells(s, n)
    case _ => false
  }

  lemma SignedSpelling(t: string) returns (sign: string, digits: string)
    requires var d := if Starts(t, '+') || Starts(t, '-') then t[1..] else t; d != [] && AllDigits(d)
    ensures t == sign + digits && digits != [] && AllDigits(digits) && (sign == "" || sign == "+" || sign == "-")
    ensures digits == if Starts(t, '+') || Starts(t, '-') then t[1..] else t
    ensures sign == "-" <==> Starts(t, '-')
  {
    if Starts(t, '+') || Starts(t, '-') {
      sign, digits := t[..1], t[1..];
      assert sign == [t[0]];
    } else {
      sign, digits := "", t;
    }
  }

  lemma SpelledRead(s: string, a: string, sign: string, digits: string, b: string, n: int)
    requires SpelledBy(s, a, sign, digits, b, n)
    ensures ParseI128(s) == Some(n)
  {
    hide NatVal, Worth;
    var t := sign + digits;
    assert IsDigit(digits[0]) && IsDigit(digits[|digits| - 1]);
    assert Tight(t);
    TrimExactly(a, t, b);
    WorthIsNatVal(digits);
    if sign == "" {
      assert t == digits;
    } else {
      assert t[0] == sign[0] && t[1..] == digits;
    }
  }

  lemma ReadIsSpelled(s: string)
    requires ParseI128(s).Some?
    ensures Spells(s, ParseI128(s).value)
  {
    hide NatVal, Worth, Trim, IsWhitespace;
    var a, b := TrimParts(s);
    var sign, digits := SignedSpelling(Trim(s));
    WorthIsNatVal(digits);
    assert SpelledBy(s, a, sign, digits, b, ParseI128(s).value);
  }

  /** `as_int` finds the integer exactly when there is one. */
  lemma AsIntExactly(env: Env, v: Json, n: int)
    ensures AsInt(env, v) == Some(n) <==> Whole(env, v, n)
  {
    hide ParseI128;
    if v.Str? {
      if Spells(v.s, n) {
        var a, sign, digits, b :| SpelledBy(v.s, a, sign, digits, b, n);
        SpelledRead(v.s, a, sign, digits, b, n);
      }
      if ParseI128(v.s).Some? {
        ReadIsSpelled(v.s);
      }
    }
  }

  // ----- the table

  /** The fields in order, with what each is when the file does not name it. */
  lemma FieldTable()
    ensures |FIELDS| == 22
    ensures FIELDS == [
      Keyed("v", Int(1)), Keyed("service", Str("")), Keyed("version", Int(1)), Keyed("contract_id", Str("")),
      Keyed("canonical_encoding", Str("fory-xlang/0.15")), Keyed("type_count", Int(0)), Keyed("type_hashes", Array([])),
      Keyed("method_count", Int(0)), Keyed("methods", Array([])), Keyed("serialization_modes", Array([])),
      Keyed("producer_language", Str("")), Keyed("scoped", Str("shared")), Keyed("description", Str("")),
      Keyed("tags", Array([])), Keyed("deprecated", Bool(false)), Keyed("semver", Null), Keyed("vcs_revision", Null),
      Keyed("vcs_tag", Null), Keyed("vcs_url", Null), Keyed("changelog", Null), Keyed("published_by", Str("")),
      Keyed("published_at_epoch_ms", Int(0))]
  {
  }

  // ----- what the text holds

  /** The fields that count something, or number the contract. */
  predicate CountName(key: string) {
    key == "version" || key == "method_count" || key == "type_count"
  }

  /** What becomes of a field's value: the three counts are made integers, the others stay. */
  ghost predicate Kept(env: Env, key: string, from: Json, v: Json) {
    if CountName(key) then v.Int? && Whole(env, from, v.n)
    else v == from
  }

  /** A canonical field comes from the file's field of that name or, if it has none, from the
      table. */
  ghost predicate Taken(env: Env, fs: seq<Keyed<Json>>, f: Keyed<Json>, v: Json) {
    && (forall j :: 0 <= j < |fs| && fs[j].key == f.key ==> Kept(env, f.key, fs[j].value, v))
    && (!HasKey(fs, f.key) ==> Kept(env, f.key, f.value, v))
  }

  lemma ValueTaken(env: Env, fs: seq<Keyed<Json>>, f: Keyed<Json>, v: Json)
    requires DistinctKeys(fs)
    ensures FieldValue(env, fs, f) == Some(v) <==> Taken(env, fs, f, v)
  {
    hide Get, AsInt, Whole;
    GetNone(fs, f.key);
    var from := if Get(fs, f.key).Some? then Get(fs, f.key).value else f.value;
    if v.Int? {
      AsIntExactly(env, from, v.n);
    }
    forall j | 0 <= j < |fs| && fs[j].key == f.key ensures fs[j].value == from {
      GetAt(fs, j);
    }
    if HasKey(fs, f.key) {
      var j :| 0 <= j < |fs| && fs[j].key == f.key;
    }
  }

  /** The canonical text is an object of the table's keys in order whose values are taken from
      the file; the service, the version and the contract identifier are of that object. */
  lemma ContentsExactly(env: Env, t: string, fs: seq<Keyed<Json>>) returns (out: seq<Keyed<Json>>)
    requires Proper(env.fp) && Parse(env.fp, t) == Some(Object(fs)) && Manifest.Canonical(env, t).Some?
    ensures
      var m := Manifest.Canonical(env, t).value;
      && Parse(env.fp, m.json) == Some(Object(out)) && m.contractId == env.hash(m.json)
      && |out| == 22 && out[1] == Keyed("service", Str(m.service)) && out[2] == Keyed("version", Int(m.version))
    ensures |FIELDS| == 22
    ensures forall i :: 0 <= i < 22 ==> out[i].key == FIELDS[i].key && Taken(env, fs, FIELDS[i], out[i].value)
  {
    hide Parse, Fill, KnownKeys, HasSchemaVersion, Finish, Dump, Taken;
    ParseSound(env.fp, t);
    out := Fill(env, fs, FIELDS).value;
    FilledGood(env, fs, out);
    FilledInOrder(env, fs, out);
    FinishParts(env, out);
    ParseDumpsExact(env.fp, Object(out), PYTHON_DEFAULT);
    Places(out);
    Names();
  }

  lemma FinishParts(env: Env, out: seq<Keyed<Json>>)
    requires Finish(env, out).Some?
    ensures
      var m := Finish(env, out).value;
      && m.json == Dumps(Object(out), PYTHON_DEFAULT) && m.contractId == env.hash(m.json)
      && Get(out, "service") == Some(Str(m.service)) && Get(out, "version") == Some(Int(m.version))
  {
    hide Get, WithinLimits, Dump;
  }

  // ----- which files are accepted

  /** At most 1000 fields. */
  predicate MethodFits(m: Json) {
    m.Object? ==>
      forall k :: 0 <= k < |m.fields| && m.fields[k].key == "fields" && m.fields[k].value.Array? ==>
        |m.fields[k].value.items| <= 1_000
  }

  predicate MethodsFit(v: Json) {
    v.Array? ==> |v.items| <= 10_000 && forall i :: 0 <= i < |v.items| ==> MethodFits(v.items[i])
  }

  /** What a file's field must be: counts whole, the service a string, lists not too long. */
  ghost predicate Fitting(env: Env, key: string, v: Json) {
    && (CountName(key) ==> exists n :: Whole(env, v, n))
    && (key == "service" ==> v.Str?)
    && (key == "methods" ==> MethodsFit(v))
    && (key == "type_hashes" ==> v.Array? ==> |v.items| <= 100_000)
  }

  /** No unknown field, a schema version that is not null, and every field fitting. */
  ghost predicate Acceptable(env: Env, fs: seq<Keyed<Json>>) {
    && (forall j :: 0 <= j < |fs| ==> HasKey(FIELDS, fs[j].key) && Fitting(env, fs[j].key, fs[j].value))
    && exists j :: 0 <= j < |fs| && fs[j].key == "v" && !fs[j].value.Null?
  }

  lemma {:induction false} FillSome(env: Env, fs: seq<Keyed<Json>>, table: seq<Keyed<Json>>)
    ensures Fill(env, fs, table).Some? <==> forall i :: 0 <= i < |table| ==> FieldValue(env, fs, table[i]).Some?
  {
    hide FieldValue;
    if table != [] {
      FillSome(env, fs, table[1..]);
      assert forall i :: 1 <= i < |table| ==> table[i] == table[1..][i - 1];
    }
  }

  lemma VersionGiven(fs: seq<Keyed<Json>>)
    requires DistinctKeys(fs)
    ensures HasSchemaVersion(fs) <==> exists j :: 0 <= j < |fs| && fs[j].key == "v" && !fs[j].value.Null?
  {
    hide Get;
    GetNone(fs, "v");
    forall j | 0 <= j < |fs| && fs[j].key == "v" ensures Get(fs, "v") == Some(fs[j].value) {
      GetAt(fs, j);
    }
  }

  lemma MethodOkFits(m: Json)
    requires Distinct(m)
    ensures MethodOk(m) <==> MethodFits(m)
  {
    hide Get;
    if m.Object? {
      GetNone(m.fields, "fields");
      forall k | 0 <= k < |m.fields| && m.fields[k].key == "fields"
        ensures Get(m.fields, "fields") == Some(m.fields[k].value)
      {
        GetAt(m.fields, k);
      }
    }
  }

  lemma Names()
    ensures |FIELDS| == 22 && FIELDS[1].key == "service" && FIELDS[2].key == "version"
    ensures FIELDS[6].key == "type_hashes" && FIELDS[8].key == "methods"
  {
  }

  ghost predicate InOrder(out: seq<Keyed<Json>>) {
    |out| == 22 && |FIELDS| == 22 && DistinctKeys(out) && forall i :: 0 <= i < 22 ==> out[i].key == FIELDS[i].key
  }

  /** The four names the checks on a filled manifest look for. */
  lemma Places(out: seq<Keyed<Json>>)
    requires InOrder(out)
    ensures Get(out, "service") == Some(out[1].value) && Get(out, "version") == Some(out[2].value)
    ensures Get(out, "type_hashes") == Some(out[6].value) && Get(out, "methods") == Some(out[8].value)
  {
    hide Get, DistinctKeys;
    Names();
    GetAt(out, 1);
    GetAt(out, 2);
    GetAt(out, 6);
    GetAt(out, 8);
  }

  lemma LimitsFit(out: seq<Keyed<Json>>)
    requires InOrder(out) && Distinct(out[8].value)
    ensures WithinLimits(out) <==> MethodsFit(out[8].value) && (out[6].value.Array? ==> |out[6].value.items| <= 100_000)
  {
    hide Get, DistinctKeys, MethodOk, MethodFits;
    Places(out);
    if out[8].value.Array? {
      forall i | 0 <= i < |out[8].value.items|
        ensures MethodOk(out[8].value.items[i]) <==> MethodFits(out[8].value.items[i])
      {
        MethodOkFits(out[8].value.items[i]);
      }
    }
  }

  lemma FinishSome(env: Env, out: seq<Keyed<Json>>)
    requires InOrder(out)
    ensures Finish(env, out).Some? <==> WithinLimits(out) && out[1].value.Str? && out[2].value.Int?
  {
    hide Get, WithinLimits, Dump, DistinctKeys;
    Places(out);
  }

  ghost predicate WholeIfCount(env: Env, fs: seq<Keyed<Json>>, key: string) {
    CountName(key) ==> forall j :: 0 <= j < |fs| && fs[j].key == key ==> exists n :: Whole(env, fs[j].value, n)
  }

  /** A field can be filled in exactly when the file's field, if it is a count, is whole. */
  lemma ValueFits(env: Env, fs: seq<Keyed<Json>>, f: Keyed<Json>)
    requires DistinctKeys(fs) && (CountName(f.key) ==> f.value.Int?)
    ensures FieldValue(env, fs, f).Some? <==> WholeIfCount(env, fs, f.key)
  {
    hide Get, AsInt, Whole;
    GetNone(fs, f.key);
    var from := if Get(fs, f.key).Some? then Get(fs, f.key).value else f.value;
    forall j | 0 <= j < |fs| && fs[j].key == f.key ensures fs[j].value == from {
      GetAt(fs, j);
    }
    if HasKey(fs, f.key) {
      var j :| 0 <= j < |fs| && fs[j].key == f.key;
      WholeSome(env, from);
    } else if CountName(f.key) {
      WholeDefault(env, f.value);
    }
  }

  lemma WholeSome(env: Env, v: Json)
    ensures AsInt(env, v).Some? <==> exists n :: Whole(env, v, n)
  {
    hide AsInt, Whole;
    if AsInt(env, v).Some? {
      AsIntExactly(env, v, AsInt(env, v).value);
    }
    if n :| Whole(env, v, n) {
      AsIntExactly(env, v, n);
    }
  }

  lemma WholeDefault(env: Env, v: Json)
    requires v.Int?
    ensures AsInt(env, v).Some?
  {
  }

  ghost predicate CountsWhole(env: Env, fs: seq<Keyed<Json>>) {
    forall j :: 0 <= j < |fs| && CountName(fs[j].key) ==> exists n :: Whole(env, fs[j].value, n)
  }

  lemma DefaultCounts(i: nat)
    requires i < |FIELDS|
    ensures CountName(FIELDS[i].key) ==> FIELDS[i].value.Int?
  {
  }

  lemma FillsExactly(env: Env, fs: seq<Keyed<Json>>)
    requires DistinctKeys(fs) && forall j :: 0 <= j < |fs| ==> HasKey(FIELDS, fs[j].key)
    ensures Fill(env, fs, FIELDS).Some? <==> CountsWhole(env, fs)
  {
    hide FieldValue, Fill, Whole, DistinctKeys, CountName;
    FillSome(env, fs, FIELDS);
    forall i | 0 <= i < |FIELDS|
      ensures FieldValue(env, fs, FIELDS[i]).Some? <==> WholeIfCount(env, fs, FIELDS[i].key)
    {
      DefaultCounts(i);
      ValueFits(env, fs, FIELDS[i]);
    }
    if Fill(env, fs, FIELDS).Some? {
      forall j | 0 <= j < |fs| && CountName(fs[j].key) ensures exists n :: Whole(env, fs[j].value, n) {
        var i :| 0 <= i < |FIELDS| && FIELDS[i].key == fs[j].key;
        assert FieldValue(env, fs, FIELDS[i]).Some?;
      }
    }
  }

  /** What is taken from the file has a property the default has exactly when the file's field,
      if there is one, has it. */
  lemma TakenHas(env: Env, fs: seq<Keyed<Json>>, f: Keyed<Json>, v: Json, p: Json -> bool)
    requires Taken(env, fs, f, v) && !CountName(f.key) && p(f.value)
    ensures p(v) <==> forall j :: 0 <= j < |fs| && fs[j].key == f.key ==> p(fs[j].value)
  {
    if HasKey(fs, f.key) {
      var j :| 0 <= j < |fs| && fs[j].key == f.key;
    }
  }

  predicate IsStr(v: Json) {
    v.Str?
  }

  predicate HashesFit(v: Json) {
    v.Array? ==> |v.items| <= 100_000
  }

  lemma NotCounts()
    ensures !CountName("service") && !CountName("methods") && !CountName("type_hashes")
  {
    assert |"service"| == |"methods"| == |"version"| == 7;
    assert |"type_hashes"| == 11 && |"method_count"| == 12 && |"type_count"| == 10;
    assert "service"[0] == 's' && "methods"[0] == 'm' && "version"[0] == 'v';
  }

  lemma Defaults()
    ensures |FIELDS| == 22 && IsStr(FIELDS[1].value) && MethodsFit(FIELDS[8].value) && HashesFit(FIELDS[6].value)
  {
  }

  /** Of a filled manifest, the checks pass exactly when they pass on the file's own fields. */
  lemma FinishesExactly(env: Env, fs: seq<Keyed<Json>>, out: seq<Keyed<Json>>)
    requires InOrder(out) && Distinct(out[8].value)
    requires forall i :: 0 <= i < 22 ==> Taken(env, fs, FIELDS[i], out[i].value)
    ensures Finish(env, out).Some? <==>
              forall j :: 0 <= j < |fs| ==>
                && (fs[j].key == "service" ==> IsStr(fs[j].value))
                && (fs[j].key == "methods" ==> MethodsFit(fs[j].value))
                && (fs[j].key == "type_hashes" ==> HashesFit(fs[j].value))
  {
    hide Finish, DistinctKeys, WithinLimits, MethodsFit, Taken, CountName;
    Names();
    NotCounts();
    Defaults();
    FinishSome(env, out);
    LimitsFit(out);
    TakenHas(env, fs, FIELDS[1], out[1].value, IsStr);
    TakenHas(env, fs, FIELDS[8], out[8].value, MethodsFit);
    TakenHas(env, fs, FIELDS[6], out[6].value, HashesFit);
    VersionWhole(env, fs, FIELDS[2], out[2].value);
  }

  lemma VersionWhole(env: Env, fs: seq<Keyed<Json>>, f: Keyed<Json>, v: Json)
    requires Taken(env, fs, f, v) && f.key == "version"
    ensures v.Int?
  {
    if HasKey(fs, f.key) {
      var j :| 0 <= j < |fs| && fs[j].key == f.key;
    }
  }

  /** A text has a canonical manifest exactly when it is an object of acceptable fields. */
  lemma AcceptedExactly(env: Env, t: string)
    requires Proper(env.fp)
    ensures Manifest.Canonical(env, t).Some? <==>
              Parse(env.fp, t).Some? && Parse(env.fp, t).value.Object? && Acceptable(env, Parse(env.fp, t).value.fields)
  {
    hide Parse, Fill, KnownKeys, HasSchemaVersion, Finish, FieldValue, Taken, InOrder, DistinctKeys, Fitting;
    if Parse(env.fp, t).Some? && Parse(env.fp, t).value.Object? {
      var fs := Parse(env.fp, t).value.fields;
      ParseSound(env.fp, t);
      ObjectDistinct(fs);
      VersionGiven(fs);
      KnownKeysAre(fs);
      FittingParts(env, fs);
      if KnownKeys(fs) {
        FillsExactly(env, fs);
        if Fill(env, fs, FIELDS).Some? {
          var out := Fill(env, fs, FIELDS).value;
          FilledInOrder(env, fs, out);
          FinishesExactly(env, fs, out);
        }
      }
    }
  }

  lemma ObjectDistinct(fs: seq<Keyed<Json>>)
    requires Distinct(Object(fs))
    ensures DistinctKeys(fs)
  {
  }

  lemma KnownKeysAre(fs: seq<Keyed<Json>>)
    ensures KnownKeys(fs) <==> forall j :: 0 <= j < |fs| ==> HasKey(FIELDS, fs[j].key)
  {
  }

  lemma FittingParts(env: Env, fs: seq<Keyed<Json>>)
    ensures (forall j :: 0 <= j < |fs| ==> Fitting(env, fs[j].key, fs[j].value)) <==>
              && CountsWhole(env, fs)
              && forall j :: 0 <= j < |fs| ==>
                   && (fs[j].key == "service" ==> IsStr(fs[j].value))
                   && (fs[j].key == "methods" ==> MethodsFit(fs[j].value))
                   && (fs[j].key == "type_hashes" ==> HashesFit(fs[j].value))
  {
    hide Whole, MethodsFit, CountName;
  }

  lemma FilledInOrder(env: Env, fs: seq<Keyed<Json>>, out: seq<Keyed<Json>>)
    requires Soundness.Good(env.fp, Object(fs), MAX_DEPTH) && Fill(env, fs, FIELDS) == Some(out)
    ensures InOrder(out) && Distinct(out[8].value)
    ensures forall i :: 0 <= i < 22 ==> Taken(env, fs, FIELDS[i], out[i].value)
  {
    hide Fill, FieldValue, Taken;
    FilledGood(env, fs, out);
    FillAt(env, fs, FIELDS);
    Names();
    forall i | 0 <= i < 22 ensures Taken(env, fs, FIELDS[i], out[i].value) {
      ValueTaken(env, fs, FIELDS[i], out[i].value);
    }
  }

  // ----- files

  lemma {:induction false} CollectExactly(results: seq<Option<CanonicalManifest>>, ms: seq<CanonicalManifest>)
    ensures Collect(results) == Some(ms) <==>
              |ms| == |results| && forall i :: 0 <= i < |ms| ==> results[i] == Some(ms[i])
  {
    if results != [] {
      if ms != [] {
        CollectExactly(results[1..], ms[1..]);
        assert ms == [ms[0]] + ms[1..];
      }
      if Collect(results[1..]).Some? {
        CollectExactly(results[1..], Collect(results[1..]).value);
      }
    }
  }

  lemma ItemReparses(fp: Rounding, items: seq<Json>, i: nat)
    requires i < |items| && Soundness.Good(fp, Array(items), MAX_DEPTH)
    ensures Parse(fp, Dumps(items[i], PYTHON_DEFAULT)) == Some(items[i])
  {
    hide Dump, Parse;
    assert Fits(items[i], MAX_DEPTH - 1);
    Canonical.FitsMore(items[i], MAX_DEPTH - 1, MAX_DEPTH);
    ParseDumpsExact(fp, items[i], PYTHON_DEFAULT);
  }

  ghost predicate GivenBy(env: Env, v: Json, ms: seq<CanonicalManifest>) {
    if v.Array? then |ms| == |v.items| && forall i :: 0 <= i < |ms| ==> CanonicalValue(env, v.items[i]) == Some(ms[i])
    else |ms| == 1 && CanonicalValue(env, v) == Some(ms[0])
  }

  /** A file that holds a list gives the manifests of its items, in order, and none if one item
      has none; any other file gives its own. */
  lemma FileExactly(env: Env, t: string, ms: seq<CanonicalManifest>)
    requires Proper(env.fp)
    ensures CanonicalAll(env, t) == Some(ms) <==>
              Parse(env.fp, t).Some? && GivenBy(env, Parse(env.fp, t).value, ms)
  {
    hide Parse, Dump, CanonicalValue, Collect;
    if Parse(env.fp, t).Some? {
      var v := Parse(env.fp, t).value;
      ParseSound(env.fp, t);
      if v.Array? {
        var results := CanonicalItems(env, v.items);
        CollectExactly(results, ms);
        forall i | 0 <= i < |v.items| ensures results[i] == CanonicalValue(env, v.items[i]) {
          ItemReparses(env.fp, v.items, i);
        }
      } else {
        CollectExactly([Manifest.Canonical(env, t)], ms);
      }
    }
  }
}
