/**
 `Signer::sign_at`: the text a request signature covers, and when the server's check of it
 can succeed.
 */
module Signer {
  import opened Canonical
  import opened Decimal
  import opened Depth
  import opened Grammar
  import opened Json
  import opened Printer
  import opened RoundTrip
  import opened Utf8
  import opened Writer

  /** The request body with `action`, `timestamp` and `nonce` pushed after its fields. */
  function Payload(body: seq<Keyed<Json>>, action: string, timestamp: int, nonce: string): seq<Keyed<Json>> {
    body + [Keyed("action", Str(action)), Keyed("timestamp", Int(timestamp)), Keyed("nonce", Str(nonce))]
  }

  predicate NoReservedKey(body: seq<Keyed<Json>>) {
    !HasKey(body, "action") && !HasKey(body, "timestamp") && !HasKey(body, "nonce")
  }

  method SignAt(body: Json, action: string, timestamp: int, nonce: string) returns (r: Option<string>)
    ensures r.None? <==> !body.Object?
    ensures body.Object? ==> r == Some(Dumps(Object(Payload(body.fields, action, timestamp, nonce)), SIGNING))
    ensures body.Object? ==>
              Payload(body.fields, action, timestamp, nonce) ==
              body.fields + [Keyed("action", Str(action)), Keyed("timestamp", Int(timestamp)),
                             Keyed("nonce", Str(nonce))]
  {
    if !body.Object? {
      return None;
    }
    var fields := body.fields;
    fields := fields + [Keyed("action", Str(action))];
    fields := fields + [Keyed("timestamp", Int(timestamp))];
    fields := fields + [Keyed("nonce", Str(nonce))];
    assert fields == Payload(body.fields, action, timestamp, nonce);
    var text := WriteAll(Object(fields), SIGNING);
    r := Some(text);
  }

  lemma ReservedKeysDiffer()
    ensures "action" != "timestamp" && "action" != "nonce" && "timestamp" != "nonce"
  {
    assert |"action"| == 6 && |"timestamp"| == 9 && |"nonce"| == 5;
  }

  lemma PayloadDistinct(body: seq<Keyed<Json>>, action: string, timestamp: int, nonce: string)
    requires DistinctKeys(body)
    ensures DistinctKeys(Payload(body, action, timestamp, nonce)) <==> NoReservedKey(body)
  {
    var all := Payload(body, action, timestamp, nonce);
    var n := |body|;
    assert all[n].key == "action" && all[n + 1].key == "timestamp" && all[n + 2].key == "nonce";
    assert forall i :: 0 <= i < n ==> all[i] == body[i];
    ReservedKeysDiffer();
  }

  // ----- how long the signed text is

  /** Total cost of a field list when a value costs `w`: what one field adds to an object's
      compact text, its comma or closing brace included. */
  function Weight<T>(w: T -> nat, fs: seq<Keyed<T>>): nat {
    if fs == [] then 0 else Cost(w, fs[0]) + Weight(w, fs[1..])
  }

  function Cost<T>(w: T -> nat, f: Keyed<T>): (n: nat)
    ensures n > 0
  {
    |StrText(f.key, false)| + 1 + w(f.value) + 1
  }

  lemma {:induction false} InsertWeight<T>(w: T -> nat, x: Keyed<T>, s: seq<Keyed<T>>)
    ensures Weight(w, Insert(x, s)) == Cost(w, x) + Weight(w, s)
  {
    hide Cost, KeyLess;
    assert ([x] + s)[1..] == s;
    if s != [] && KeyLess(s[0].key, x.key) {
      InsertWeight(w, x, s[1..]);
      assert Insert(x, s)[1..] == Insert(x, s[1..]);
    }
  }

  lemma {:induction false} SortWeight<T>(w: T -> nat, s: seq<Keyed<T>>)
    ensures Weight(w, SortByKey(s)) == Weight(w, s)
  {
    if s != [] {
      SortWeight(w, s[1..]);
      InsertWeight(w, s[0], SortByKey(s[1..]));
    }
  }

  lemma {:induction false} UpsertWeight<T>(w: T -> nat, fs: seq<Keyed<T>>, key: string, value: T)
    ensures Weight(w, Upsert(fs, key, value)) <= Weight(w, fs) + Cost(w, Keyed(key, value))
    ensures HasKey(fs, key) ==> Weight(w, Upsert(fs, key, value)) < Weight(w, fs) + Cost(w, Keyed(key, value))
  {
    hide Cost;
    if fs != [] {
      var r := Upsert(fs, key, value);
      if fs[0].key == key {
        assert r[1..] == fs[1..];
      } else {
        UpsertWeight(w, fs[1..], key, value);
        assert r[1..] == Upsert(fs[1..], key, value);
        assert HasKey(fs, key) ==> HasKey(fs[1..], key) by {
          if i :| 0 <= i < |fs| && fs[i].key == key {
            assert fs[1..][i - 1].key == key;
          }
        }
      }
    }
  }

  /** Merging repeated keys makes the text shorter. */
  lemma {:induction false} CollapseWeight<T>(w: T -> nat, fs: seq<Keyed<T>>, more: seq<Keyed<T>>)
    requires DistinctKeys(fs)
    ensures Weight(w, Collapse(fs, more)) <= Weight(w, fs) + Weight(w, more)
    ensures !DistinctKeys(fs + more) ==> Weight(w, Collapse(fs, more)) < Weight(w, fs) + Weight(w, more)
    decreases |more|
  {
    hide Cost, Upsert;
    if more == [] {
      assert fs + more == fs;
    } else {
      var k, v := more[0].key, more[0].value;
      var fs' := Upsert(fs, k, v);
      UpsertWeight(w, fs, k, v);
      CollapseDistinct(fs, [more[0]]);
      assert Collapse(fs, [more[0]]) == Collapse(fs', [more[0]][1..]) == fs';
      CollapseWeight(w, fs', more[1..]);
      if !HasKey(fs, k) {
        UpsertAppends(fs, k, v);
        assert fs' + more[1..] == fs + more;
      }
    }
  }

  lemma {:induction false} JoinLength(fs: seq<Keyed<string>>, lay: Layout)
    requires fs != [] && lay == LayoutOf(SIGNING, 0)
    ensures |Join(FieldTexts(fs, lay, false), lay)| + 1 == Weight(TextLength, fs)
  {
    hide StrText;
    var texts := FieldTexts(fs, lay, false);
    assert texts[0] == StrText(fs[0].key, false) + ":" + fs[0].value;
    if |fs| > 1 {
      JoinLength(fs[1..], lay);
      assert texts[1..] == FieldTexts(fs[1..], lay, false);
    }
  }

  function TextLength(t: string): nat {
    |t|
  }

  function ValueLength(v: Json): nat {
    |Dump(v, SIGNING, 1)|
  }

  lemma {:induction false} WeightOfTexts(fields: seq<Keyed<Json>>)
    ensures Weight(TextLength, DumpFields(fields, SIGNING, 1)) == Weight(ValueLength, fields)
  {
    hide Dump, StrText;
    if fields != [] {
      WeightOfTexts(fields[1..]);
      assert DumpFields(fields, SIGNING, 1)[1..] == DumpFields(fields[1..], SIGNING, 1);
    }
  }

  /** The length of an object's signing text, from its fields in any order. */
  lemma ObjectLength(fields: seq<Keyed<Json>>)
    requires fields != []
    ensures |Dumps(Object(fields), SIGNING)| == 1 + Weight(ValueLength, fields)
  {
    hide Dump, SortByKey, Weight, Join;
    var texts := DumpFields(fields, SIGNING, 1);
    SortEffect(texts);
    SortWeight(TextLength, texts);
    JoinLength(SortByKey(texts), LayoutOf(SIGNING, 0));
    WeightOfTexts(fields);
    ObjectTextLength(fields, texts);
  }

  lemma ObjectTextLength(fields: seq<Keyed<Json>>, texts: seq<Keyed<string>>)
    requires fields != [] && texts == DumpFields(fields, SIGNING, 1)
    ensures |Dumps(Object(fields), SIGNING)|
         == 2 + |Join(FieldTexts(SortByKey(texts), LayoutOf(SIGNING, 0), false), LayoutOf(SIGNING, 0))|
  {
    hide SortByKey, Join;
  }

  // ----- when the server's check can succeed

  /** An object with a repeated key at its top level is re-serialised to a shorter text. */
  lemma RepeatedKeyShortens(fields: seq<Keyed<Json>>)
    requires fields != [] && !DistinctKeys(fields)
    requires forall i :: 0 <= i < |fields| ==> Distinct(fields[i].value)
    ensures |Dumps(Normalize(Object(fields), true), SIGNING)| < |Dumps(Object(fields), SIGNING)|
  {
    hide Dump, SortByKey, Weight, Normalize;
    var norm := NormalizeFields(fields, true);
    var s := SortByKey(norm);
    var merged := Collapse([], s);
    NormalizeUnfold(fields);
    forall i | 0 <= i < |fields| ensures ValueLength(norm[i].value) == ValueLength(fields[i].value) {
      DumpNormalized(fields[i].value, SIGNING, 1);
    }
    SameKeysWeight(norm, fields);
    SortWeight(ValueLength, norm);
    SortKeepsRepeats(norm);
    assert [] + s == s;
    CollapseWeight(ValueLength, [], s);
    WeightEmpty(ValueLength);
    CollapseNotEmpty([], s);
    ObjectLength(fields);
    ObjectLength(merged);
  }

  lemma NormalizeUnfold(fields: seq<Keyed<Json>>)
    ensures Normalize(Object(fields), true) == Object(Collapse([], SortByKey(NormalizeFields(fields, true))))
  {
  }

  lemma WeightEmpty<T>(w: T -> nat)
    ensures Weight(w, []) == 0
  {
  }

  lemma {:induction false} SameKeysWeight(a: seq<Keyed<Json>>, b: seq<Keyed<Json>>)
    requires |a| == |b|
    requires forall i :: 0 <= i < |a| ==> a[i].key == b[i].key && ValueLength(a[i].value) == ValueLength(b[i].value)
    ensures Weight(ValueLength, a) == Weight(ValueLength, b)
  {
    hide StrText, ValueLength;
    if a != [] {
      SameKeysWeight(a[1..], b[1..]);
    }
  }

  lemma SortKeepsRepeats<T>(s: seq<Keyed<T>>)
    requires !DistinctKeys(s)
    ensures !DistinctKeys(SortByKey(s)) && SortByKey(s) != []
  {
    var i, j :| 0 <= i < j < |s| && s[i].key == s[j].key;
    SortStable(s, s[i].key);
    WithKeyTwice(s, i, j);
    SortEffect(s);
    if DistinctKeys(SortByKey(s)) {
      WithKeyOnce(SortByKey(s), s[i].key);
    }
  }

  lemma {:induction false} WithKeyTwice<T>(s: seq<Keyed<T>>, i: nat, j: nat)
    requires i < j < |s| && s[i].key == s[j].key
    ensures |WithKey(s, s[i].key)| >= 2
  {
    if i == 0 {
      WithKeyMember(s[1..], j - 1);
    } else {
      WithKeyTwice(s[1..], i - 1, j - 1);
    }
  }

  lemma {:induction false} WithKeyMember<T>(s: seq<Keyed<T>>, j: nat)
    requires j < |s|
    ensures |WithKey(s, s[j].key)| >= 1
  {
    if j > 0 {
      WithKeyMember(s[1..], j - 1);
    }
  }

  lemma {:induction false} WithKeyOnce<T>(s: seq<Keyed<T>>, key: string)
    requires DistinctKeys(s)
    ensures |WithKey(s, key)| <= 1
    ensures !HasKey(s, key) ==> WithKey(s, key) == []
  {
    if s != [] {
      WithKeyOnce(s[1..], key);
      if s[0].key == key {
        assert !HasKey(s[1..], key);
      } else if HasKey(s[1..], key) {
        var i :| 0 <= i < |s[1..]| && s[1..][i].key == key;
        assert s[i + 1].key == key;
      }
    }
  }

  lemma {:induction false} CollapseNotEmpty<T>(fs: seq<Keyed<T>>, more: seq<Keyed<T>>)
    requires fs != [] || more != []
    ensures Collapse(fs, more) != []
    decreases |more|
  {
    if more != [] {
      assert Upsert(fs, more[0].key, more[0].value) != [];
      CollapseNotEmpty(Upsert(fs, more[0].key, more[0].value), more[1..]);
    }
  }

  /** The server parses the payload it received, serialises it again and checks the signature
      over that.  It gets the text that was signed exactly when the body carries none of the
      three keys that signing adds and is not nested deeper than the parser reads. */
  lemma ServerSeesSignedText(fp: Rounding, body: seq<Keyed<Json>>, action: string, timestamp: int, nonce: string)
    requires Valid(fp, Object(body)) && Distinct(Object(body)) && InI128(timestamp)
    ensures
      var text := Dumps(Object(Payload(body, action, timestamp, nonce)), SIGNING);
      && (Fits(Object(body), MAX_DEPTH) ==> Parse(fp, text).Some?)
      && ((Parse(fp, text).Some? && Dumps(Parse(fp, text).value, SIGNING) == text) <==>
            NoReservedKey(body) && Fits(Object(body), MAX_DEPTH))
  {
    hide Dump, Normalize, Parse, DistinctKeys, Valid, Fits, Distinct;
    var fields := Payload(body, action, timestamp, nonce);
    var text := Dumps(Object(fields), SIGNING);
    PayloadGood(fp, body, action, timestamp, nonce);
    assert DistinctKeys(body) by { BodyKeys(body); }
    PayloadDistinct(body, action, timestamp, nonce);
    if Fits(Object(body), MAX_DEPTH) {
      ParseDumps(fp, Object(fields), SIGNING);
    }
    if NoReservedKey(body) {
      AcceptedWithinDepth(fp, Object(fields), SIGNING);
      if Fits(Object(body), MAX_DEPTH) {
        ReserialisedIsSigned(fp, Object(fields));
      }
    } else if Parse(fp, text).Some? {
      ReadBack(fp, Object(fields), SIGNING);
      RepeatedKeyShortens(fields);
    }
  }

  lemma BodyKeys(body: seq<Keyed<Json>>)
    requires Distinct(Object(body))
    ensures DistinctKeys(body)
  {
  }

  lemma PayloadGood(fp: Rounding, body: seq<Keyed<Json>>, action: string, timestamp: int, nonce: string)
    requires Valid(fp, Object(body)) && Distinct(Object(body)) && InI128(timestamp)
    ensures
      var fields := Payload(body, action, timestamp, nonce);
      && fields != [] && Valid(fp, Object(fields))
      && (Fits(Object(fields), MAX_DEPTH) <==> Fits(Object(body), MAX_DEPTH))
      && (forall i :: 0 <= i < |fields| ==> Distinct(fields[i].value))
      && (Distinct(Object(fields)) <==> DistinctKeys(fields))
  {
    var fields := Payload(body, action, timestamp, nonce);
    assert forall i :: 0 <= i < |body| ==> fields[i] == body[i];
    assert forall i :: |body| <= i < |fields| ==> Fits(fields[i].value, MAX_DEPTH - 1);
  }

  /** A body with a field `nonce` of its own: the server does not get back the text signed. */
  lemma NonceBody(fp: Rounding, action: string, timestamp: int, nonce: string)
    requires InI128(timestamp)
    ensures
      var text := Dumps(Object(Payload([Keyed("nonce", Null)], action, timestamp, nonce)), SIGNING);
      Parse(fp, text).Some? && Dumps(Parse(fp, text).value, SIGNING) != text
  {
    hide Dump, Parse;
    var body := [Keyed("nonce", Null)];
    assert body[0].key == "nonce";
    ServerSeesSignedText(fp, body, action, timestamp, nonce);
  }

  /** A body with 512 arrays in a field: the signed text is refused. */
  lemma DeepBody(fp: Rounding, action: string, timestamp: int, nonce: string)
    requires InI128(timestamp)
    ensures
      var body := [Keyed("tree", Nest(MAX_DEPTH))];
      && NoReservedKey(body)
      && Parse(fp, Dumps(Object(Payload(body, action, timestamp, nonce)), SIGNING)).None?
  {
    hide Dump, Parse, Nest, NoReservedKey;
    var body := [Keyed("tree", Nest(MAX_DEPTH))];
    NestDepth(fp, MAX_DEPTH, MAX_DEPTH - 1);
    assert !Fits(body[0].value, MAX_DEPTH - 1);
    TreeIsNotReserved(body);
    var fields := Payload(body, action, timestamp, nonce);
    PayloadGood(fp, body, action, timestamp, nonce);
    PayloadDistinct(body, action, timestamp, nonce);
    AcceptedWithinDepth(fp, Object(fields), SIGNING);
  }

  lemma TreeIsNotReserved(body: seq<Keyed<Json>>)
    requires |body| == 1 && body[0].key == "tree"
    ensures NoReservedKey(body)
  {
    assert |"tree"| == 4 && |"action"| == 6 && |"timestamp"| == 9 && |"nonce"| == 5;
  }
}
