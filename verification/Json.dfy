/**
 `PyJson` values, the operations on an object's field list, and the form a value takes after
 it has been printed and read again.
 */
module Json {
  import opened Decimal
  import opened Utf8

  datatype Keyed<+T> = Keyed(key: string, value: T)

  datatype Json =
    | Null
    | Bool(b: bool)
    | Int(n: int)            // an i128
    | BigInt(lit: string)    // an integer literal beyond i128
    | Float(f: Float)
    | Str(s: string)
    | Array(items: seq<Json>)
    | Object(fields: seq<Keyed<Json>>)

  const I128_MIN: int := -170141183460469231731687303715884105728
  const I128_MAX: int := 170141183460469231731687303715884105727

  predicate InI128(n: int) {
    I128_MIN <= n <= I128_MAX
  }

  /** `-?(0|[1-9][0-9]*)`. */
  predicate IsNatLiteral(s: string) {
    s != [] && AllDigits(s) && (s[0] == '0' ==> |s| == 1)
  }

  predicate IsIntLiteral(s: string) {
    IsNatLiteral(s) || (s != [] && s[0] == '-' && IsNatLiteral(s[1..]))
  }

  function IntLiteralValue(s: string): int
    requires IsIntLiteral(s)
  {
    if s[0] == '-' then -(NatVal(s[1..]) as int) else NatVal(s)
  }

  /** Values the program can hold: what the enum's payload types and the parser guarantee. */
  predicate Valid(fp: Rounding, v: Json) {
    match v
    case Int(n) => InI128(n)
    case BigInt(lit) => IsIntLiteral(lit) && !InI128(IntLiteralValue(lit))
    case Float(f) => Representable(fp, f)
    case Array(items) => forall i :: 0 <= i < |items| ==> Valid(fp, items[i])
    case Object(fields) => forall i :: 0 <= i < |fields| ==> Valid(fp, fields[i].value)
    case _ => true
  }

  /** Arrays and objects nest at most `budget` deep. */
  predicate Fits(v: Json, budget: nat) {
    match v
    case Array(items) => budget > 0 && forall i :: 0 <= i < |items| ==> Fits(items[i], budget - 1)
    case Object(fields) => budget > 0 && forall i :: 0 <= i < |fields| ==> Fits(fields[i].value, budget - 1)
    case _ => true
  }

  predicate DistinctKeys<T>(fields: seq<Keyed<T>>) {
    forall i, j :: 0 <= i < j < |fields| ==> fields[i].key != fields[j].key
  }

  /** Every object, at every level, has distinct keys. */
  predicate Distinct(v: Json) {
    match v
    case Array(items) => forall i :: 0 <= i < |items| ==> Distinct(items[i])
    case Object(fields) => DistinctKeys(fields) && forall i :: 0 <= i < |fields| ==> Distinct(fields[i].value)
    case _ => true
  }

  // ----- repeated keys

  /** A repeated key keeps the last value in the first key's position. */
  function Upsert<T>(fields: seq<Keyed<T>>, key: string, value: T): seq<Keyed<T>> {
    if fields == [] then [Keyed(key, value)]
    else if fields[0].key == key then [Keyed(key, value)] + fields[1..]
    else [fields[0]] + Upsert(fields[1..], key, value)
  }

  /** Upsert all of `more` into `fields`, first to last. */
  function Collapse<T>(fields: seq<Keyed<T>>, more: seq<Keyed<T>>): seq<Keyed<T>>
    decreases |more|
  {
    if more == [] then fields
    else Collapse(Upsert(fields, more[0].key, more[0].value), more[1..])
  }

  predicate HasKey<T>(fields: seq<Keyed<T>>, key: string) {
    exists i :: 0 <= i < |fields| && fields[i].key == key
  }

  lemma {:induction false} UpsertAppends<T>(fields: seq<Keyed<T>>, key: string, value: T)
    requires !HasKey(fields, key)
    ensures Upsert(fields, key, value) == fields + [Keyed(key, value)]
  {
    if fields != [] {
      assert fields[0].key != key;
      assert !HasKey(fields[1..], key);
      UpsertAppends(fields[1..], key, value);
      assert fields == [fields[0]] + fields[1..];
    }
  }

  /** Upserting touches one key: its own, where it already was or else at the end. */
  lemma {:induction false} UpsertEffect<T>(fields: seq<Keyed<T>>, key: string, value: T)
    requires DistinctKeys(fields)
    ensures
      var r := Upsert(fields, key, value);
      && |r| == |fields| + (if HasKey(fields, key) then 0 else 1)
      && (|r| > |fields| ==> r[|fields|] == Keyed(key, value))
      && (forall i :: 0 <= i < |fields| ==> r[i] == if fields[i].key == key then Keyed(key, value) else fields[i])
  {
    if fields != [] {
      var rest := fields[1..];
      assert forall i :: 0 < i < |fields| ==> fields[i] == rest[i - 1];
      if fields[0].key == key {
        assert forall i :: 0 < i < |fields| ==> fields[i].key != fields[0].key;
      } else {
        UpsertEffect(rest, key, value);
        assert HasKey(fields, key) <==> HasKey(rest, key);
      }
    }
  }

  lemma {:induction false} CollapseDistinct<T>(fields: seq<Keyed<T>>, more: seq<Keyed<T>>)
    requires DistinctKeys(fields)
    ensures DistinctKeys(Collapse(fields, more))
    decreases |more|
  {
    if more != [] {
      UpsertEffect(fields, more[0].key, more[0].value);
      CollapseDistinct(Upsert(fields, more[0].key, more[0].value), more[1..]);
    }
  }

  /** Without repeated keys, collapsing is concatenation. */
  lemma {:induction false} CollapseIsAppend<T>(fields: seq<Keyed<T>>, more: seq<Keyed<T>>)
    requires DistinctKeys(fields + more)
    ensures Collapse(fields, more) == fields + more
    decreases |more|
  {
    var all := fields + more;
    if more == [] {
      assert fields + more == fields;
    } else {
      var k, f := more[0].key, fields + [more[0]];
      forall i | 0 <= i < |fields| ensures fields[i].key != k {
        assert all[i] == fields[i] && all[|fields|] == more[0];
      }
      UpsertAppends(fields, k, more[0].value);
      assert f + more[1..] == all;
      CollapseIsAppend(f, more[1..]);
    }
  }

  // ----- sorting by key

  /** Rust's order on keys: by UTF-8 bytes. */
  predicate KeyLess(a: string, b: string) {
    LexLess(Encode(a), Encode(b))
  }

  function Insert<T>(x: Keyed<T>, s: seq<Keyed<T>>): seq<Keyed<T>> {
    if s == [] || !KeyLess(s[0].key, x.key) then [x] + s else [s[0]] + Insert(x, s[1..])
  }

  /** `fields.sort_by(|a, b| a.0.cmp(&b.0))`, a stable sort. */
  function SortByKey<T>(s: seq<Keyed<T>>): seq<Keyed<T>> {
    if s == [] then [] else Insert(s[0], SortByKey(s[1..]))
  }

  ghost predicate Ascending<T>(s: seq<Keyed<T>>) {
    forall i, j :: 0 <= i < j < |s| ==> !KeyLess(s[j].key, s[i].key)
  }

  lemma {:induction false} InsertEffect<T>(x: Keyed<T>, s: seq<Keyed<T>>)
    requires Ascending(s)
    ensures Ascending(Insert(x, s)) && multiset(Insert(x, s)) == multiset{x} + multiset(s)
  {
    hide KeyLess;
    if s == [] || !KeyLess(s[0].key, x.key) {
      forall j | 0 <= j < |s| ensures !KeyLess(s[j].key, x.key) {
        if j > 0 {
          NotLessTransitive(x.key, s[0].key, s[j].key);
        }
      }
      AscendingCons(x, s);
    } else {
      var rest := s[1..];
      assert s == [s[0]] + rest;
      InsertEffect(x, rest);
      var r := Insert(x, rest);
      KeyAsymmetric(s[0].key, x.key);
      forall j | 0 <= j < |r| ensures !KeyLess(r[j].key, s[0].key) {
        InsertMember(x, rest, j);
        if r[j] != x {
          var k :| 0 <= k < |rest| && rest[k] == r[j];
          assert s[k + 1] == r[j];
        }
      }
      AscendingCons(s[0], r);
    }
  }

  lemma AscendingCons<T>(x: Keyed<T>, s: seq<Keyed<T>>)
    requires Ascending(s) && forall j :: 0 <= j < |s| ==> !KeyLess(s[j].key, x.key)
    ensures Ascending([x] + s)
  {
    hide KeyLess;
  }

  lemma {:induction false} InsertMember<T>(x: Keyed<T>, s: seq<Keyed<T>>, j: nat)
    requires j < |Insert(x, s)|
    ensures Insert(x, s)[j] == x || Insert(x, s)[j] in s
  {
    hide KeyLess;
    if s != [] && KeyLess(s[0].key, x.key) && j > 0 {
      InsertMember(x, s[1..], j - 1);
    }
  }

  lemma KeyAsymmetric(a: string, b: string)
    requires KeyLess(a, b)
    ensures !KeyLess(b, a)
  {
    LexAsymmetric(Encode(a), Encode(b));
  }

  lemma LexAsymmetric(a: seq<int>, b: seq<int>)
    requires LexLess(a, b)
    ensures !LexLess(b, a)
  {
    if LexLess(b, a) {
      LexTransitive(a, b, a);
      LexIrreflexive(a);
    }
  }

  /** x <= y and y <= z give x <= z. */
  lemma NotLessTransitive(x: string, y: string, z: string)
    requires !KeyLess(y, x) && !KeyLess(z, y)
    ensures !KeyLess(z, x)
  {
    if KeyLess(z, x) {
      LexTotal(Encode(x), Encode(y));
      if LexLess(Encode(x), Encode(y)) {
        LexTransitive(Encode(z), Encode(x), Encode(y));
      }
    }
  }

  /** Sorting yields the same fields in ascending key order. */
  lemma {:induction false} SortEffect<T>(s: seq<Keyed<T>>)
    ensures Ascending(SortByKey(s)) && multiset(SortByKey(s)) == multiset(s)
    ensures |SortByKey(s)| == |s|
  {
    if s != [] {
      SortEffect(s[1..]);
      InsertEffect(s[0], SortByKey(s[1..]));
      assert s == [s[0]] + s[1..];
    }
    assert |SortByKey(s)| == |multiset(SortByKey(s))|;
  }

  /** Sorted fields are in Python's key order: ascending by code point. */
  lemma SortIsByCodePoint<T>(s: seq<Keyed<T>>, i: nat, j: nat)
    requires i < j < |SortByKey(s)|
    ensures !LexLess(CodePoints(SortByKey(s)[j].key), CodePoints(SortByKey(s)[i].key))
  {
    hide LexLess, SortByKey;
    SortEffect(s);
    ByteOrderIsCodePointOrder(SortByKey(s)[j].key, SortByKey(s)[i].key);
  }

  lemma SortMember<T>(s: seq<Keyed<T>>, i: nat)
    requires i < |SortByKey(s)|
    ensures |SortByKey(s)| == |s| && SortByKey(s)[i] in s
  {
    SortEffect(s);
    SameElements(SortByKey(s), s, SortByKey(s)[i]);
  }

  function WithKey<T>(s: seq<Keyed<T>>, key: string): seq<Keyed<T>> {
    if s == [] then [] else (if s[0].key == key then [s[0]] else []) + WithKey(s[1..], key)
  }

  lemma {:induction false} InsertStable<T>(x: Keyed<T>, s: seq<Keyed<T>>, key: string)
    ensures WithKey(Insert(x, s), key) == WithKey([x] + s, key)
  {
    assert ([x] + s)[1..] == s;
    if s != [] && KeyLess(s[0].key, x.key) {
      LexIrreflexive(Encode(x.key));
      InsertStable(x, s[1..], key);
      assert ([x] + s[1..])[1..] == s[1..];
      assert Insert(x, s)[1..] == Insert(x, s[1..]);
    }
  }

  /** Fields that share a key keep their order. */
  lemma {:induction false} SortStable<T>(s: seq<Keyed<T>>, key: string)
    ensures WithKey(SortByKey(s), key) == WithKey(s, key)
  {
    if s != [] {
      SortStable(s[1..], key);
      InsertStable(s[0], SortByKey(s[1..]), key);
      assert ([s[0]] + SortByKey(s[1..]))[1..] == SortByKey(s[1..]);
    }
  }

  function MapValues<T, U>(f: T -> U, s: seq<Keyed<T>>): (r: seq<Keyed<U>>)
    ensures |r| == |s| && forall i :: 0 <= i < |s| ==> r[i] == Keyed(s[i].key, f(s[i].value))
  {
    seq(|s|, i requires 0 <= i < |s| => Keyed(s[i].key, f(s[i].value)))
  }

  lemma {:induction false} InsertMap<T, U>(f: T -> U, x: Keyed<T>, s: seq<Keyed<T>>)
    ensures Insert(Keyed(x.key, f(x.value)), MapValues(f, s)) == MapValues(f, Insert(x, s))
  {
    hide KeyLess;
    if s != [] && KeyLess(s[0].key, x.key) {
      InsertMap(f, x, s[1..]);
      assert MapValues(f, s)[1..] == MapValues(f, s[1..]);
      assert MapValues(f, Insert(x, s)) == [Keyed(s[0].key, f(s[0].value))] + MapValues(f, Insert(x, s[1..]));
    } else {
      assert MapValues(f, [x] + s) == [Keyed(x.key, f(x.value))] + MapValues(f, s);
    }
  }

  /** Sorting looks at keys only, so it commutes with mapping the values. */
  lemma {:induction false} SortMap<T, U>(f: T -> U, s: seq<Keyed<T>>)
    ensures SortByKey(MapValues(f, s)) == MapValues(f, SortByKey(s))
  {
    if s != [] {
      SortMap(f, s[1..]);
      assert MapValues(f, s)[1..] == MapValues(f, s[1..]);
      InsertMap(f, s[0], SortByKey(s[1..]));
    }
  }

  lemma LeastKey<T>(a: seq<Keyed<T>>, x: Keyed<T>)
    requires Ascending(a) && x in a
    ensures !KeyLess(x.key, a[0].key)
  {
    LexIrreflexive(Encode(x.key));
  }

  lemma SameLeastKey<T>(a: seq<Keyed<T>>, b: seq<Keyed<T>>)
    requires Ascending(a) && Ascending(b) && a != [] && b != [] && a[0] in b && b[0] in a
    ensures a[0].key == b[0].key
  {
    LeastKey(a, b[0]);
    LeastKey(b, a[0]);
    LexTotal(Encode(a[0].key), Encode(b[0].key));
    EncodeInjective(a[0].key, b[0].key);
  }

  lemma SameElements<T>(a: seq<T>, b: seq<T>, x: T)
    requires multiset(a) == multiset(b) && x in a
    ensures x in b
  {
    assert x in multiset(a);
  }

  /** With distinct keys the sorted order is unique, whatever sorting algorithm finds it. */
  lemma {:induction false} AscendingUnique<T>(a: seq<Keyed<T>>, b: seq<Keyed<T>>)
    requires multiset(a) == multiset(b) && DistinctKeys(a) && Ascending(a) && Ascending(b)
    ensures a == b
  {
    hide KeyLess;
    SameCount(a, b);
    if a != [] {
      SameElements(a, b, a[0]);
      SameElements(b, a, b[0]);
      SameLeastKey(a, b);
      assert a[0] == b[0];
      SameTail(a, b);
      AscendingUnique(a[1..], b[1..]);
      assert a == [a[0]] + a[1..] && b == [b[0]] + b[1..];
    }
  }

  lemma SameCount<T>(a: seq<T>, b: seq<T>)
    requires multiset(a) == multiset(b)
    ensures |a| == |b|
  {
    assert |a| == |multiset(a)| && |b| == |multiset(b)|;
  }

  lemma SameTail<T>(a: seq<T>, b: seq<T>)
    requires multiset(a) == multiset(b) && a != [] && b != [] && a[0] == b[0]
    ensures multiset(a[1..]) == multiset(b[1..])
  {
    assert a == [a[0]] + a[1..] && b == [b[0]] + b[1..];
    assert multiset(a[1..]) == multiset(a) - multiset{a[0]};
    assert multiset(b[1..]) == multiset(b) - multiset{b[0]};
  }

  /** Sorting forgets the order the fields came in. */
  lemma SortPermuted<T>(a: seq<Keyed<T>>, b: seq<Keyed<T>>)
    requires multiset(a) == multiset(b) && DistinctKeys(a)
    ensures SortByKey(a) == SortByKey(b)
  {
    SortEffect(a);
    SortEffect(b);
    SortDistinct(a);
    AscendingUnique(SortByKey(a), SortByKey(b));
  }

  lemma {:induction false} InsertDistinct<T>(x: Keyed<T>, s: seq<Keyed<T>>)
    requires DistinctKeys(s) && !HasKey(s, x.key)
    ensures DistinctKeys(Insert(x, s))
    ensures forall f :: f in Insert(x, s) ==> f == x || f in s
  {
    if s != [] && KeyLess(s[0].key, x.key) {
      InsertDistinct(x, s[1..]);
      var r := Insert(x, s[1..]);
      forall j | 0 <= j < |r| ensures r[j].key != s[0].key {
        assert r[j] in r;
      }
    }
  }

  lemma {:induction false} SortDistinct<T>(a: seq<Keyed<T>>)
    requires DistinctKeys(a)
    ensures DistinctKeys(SortByKey(a))
  {
    if a != [] {
      SortDistinct(a[1..]);
      var r := SortByKey(a[1..]);
      forall j | 0 <= j < |r| ensures r[j].key != a[0].key {
        SortMember(a[1..], j);
      }
      InsertDistinct(a[0], r);
    }
  }

  // ----- what printing and reading back does to a value

  function NormalizeAll(items: seq<Json>, sort: bool): (r: seq<Json>)
    ensures |r| == |items| && forall i :: 0 <= i < |items| ==> r[i] == Normalize(items[i], sort)
    decreases items, 0
  {
    seq(|items|, i requires 0 <= i < |items| => Normalize(items[i], sort))
  }

  function NormalizeFields(fields: seq<Keyed<Json>>, sort: bool): (r: seq<Keyed<Json>>)
    ensures |r| == |fields|
    ensures forall i :: 0 <= i < |fields| ==> r[i] == Keyed(fields[i].key, Normalize(fields[i].value, sort))
    decreases fields, 0
  {
    seq(|fields|, i requires 0 <= i < |fields| => Keyed(fields[i].key, Normalize(fields[i].value, sort)))
  }

  /** Fields in key order when `sort`, then repeated keys merged, at every level. */
  function Normalize(v: Json, sort: bool): Json
    decreases v, 1
  {
    match v
    case Array(items) => Array(NormalizeAll(items, sort))
    case Object(fields) =>
      var fs := NormalizeFields(fields, sort);
      Object(Collapse([], if sort then SortByKey(fs) else fs))
    case _ => v
  }

  /** Normalizing is the identity on values with distinct keys, unless it sorts them. */
  lemma {:induction false} NormalizeUnsorted(v: Json)
    requires Distinct(v)
    ensures Normalize(v, false) == v
  {
    match v {
      case Array(items) =>
        forall i | 0 <= i < |items| ensures Normalize(items[i], false) == items[i] {
          NormalizeUnsorted(items[i]);
        }
        assert NormalizeAll(items, false) == items;
      case Object(fields) =>
        forall i | 0 <= i < |fields| ensures Normalize(fields[i].value, false) == fields[i].value {
          NormalizeUnsorted(fields[i].value);
        }
        assert NormalizeFields(fields, false) == fields;
        assert [] + fields == fields;
        CollapseIsAppend([], fields);
      case _ =>
    }
  }
}
