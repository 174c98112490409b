/**
 The signed form is canonical: two values have the same signing text exactly when they are
 equal up to the order of object fields, at any level; and serialising again what was parsed
 from a signing text reproduces that text.
 */
module Canonical {
  import opened Decimal
  import opened Grammar
  import opened Json
  import opened Printer
  import opened RoundTrip
  import opened Soundness
  import opened Utf8

  /** Equal up to the order of fields, at any level. */
  ghost predicate Similar(v: Json, w: Json)
    decreases v, 0
  {
    match v
    case Array(items) =>
      && w.Array? && |w.items| == |items|
      && forall i :: 0 <= i < |items| ==> Similar(items[i], w.items[i])
    case Object(fields) =>
      && w.Object? && |w.fields| == |fields|
      && forall i :: 0 <= i < |fields| ==> HasMatch(fields[i].key, fields[i].value, w.fields)
    case _ => v == w
  }

  ghost predicate HasMatch(key: string, value: Json, fields: seq<Keyed<Json>>)
    decreases value, 1
  {
    exists j :: 0 <= j < |fields| && fields[j].key == key && Similar(value, fields[j].value)
  }

  // ----- sorting what is sorted

  lemma {:induction false} SortAscending<T>(s: seq<Keyed<T>>)
    requires Ascending(s)
    ensures SortByKey(s) == s
  {
    if s != [] {
      SortAscending(s[1..]);
      assert s == [s[0]] + s[1..];
    }
  }

  /** With distinct keys, normalizing an object sorts its fields and normalizes their values. */
  lemma NormalizeSorted(fields: seq<Keyed<Json>>)
    requires DistinctKeys(fields)
    ensures Normalize(Object(fields), true) == Object(SortByKey(NormalizeFields(fields, true)))
    ensures DistinctKeys(NormalizeFields(fields, true))
  {
    hide Collapse, SortByKey;
    var fs := NormalizeFields(fields, true);
    SortDistinct(fs);
    assert [] + SortByKey(fs) == SortByKey(fs);
    CollapseIsAppend([], SortByKey(fs));
  }

  // ----- the text depends only on the normal form

  lemma {:induction false} DumpNormalized(v: Json, opts: DumpOptions, depth: nat)
    requires Distinct(v) && opts.sortKeys
    ensures Dump(Normalize(v, true), opts, depth) == Dump(v, opts, depth)
  {
    match v {
      case Array(items) =>
        var norm := NormalizeAll(items, true);
        forall i | 0 <= i < |items| ensures Dump(norm[i], opts, depth + 1) == Dump(items[i], opts, depth + 1) {
          DumpNormalized(items[i], opts, depth + 1);
        }
        assert DumpAll(norm, opts, depth + 1) == DumpAll(items, opts, depth + 1);
      case Object(fields) =>
        var norm := NormalizeFields(fields, true);
        forall i | 0 <= i < |fields|
          ensures Dump(norm[i].value, opts, depth + 1) == Dump(fields[i].value, opts, depth + 1)
        {
          DumpNormalized(fields[i].value, opts, depth + 1);
        }
        DumpNormalizedFields(fields, opts, depth);
      case _ =>
    }
  }

  lemma DumpNormalizedFields(fields: seq<Keyed<Json>>, opts: DumpOptions, depth: nat)
    requires DistinctKeys(fields) && opts.sortKeys
    requires
      var norm := NormalizeFields(fields, true);
      forall i :: 0 <= i < |fields| ==> Dump(norm[i].value, opts, depth + 1) == Dump(fields[i].value, opts, depth + 1)
    ensures Dump(Normalize(Object(fields), true), opts, depth) == Dump(Object(fields), opts, depth)
  {
    var norm := NormalizeFields(fields, true);
    SameTexts(norm, fields, opts, depth + 1);
    NormalizeSorted(fields);
    SortEffect(norm);
    DumpSortedObject(norm, opts, depth);
    ObjectText(norm, fields, opts, depth);
  }

  lemma SameTexts(norm: seq<Keyed<Json>>, fields: seq<Keyed<Json>>, opts: DumpOptions, depth: nat)
    requires |norm| == |fields| && forall i :: 0 <= i < |fields| ==> norm[i].key == fields[i].key
    requires forall i :: 0 <= i < |fields| ==> Dump(norm[i].value, opts, depth) == Dump(fields[i].value, opts, depth)
    ensures DumpFields(norm, opts, depth) == DumpFields(fields, opts, depth)
  {
    hide Dump;
  }

  lemma ObjectText(a: seq<Keyed<Json>>, b: seq<Keyed<Json>>, opts: DumpOptions, depth: nat)
    requires DumpFields(a, opts, depth + 1) == DumpFields(b, opts, depth + 1)
    ensures Dump(Object(a), opts, depth) == Dump(Object(b), opts, depth)
  {
    hide Ordered, Join, LayoutOf;
    assert |a| == |DumpFields(a, opts, depth + 1)| == |b|;
  }

  lemma DumpSortedObject(fields: seq<Keyed<Json>>, opts: DumpOptions, depth: nat)
    requires opts.sortKeys
    ensures Dump(Object(SortByKey(fields)), opts, depth) == Dump(Object(fields), opts, depth)
  {
    hide Join, LayoutOf, SortByKey;
    SortEffect(fields);
    SortAscending(SortByKey(fields));
    DumpOrdered(fields, opts, depth + 1);
    DumpOrdered(SortByKey(fields), opts, depth + 1);
  }

  // ----- similarity is equality of normal forms

  lemma {:induction false} SameNormalForm(v: Json, w: Json)
    requires Similar(v, w) && Distinct(v) && Distinct(w)
    ensures Normalize(v, true) == Normalize(w, true)
    decreases v
  {
    match v {
      case Array(items) =>
        forall i | 0 <= i < |items| ensures Normalize(items[i], true) == Normalize(w.items[i], true) {
          SameNormalForm(items[i], w.items[i]);
        }
        assert NormalizeAll(items, true) == NormalizeAll(w.items, true);
      case Object(fields) =>
        var a, b := NormalizeFields(fields, true), NormalizeFields(w.fields, true);
        NormalizeSorted(fields);
        NormalizeSorted(w.fields);
        forall i | 0 <= i < |a| ensures a[i] in b {
          assert HasMatch(fields[i].key, fields[i].value, w.fields);
          var j :| && 0 <= j < |w.fields|
                   && w.fields[j].key == fields[i].key && Similar(fields[i].value, w.fields[j].value);
          SameNormalForm(fields[i].value, w.fields[j].value);
          assert a[i] == b[j];
        }
        SubsetPermutes(a, b);
        SortPermuted(a, b);
      case _ =>
    }
  }

  /** Lists of equal length without repeated keys, one contained in the other, are permutations. */
  lemma {:induction false} SubsetPermutes<T>(a: seq<Keyed<T>>, b: seq<Keyed<T>>)
    requires |a| == |b| && DistinctKeys(a) && DistinctKeys(b)
    requires forall i :: 0 <= i < |a| ==> a[i] in b
    ensures multiset(a) == multiset(b)
  {
    hide DistinctKeys;
    if a != [] {
      assert a[0] in b;
      var j :| 0 <= j < |b| && b[j] == a[0];
      var b' := b[..j] + b[j + 1..];
      RemoveDistinct(b, j);
      RemoveDistinct(a, 0);
      assert a[..0] + a[1..] == a[1..];
      forall i | 0 <= i < |a[1..]| ensures a[1..][i] in b' {
        DistinctAt(a, i + 1);
        RemoveMember(b, j, a[i + 1]);
      }
      SubsetPermutes(a[1..], b');
      RemoveCount(a, 0);
      RemoveCount(b, j);
    }
  }

  lemma RemoveDistinct<T>(b: seq<Keyed<T>>, j: nat)
    requires DistinctKeys(b) && j < |b|
    ensures DistinctKeys(b[..j] + b[j + 1..])
  {
  }

  lemma DistinctAt<T>(a: seq<Keyed<T>>, i: nat)
    requires DistinctKeys(a) && 0 < i < |a|
    ensures a[i] != a[0]
  {
  }

  lemma RemoveCount<T>(b: seq<T>, j: nat)
    requires j < |b|
    ensures multiset(b) == multiset{b[j]} + multiset(b[..j] + b[j + 1..])
  {
    assert b == b[..j] + [b[j]] + b[j + 1..];
  }

  lemma RemoveMember<T>(b: seq<T>, j: nat, x: T)
    requires j < |b| && x in b && x != b[j]
    ensures x in b[..j] + b[j + 1..]
  {
    var k :| 0 <= k < |b| && b[k] == x;
    assert (b[..j] + b[j + 1..])[if k < j then k else k - 1] == x;
  }

  lemma {:induction false} SimilarNormalForms(v: Json, w: Json)
    requires Normalize(v, true) == Normalize(w, true) && Distinct(v) && Distinct(w)
    ensures Similar(v, w)
    decreases v
  {
    match v {
      case Array(items) =>
        assert NormalizeAll(items, true) == NormalizeAll(w.items, true);
        forall i | 0 <= i < |items| ensures Similar(items[i], w.items[i]) {
          assert NormalizeAll(items, true)[i] == NormalizeAll(w.items, true)[i];
          SimilarNormalForms(items[i], w.items[i]);
        }
      case Object(fields) =>
        var a, b := NormalizeFields(fields, true), NormalizeFields(w.fields, true);
        NormalizeSorted(fields);
        NormalizeSorted(w.fields);
        SortEffect(a);
        SortEffect(b);
        forall i | 0 <= i < |fields| ensures HasMatch(fields[i].key, fields[i].value, w.fields) {
          SameElements(a, b, a[i]);
          var j :| 0 <= j < |b| && b[j] == a[i];
          SimilarNormalForms(fields[i].value, w.fields[j].value);
        }
      case _ =>
        assert v == Normalize(w, true);
    }
  }

  // ----- the theorems

  lemma {:induction false} SomeBudget(v: Json) returns (budget: nat)
    ensures Fits(v, budget)
  {
    match v {
      case Array(items) =>
        var n := 0;
        for k := 0 to |items|
          invariant forall i :: 0 <= i < k ==> Fits(items[i], n)
        {
          var m := SomeBudget(items[k]);
          var n' := if m < n then n else m;
          FitsMore(items[k], m, n');
          forall i | 0 <= i < k ensures Fits(items[i], n') {
            FitsMore(items[i], n, n');
          }
          n := n';
        }
        budget := n + 1;
      case Object(fields) =>
        var n := 0;
        for k := 0 to |fields|
          invariant forall i :: 0 <= i < k ==> Fits(fields[i].value, n)
        {
          var m := SomeBudget(fields[k].value);
          var n' := if m < n then n else m;
          FitsMore(fields[k].value, m, n');
          forall i | 0 <= i < k ensures Fits(fields[i].value, n') {
            FitsMore(fields[i].value, n, n');
          }
          n := n';
        }
        budget := n + 1;
      case _ => budget := 0;
    }
  }

  lemma {:induction false} FitsMore(v: Json, m: nat, n: nat)
    requires Fits(v, m) && m <= n
    ensures Fits(v, n)
  {
    match v {
      case Array(items) =>
        forall i | 0 <= i < |items| ensures Fits(items[i], n - 1) {
          FitsMore(items[i], m - 1, n - 1);
        }
      case Object(fields) =>
        forall i | 0 <= i < |fields| ensures Fits(fields[i].value, n - 1) {
          FitsMore(fields[i].value, m - 1, n - 1);
        }
      case _ =>
    }
  }

  /** Equal texts were printed from equal normal forms: printing is injective up to
      normalization, for values of any depth. */
  lemma DumpsInjective(fp: Rounding, v: Json, w: Json, opts: DumpOptions)
    requires Valid(fp, v) && Valid(fp, w)
    requires Dumps(v, opts) == Dumps(w, opts)
    ensures Normalize(v, opts.sortKeys) == Normalize(w, opts.sortKeys)
  {
    hide Dump, Normalize, ParseValue, Valid;
    var m := SomeBudget(v);
    var n := SomeBudget(w);
    var budget := if m < n then n else m;
    FitsMore(v, m, budget);
    FitsMore(w, n, budget);
    ValueRoundTrip(fp, v, opts, 0, budget, []);
    ValueRoundTrip(fp, w, opts, 0, budget, []);
  }

  /** The signing text identifies a value exactly up to the order of fields at any level. */
  lemma SigningIsCanonical(fp: Rounding, v: Json, w: Json)
    requires Valid(fp, v) && Valid(fp, w) && Distinct(v) && Distinct(w)
    ensures Dumps(v, SIGNING) == Dumps(w, SIGNING) <==> Similar(v, w)
  {
    hide Dump, Normalize, Valid, Similar;
    if Similar(v, w) {
      SameNormalForm(v, w);
      DumpNormalized(v, SIGNING, 0);
      DumpNormalized(w, SIGNING, 0);
    }
    if Dumps(v, SIGNING) == Dumps(w, SIGNING) {
      DumpsInjective(fp, v, w, SIGNING);
      SimilarNormalForms(v, w);
    }
  }

  /** A server that parses a signing text and serialises what it parsed gets the text it was
      sent, so the signature it checks covers the same bytes. */
  lemma ReserialisedIsSigned(fp: Rounding, v: Json)
    requires Valid(fp, v) && Fits(v, MAX_DEPTH) && Distinct(v)
    ensures Parse(fp, Dumps(v, SIGNING)).Some?
    ensures Dumps(Parse(fp, Dumps(v, SIGNING)).value, SIGNING) == Dumps(v, SIGNING)
    ensures Similar(v, Parse(fp, Dumps(v, SIGNING)).value)
  {
    hide Dump, Normalize, Valid, Fits, Parse;
    ParseDumps(fp, v, SIGNING);
    DumpNormalized(v, SIGNING, 0);
    NormalizeIdempotent(v);
    SimilarNormalForms(v, Normalize(v, true));
  }

  lemma {:induction false} NormalizeIdempotent(v: Json)
    requires Distinct(v)
    ensures Distinct(Normalize(v, true)) && Normalize(Normalize(v, true), true) == Normalize(v, true)
  {
    match v {
      case Array(items) =>
        var a := NormalizeAll(items, true);
        forall i | 0 <= i < |items| ensures Distinct(a[i]) && Normalize(a[i], true) == a[i] {
          NormalizeIdempotent(items[i]);
        }
        assert NormalizeAll(a, true) == a;
      case Object(fields) =>
        var a := NormalizeFields(fields, true);
        forall i | 0 <= i < |fields| ensures Distinct(a[i].value) && Normalize(a[i].value, true) == a[i].value {
          NormalizeIdempotent(fields[i].value);
        }
        NormalizeSorted(fields);
        SortedFixed(a);
      case _ =>
    }
  }

  lemma SortedFixed(a: seq<Keyed<Json>>)
    requires DistinctKeys(a)
    requires forall i :: 0 <= i < |a| ==> Distinct(a[i].value) && Normalize(a[i].value, true) == a[i].value
    ensures Distinct(Object(SortByKey(a))) && Normalize(Object(SortByKey(a)), true) == Object(SortByKey(a))
  {
    hide Normalize, SortByKey;
    var s := SortByKey(a);
    SortEffect(a);
    SortDistinct(a);
    forall i | 0 <= i < |s| ensures Distinct(s[i].value) && Normalize(s[i].value, true) == s[i].value {
      SortMember(a, i);
    }
    assert NormalizeFields(s, true) == s;
    NormalizeSorted(s);
    SortAscending(s);
  }

  /** Canonicalising a text: parse it and print it in signing form.  Doing it twice changes
      nothing. */
  lemma SigningFormIdempotent(fp: Rounding, t: string)
    requires Proper(fp) && Parse(fp, t).Some?
    ensures
      var once := Dumps(Parse(fp, t).value, SIGNING);
      Parse(fp, once).Some? && Dumps(Parse(fp, once).value, SIGNING) == once
  {
    hide Parse, Dump, Valid, Fits, Distinct;
    ParseSound(fp, t);
    ReserialisedIsSigned(fp, Parse(fp, t).value);
  }
}
