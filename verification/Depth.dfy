/**
 Reading printed text back at any depth: the text of a value deeper than the parser's limit is
 refused, and no text is ever read as another value than the one printed.
 */
module Depth {
  import opened Canonical
  import opened Context
  import opened Decimal
  import opened Documents
  import opened Grammar
  import opened Json
  import opened Printer
  import opened RoundTrip
  import opened Syntax

  // ----- what is read fits the limit

  predicate FieldsFit(fields: seq<Keyed<Json>>, n: nat) {
    forall i :: 0 <= i < |fields| ==> Fits(fields[i].value, n)
  }

  lemma ConsFits(f: Keyed<Json>, fields: seq<Keyed<Json>>, n: nat)
    ensures FieldsFit([f] + fields, n) <==> Fits(f.value, n) && FieldsFit(fields, n)
  {
    hide Fits;
    var all := [f] + fields;
    assert all[0] == f && forall i :: 0 <= i < |fields| ==> all[i + 1] == fields[i];
  }

  lemma {:induction false} UpsertFits(fields: seq<Keyed<Json>>, key: string, value: Json, n: nat)
    requires Fits(value, n) && FieldsFit(fields, n)
    ensures FieldsFit(Upsert(fields, key, value), n)
  {
    hide Fits, FieldsFit;
    if fields == [] {
      ConsFits(Keyed(key, value), [], n);
      assert [Keyed(key, value)] + [] == [Keyed(key, value)];
      NoneFit(n);
    } else {
      assert fields == [fields[0]] + fields[1..];
      ConsFits(fields[0], fields[1..], n);
      if fields[0].key == key {
        ConsFits(Keyed(key, value), fields[1..], n);
      } else {
        UpsertFits(fields[1..], key, value, n);
        ConsFits(fields[0], Upsert(fields[1..], key, value), n);
      }
    }
  }

  lemma NoneFit(n: nat)
    ensures FieldsFit([], n)
  {
  }

  lemma {:induction false} CollapseFits(fields: seq<Keyed<Json>>, more: seq<Keyed<Json>>, n: nat)
    requires FieldsFit(fields, n) && FieldsFit(more, n)
    ensures FieldsFit(Collapse(fields, more), n)
    decreases |more|
  {
    hide Fits, FieldsFit, Upsert;
    if more != [] {
      assert more == [more[0]] + more[1..];
      ConsFits(more[0], more[1..], n);
      UpsertFits(fields, more[0].key, more[0].value, n);
      CollapseFits(Upsert(fields, more[0].key, more[0].value), more[1..], n);
    }
  }

  lemma {:induction false} TreeFits(fp: Rounding, t: Tree, budget: nat)
    requires Good(t, budget)
    ensures Fits(TreeValue(fp, t, budget), budget)
    decreases t
  {
    hide Collapse, IntegerOf, LiteralValue, UnitsValue, GoodUnits, ItemsValue, MembersValue, GoodItems, GoodMembers,
      WordValue;
    match t {
      case Word(w) => WordFits(w, budget);
      case Number(_, _, _, _) => NumberFits(fp, t, budget);
      case List(items) => ItemsFit(fp, items, budget - 1);
      case Record(members) =>
        MembersFit(fp, members, budget - 1);
        NoneFit(budget - 1);
        CollapseFits([], MembersValue(fp, members, budget - 1), budget - 1);
      case _ =>
    }
  }

  lemma WordFits(w: string, budget: nat)
    ensures Fits(WordValue(w), budget)
  {
  }

  lemma NumberFits(fp: Rounding, t: Tree, budget: nat)
    requires t.Number? && Good(t, budget)
    ensures Fits(TreeValue(fp, t, budget), budget)
  {
  }

  lemma {:induction false} ItemsFit(fp: Rounding, s: Items, budget: nat)
    requires GoodItems(s, budget)
    ensures forall i :: 0 <= i < |ItemsValue(fp, s, budget)| ==> Fits(ItemsValue(fp, s, budget)[i], budget)
    decreases s
  {
    hide TreeValue, Good, Fits;
    TreeFits(fp, s.value, budget);
    var vs := ItemsValue(fp, s, budget);
    if s.NextItem? {
      ItemsFit(fp, s.more, budget);
      assert forall i :: 0 < i < |vs| ==> vs[i] == ItemsValue(fp, s.more, budget)[i - 1];
    }
    assert vs[0] == TreeValue(fp, s.value, budget);
  }

  lemma {:induction false} MembersFit(fp: Rounding, s: Members, budget: nat)
    requires GoodMembers(s, budget)
    ensures FieldsFit(MembersValue(fp, s, budget), budget)
    decreases s
  {
    hide TreeValue, Good, Fits, UnitsValue, GoodUnits, FieldsFit;
    TreeFits(fp, s.value, budget);
    NoneFit(budget);
    var more := if s.NextMember? then MembersValue(fp, s.more, budget) else [];
    ConsFits(Keyed(UnitsValue(s.key), TreeValue(fp, s.value, budget)), more, budget);
    if s.NextMember? {
      MembersFit(fp, s.more, budget);
    }
  }

  lemma ParsedFits(fp: Rounding, text: string)
    requires Parse(fp, text).Some?
    ensures Fits(Parse(fp, text).value, MAX_DEPTH)
  {
    hide Parse, Good, TreeText, TreeValue, Fits;
    var v := Parse(fp, text).value;
    ParseIsExact(fp, text, v);
    var before, tree, after :| DenotesBy(fp, text, v, before, tree, after);
    TreeFits(fp, tree, MAX_DEPTH);
  }

  // ----- what is read is what was printed

  /** Text printed from a value of any depth is read as the value's normal form or not at all. */
  lemma ReadBack(fp: Rounding, v: Json, opts: DumpOptions)
    requires Valid(fp, v) && Parse(fp, Dumps(v, opts)).Some?
    ensures Parse(fp, Dumps(v, opts)).value == Normalize(v, opts.sortKeys)
  {
    hide Dump, Normalize, ParseValue, Valid, SkipWs, IsSpace;
    var text := Dumps(v, opts);
    DumpStarts(fp, v, opts, 0);
    SkipTo("", text);
    assert "" + text == text;
    var rest := ParseValue(fp, text, MAX_DEPTH).rest;
    AllSkipped(rest);
    SpaceBoundary(rest);
    var m := SomeBudget(v);
    var budget := if m < MAX_DEPTH then MAX_DEPTH else m;
    FitsMore(v, m, budget);
    ValueRoundTrip(fp, v, opts, 0, budget, []);
    assert rest + [] == rest && text + [] == text;
    ValueExtend(fp, text, [], MAX_DEPTH, budget);
  }

  /** Sorting and merging do not make a value without repeated keys any less deep. */
  lemma {:induction false} DepthKept(v: Json, sort: bool, n: nat)
    requires Distinct(v) && Fits(Normalize(v, sort), n)
    ensures Fits(v, n)
  {
    if !sort {
      NormalizeUnsorted(v);
    } else {
      match v {
        case Array(items) =>
          forall i | 0 <= i < |items| ensures Fits(items[i], n - 1) {
            DepthKept(items[i], sort, n - 1);
          }
        case Object(fields) =>
          ObjectDepth(fields, n);
          forall i | 0 <= i < |fields| ensures Fits(fields[i].value, n - 1) {
            DepthKept(fields[i].value, sort, n - 1);
          }
        case _ =>
      }
    }
  }

  lemma ObjectDepth(fields: seq<Keyed<Json>>, n: nat)
    requires DistinctKeys(fields) && Fits(Normalize(Object(fields), true), n)
    ensures n > 0 && forall i :: 0 <= i < |fields| ==> Fits(Normalize(fields[i].value, true), n - 1)
  {
    hide Normalize, SortByKey, DistinctKeys;
    var fs := NormalizeFields(fields, true);
    NormalizeSorted(fields);
    SortEffect(fs);
    forall i | 0 <= i < |fields| ensures Fits(Normalize(fields[i].value, true), n - 1) {
      assert fs[i] in fs;
      SameElements(fs, SortByKey(fs), fs[i]);
      var j :| 0 <= j < |SortByKey(fs)| && SortByKey(fs)[j] == fs[i];
    }
  }

  /** The text of a value is accepted exactly when the value is within the parser's depth. */
  lemma AcceptedWithinDepth(fp: Rounding, v: Json, opts: DumpOptions)
    requires Valid(fp, v) && Distinct(v)
    ensures Parse(fp, Dumps(v, opts)).Some? <==> Fits(v, 512)
  {
    hide Dump, Parse, Normalize, Valid, Fits, Distinct;
    if Fits(v, MAX_DEPTH) {
      ParseDumps(fp, v, opts);
    }
    if Parse(fp, Dumps(v, opts)).Some? {
      ReadBack(fp, v, opts);
      ParsedFits(fp, Dumps(v, opts));
      DepthKept(v, opts.sortKeys, MAX_DEPTH);
    }
  }

  // ----- values of a given depth

  /** `n` arrays, one inside the other. */
  function Nest(n: nat): Json {
    if n == 0 then Null else Array([Nest(n - 1)])
  }

  lemma {:induction false} NestDepth(fp: Rounding, n: nat, k: nat)
    ensures Valid(fp, Nest(n)) && Distinct(Nest(n))
    ensures Fits(Nest(n), k) <==> n <= k
  {
    if n > 0 {
      var v := Nest(n);
      NestDepth(fp, n - 1, if k == 0 then 0 else k - 1);
      assert v.items[0] == Nest(n - 1);
      assert Fits(v, k) <==> k > 0 && Fits(v.items[0], k - 1);
    }
  }
}
