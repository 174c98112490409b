/**
 Reading what was printed.  For every value and every combination of options, parsing the
 printed text gives the value back, up to the normalization that sorted and repeated keys
 call for.
 */
module RoundTrip {
  import opened Decimal
  import opened Grammar
  import opened Json
  import opened Printer
  import opened Scalars
  import opened Utf8

  // ----- where a printed value starts

  predicate ValueStart(t: string) {
    t != [] && !IsWs(t[0]) && t[0] != ']' && t[0] != '}'
  }

  lemma FloatStarts(f: Float)
    ensures ValueStart(FloatRepr(f))
  {
    if f.Finite? {
      assert IsDigit(Magnitude(f.d)[0]);
    }
  }

  lemma DumpStarts(fp: Rounding, v: Json, opts: DumpOptions, depth: nat)
    requires Valid(fp, v)
    ensures ValueStart(Dump(v, opts, depth))
  {
    hide FloatRepr, NatText, EscapeAll, Join;
    match v {
      case Float(f) => FloatStarts(f);
      case Int(n) => IntTextLiteral(n);
      case _ =>
    }
  }

  // ----- scalars

  lemma WordRoundTrip(fp: Rounding, word: string, rest: string, budget: nat)
    requires word in {"null", "true", "false", "NaN", "Infinity", "-Infinity"}
    ensures ParseValue(fp, word + rest, budget) == Ok(
      match word
      case "null" => Null
      case "true" => Bool(true)
      case "false" => Bool(false)
      case "NaN" => Float(NaN)
      case "Infinity" => Float(Infinity(false))
      case _ => Float(Infinity(true)),
      rest)
  {
    var t := word + rest;
    assert t[..|word|] == word && t[|word|..] == rest;
    assert t[0] == word[0];
  }

  /** A literal number is dispatched to `ParseNumber`. */
  lemma NumberDispatch(fp: Rounding, t: string, budget: nat)
    requires t != [] && (IsDigit(t[0]) || (t[0] == '-' && |t| > 1 && IsDigit(t[1])))
    ensures ParseValue(fp, t, budget) == ParseNumber(fp, t)
  {
    hide ParseNumber;
    assert "-Infinity"[1] == 'I';
    if |t| >= 9 {
      assert t[..9][1] == t[1];
    }
  }

  lemma IntegerValue(fp: Rounding, lit: string, rest: string, budget: nat)
    requires IsIntLiteral(lit) && Boundary(rest)
    ensures ParseValue(fp, lit + rest, budget) == Ok(IntegerOf(lit), rest)
  {
    hide ParseNumber, ParseValue, IntegerOf;
    NumberDispatch(fp, lit + rest, budget);
    IntegerRoundTrip(fp, lit, rest);
  }

  lemma FloatValue(fp: Rounding, f: Float, rest: string, budget: nat)
    requires Representable(fp, f) && Boundary(rest)
    ensures ParseValue(fp, FloatRepr(f) + rest, budget) == Ok(Float(f), rest)
  {
    hide ParseValue, Magnitude;
    match f {
      case NaN => WordRoundTrip(fp, "NaN", rest, budget);
      case Infinity(neg) => WordRoundTrip(fp, if neg then "-Infinity" else "Infinity", rest, budget);
      case Finite(d) =>
        FloatRoundTrip(fp, d, rest);
        FloatDigits(d);
        NumberDispatch(fp, FloatRepr(f) + rest, budget);
    }
  }

  lemma FloatDigits(d: Decimal)
    ensures Magnitude(d) != [] && IsDigit(Magnitude(d)[0])
  {
  }

  lemma StrValue(fp: Rounding, s: string, ascii: bool, rest: string, budget: nat)
    ensures ParseValue(fp, StrText(s, ascii) + rest, budget) == Ok(Str(s), rest)
  {
    hide ParseString, EscapeAll;
    QuotedRoundTrip(s, ascii, rest);
  }

  lemma ScalarRoundTrip(fp: Rounding, v: Json, opts: DumpOptions, depth: nat, budget: nat, rest: string)
    requires Valid(fp, v) && Boundary(rest) && !v.Array? && !v.Object?
    ensures ParseValue(fp, Dump(v, opts, depth) + rest, budget) == Ok(v, rest)
  {
    hide ParseValue, FloatRepr, StrText, IntText;
    match v {
      case Null => WordRoundTrip(fp, "null", rest, budget);
      case Bool(b) => WordRoundTrip(fp, if b then "true" else "false", rest, budget);
      case Int(n) => IntTextLiteral(n); IntegerValue(fp, IntText(n), rest, budget);
      case BigInt(lit) => IntegerValue(fp, lit, rest, budget);
      case Float(f) => FloatValue(fp, f, rest, budget);
      case Str(s) => StrValue(fp, s, opts.ensureAscii, rest, budget);
    }
  }

  // ----- containers

  /** The text from an entry's start to the end of its container, and the document after it. */
  function Tail(texts: seq<string>, lay: Layout, close: char, rest: string): string {
    Join(texts, lay) + lay.close + [close] + rest
  }

  /** What follows the first entry. */
  function After(texts: seq<string>, lay: Layout, close: char, rest: string): string
    requires texts != []
  {
    if |texts| == 1 then lay.close + [close] + rest else lay.itemSep + Tail(texts[1..], lay, close, rest)
  }

  lemma TailUnfold(texts: seq<string>, lay: Layout, close: char, rest: string)
    requires texts != []
    ensures Tail(texts, lay, close, rest) == lay.open + (texts[0] + After(texts, lay, close, rest))
  {
    if |texts| == 1 {
      AssocLast(lay.open, texts[0], lay.close, [close], rest);
    } else {
      AssocMore(lay.open, texts[0], lay.itemSep, Join(texts[1..], lay), lay.close, [close], rest);
    }
  }

  lemma AssocLast(a: string, b: string, c: string, d: string, e: string)
    ensures a + b + c + d + e == a + (b + (c + d + e))
  {
  }

  lemma AssocMore(a: string, b: string, c: string, j: string, d: string, e: string, f: string)
    ensures a + b + c + j + d + e + f == a + (b + (c + (j + d + e + f)))
  {
  }

  ghost predicate GoodLayout(lay: Layout) {
    && AllWs(lay.open) && AllWs(lay.close)
    && Starts(lay.itemSep, ',') && AllWs(lay.itemSep[1..])
    && Starts(lay.keySep, ':') && AllWs(lay.keySep[1..])
  }

  lemma LayoutShape(opts: DumpOptions, depth: nat)
    ensures GoodLayout(LayoutOf(opts, depth))
  {
  }

  predicate Closer(c: char) {
    c == ']' || c == '}'
  }

  lemma AfterBoundary(texts: seq<string>, lay: Layout, close: char, rest: string)
    requires texts != [] && GoodLayout(lay) && Closer(close)
    ensures Boundary(After(texts, lay, close, rest))
  {
    hide Tail;
    if |texts| == 1 && lay.close == [] {
      assert After(texts, lay, close, rest)[0] == close;
    }
  }

  lemma SkipToEntry(texts: seq<string>, lay: Layout, close: char, rest: string)
    requires texts != [] && GoodLayout(lay) && ValueStart(texts[0])
    ensures SkipWs(Tail(texts, lay, close, rest)) == texts[0] + After(texts, lay, close, rest)
  {
    hide Tail, After;
    TailUnfold(texts, lay, close, rest);
    SkipWsDrop(lay.open, texts[0] + After(texts, lay, close, rest));
  }

  /** After the last entry, white space and the closing bracket. */
  lemma SkipToClose(texts: seq<string>, lay: Layout, close: char, rest: string)
    requires |texts| == 1 && GoodLayout(lay) && Closer(close)
    ensures SkipWs(After(texts, lay, close, rest)) == [close] + rest
  {
    SkipWsDrop(lay.close, [close] + rest);
    assert lay.close + [close] + rest == lay.close + ([close] + rest);
  }

  /** After an entry that is not the last, a comma and, past white space, the next entry. */
  lemma SkipToNext(texts: seq<string>, lay: Layout, close: char, rest: string)
    requires |texts| > 1 && GoodLayout(lay)
    ensures
      var y := After(texts, lay, close, rest);
      && SkipWs(y) == y && Starts(y, ',')
      && SkipWs(y[1..]) == SkipWs(Tail(texts[1..], lay, close, rest))
  {
    hide Tail;
    var y, x := After(texts, lay, close, rest), Tail(texts[1..], lay, close, rest);
    assert y[1..] == lay.itemSep[1..] + x;
    SkipWsDrop(lay.itemSep[1..], x);
  }

  lemma ItemsSkipWs(fp: Rounding, t: string, u: string, budget: nat, items: seq<Json>)
    requires SkipWs(t) == SkipWs(u)
    ensures ParseItems(fp, t, budget, items) == ParseItems(fp, u, budget, items)
  {
    hide ParseValue;
  }

  lemma FieldsSkipWs(fp: Rounding, t: string, u: string, budget: nat, fields: seq<Keyed<Json>>)
    requires SkipWs(t) == SkipWs(u)
    ensures ParseFields(fp, t, budget, fields) == ParseFields(fp, u, budget, fields)
  {
    hide ParseField;
  }

  lemma ItemsLast(fp: Rounding, x: string, v: Json, y: string, rest: string, budget: nat, acc: seq<Json>)
    requires ParseValue(fp, SkipWs(x), budget) == Ok(v, y) && SkipWs(y) == [']'] + rest
    ensures ParseItems(fp, x, budget, acc) == Ok(Array(acc + [v]), rest)
  {
    hide ParseValue, SkipWs;
  }

  lemma ItemsMore(fp: Rounding, x: string, v: Json, y: string, budget: nat, acc: seq<Json>)
    requires ParseValue(fp, SkipWs(x), budget) == Ok(v, y) && SkipWs(y) == y && Starts(y, ',')
    ensures ParseItems(fp, x, budget, acc) == ParseItems(fp, y[1..], budget, acc + [v])
  {
    hide ParseValue, SkipWs;
  }

  lemma FieldsLast(fp: Rounding, x: string, f: Keyed<Json>, y: string, rest: string, budget: nat, acc: seq<Keyed<Json>>)
    requires ParseField(fp, SkipWs(x), budget) == Ok(f, y) && SkipWs(y) == ['}'] + rest
    ensures ParseFields(fp, x, budget, acc) == Ok(Object(Upsert(acc, f.key, f.value)), rest)
  {
    hide ParseField, SkipWs, Upsert;
  }

  lemma FieldsMore(fp: Rounding, x: string, f: Keyed<Json>, y: string, budget: nat, acc: seq<Keyed<Json>>)
    requires ParseField(fp, SkipWs(x), budget) == Ok(f, y) && SkipWs(y) == y && Starts(y, ',')
    ensures ParseFields(fp, x, budget, acc) == ParseFields(fp, y[1..], budget, Upsert(acc, f.key, f.value))
  {
    hide ParseField, SkipWs, Upsert;
  }

  /** Reading the printed items of an array. */
  lemma {:induction false} ItemsRoundTrip(
    fp: Rounding, v: Json, items: seq<Json>, opts: DumpOptions, depth: nat, budget: nat, acc: seq<Json>, rest: string)
    requires v.Array? && items != [] && forall i :: 0 <= i < |items| ==> items[i] in v.items
    requires forall i :: 0 <= i < |items| ==> Valid(fp, items[i]) && Fits(items[i], budget)
    ensures ParseItems(fp, Tail(DumpAll(items, opts, depth + 1), LayoutOf(opts, depth), ']', rest), budget, acc)
         == Ok(Array(acc + NormalizeAll(items, opts.sortKeys)), rest)
    decreases v, 0, |items|
  {
    hide Dump, Tail, After, ParseItems, ParseValue, Normalize, SkipWs, LayoutOf, Valid, Fits, GoodLayout;
    var texts, lay := DumpAll(items, opts, depth + 1), LayoutOf(opts, depth);
    var x := Tail(texts, lay, ']', rest);
    LayoutShape(opts, depth);
    DumpStarts(fp, items[0], opts, depth + 1);
    SkipToEntry(texts, lay, ']', rest);
    var y := After(texts, lay, ']', rest);
    AfterBoundary(texts, lay, ']', rest);
    ValueRoundTrip(fp, items[0], opts, depth + 1, budget, y);
    var value := Normalize(items[0], opts.sortKeys);
    var acc' := acc + [value];
    if |items| == 1 {
      SkipToClose(texts, lay, ']', rest);
      ItemsLast(fp, x, value, y, rest, budget, acc);
      assert acc' == acc + NormalizeAll(items, opts.sortKeys);
    } else {
      SkipToNext(texts, lay, ']', rest);
      ItemsMore(fp, x, value, y, budget, acc);
      assert texts[1..] == DumpAll(items[1..], opts, depth + 1);
      ItemsSkipWs(fp, y[1..], Tail(texts[1..], lay, ']', rest), budget, acc');
      ItemsRoundTrip(fp, v, items[1..], opts, depth, budget, acc', rest);
      assert acc' + NormalizeAll(items[1..], opts.sortKeys) == acc + NormalizeAll(items, opts.sortKeys);
    }
  }

  lemma FieldStarts(f: Keyed<string>, lay: Layout, ascii: bool)
    ensures ValueStart(FieldText(f, lay, ascii))
  {
  }

  /** Reading one printed field, key and value. */
  lemma FieldRoundTrip(fp: Rounding, key: string, text: string, value: Json, lay: Layout, ascii: bool,
      budget: nat, y: string)
    requires GoodLayout(lay) && ValueStart(text)
    requires ParseValue(fp, text + y, budget) == Ok(value, y)
    ensures ParseField(fp, FieldText(Keyed(key, text), lay, ascii) + y, budget) == Ok(Keyed(key, value), y)
  {
    hide ParseValue, ParseString, StrText;
    var x := lay.keySep + (text + y);
    assert FieldText(Keyed(key, text), lay, ascii) + y == StrText(key, ascii) + x;
    QuotedRoundTrip(key, ascii, x);
    assert SkipWs(x) == x;
    assert x[1..] == lay.keySep[1..] + (text + y);
    SkipWsDrop(lay.keySep[1..], text + y);
  }

  /** Reading the printed fields of an object. */
  lemma {:induction false} FieldsRoundTrip(
    fp: Rounding, v: Json, fields: seq<Keyed<Json>>, opts: DumpOptions, depth: nat, budget: nat,
    acc: seq<Keyed<Json>>, rest: string)
    requires v.Object? && fields != [] && forall i :: 0 <= i < |fields| ==> fields[i] in v.fields
    requires forall i :: 0 <= i < |fields| ==> Valid(fp, fields[i].value) && Fits(fields[i].value, budget)
    ensures
      var texts := FieldTexts(DumpFields(fields, opts, depth + 1), LayoutOf(opts, depth), opts.ensureAscii);
      ParseFields(fp, Tail(texts, LayoutOf(opts, depth), '}', rest), budget, acc)
        == Ok(Object(Collapse(acc, NormalizeFields(fields, opts.sortKeys))), rest)
    decreases v, 0, |fields|
  {
    hide Dump, Tail, After, ParseFields, ParseField, Normalize, SkipWs, LayoutOf, Valid, Fits, FieldText,
      Upsert, GoodLayout;
    var keyed, lay, ascii := DumpFields(fields, opts, depth + 1), LayoutOf(opts, depth), opts.ensureAscii;
    var texts := FieldTexts(keyed, lay, ascii);
    var x := Tail(texts, lay, '}', rest);
    LayoutShape(opts, depth);
    FieldStarts(keyed[0], lay, ascii);
    SkipToEntry(texts, lay, '}', rest);
    var y := After(texts, lay, '}', rest);
    AfterBoundary(texts, lay, '}', rest);
    DumpStarts(fp, fields[0].value, opts, depth + 1);
    ValueRoundTrip(fp, fields[0].value, opts, depth + 1, budget, y);
    var value := Normalize(fields[0].value, opts.sortKeys);
    FieldRoundTrip(fp, fields[0].key, keyed[0].value, value, lay, ascii, budget, y);
    var acc' := Upsert(acc, fields[0].key, value);
    var norm := NormalizeFields(fields, opts.sortKeys);
    assert norm[0] == Keyed(fields[0].key, value);
    if |fields| == 1 {
      SkipToClose(texts, lay, '}', rest);
      FieldsLast(fp, x, norm[0], y, rest, budget, acc);
      assert norm[1..] == [];
    } else {
      SkipToNext(texts, lay, '}', rest);
      FieldsMore(fp, x, norm[0], y, budget, acc);
      assert texts[1..] == FieldTexts(DumpFields(fields[1..], opts, depth + 1), lay, ascii);
      FieldsSkipWs(fp, y[1..], Tail(texts[1..], lay, '}', rest), budget, acc');
      FieldsRoundTrip(fp, v, fields[1..], opts, depth, budget, acc', rest);
      assert norm[1..] == NormalizeFields(fields[1..], opts.sortKeys);
    }
  }

  /** `[` and a non-empty printed list is read item by item. */
  lemma OpenArray(fp: Rounding, texts: seq<string>, lay: Layout, rest: string, budget: nat)
    requires texts != [] && GoodLayout(lay) && ValueStart(texts[0]) && budget > 0
    ensures ParseValue(fp, "[" + Tail(texts, lay, ']', rest), budget)
         == ParseItems(fp, Tail(texts, lay, ']', rest), budget - 1, [])
  {
    hide ParseItems, ParseFields, Tail;
    var x := Tail(texts, lay, ']', rest);
    assert ("[" + x)[1..] == x;
    SkipToEntry(texts, lay, ']', rest);
    SkipWsIdempotent(x);
    ItemsSkipWs(fp, SkipWs(x), x, budget - 1, []);
  }

  lemma OpenObject(fp: Rounding, texts: seq<string>, lay: Layout, rest: string, budget: nat)
    requires texts != [] && GoodLayout(lay) && ValueStart(texts[0]) && budget > 0
    ensures ParseValue(fp, "{" + Tail(texts, lay, '}', rest), budget)
         == ParseFields(fp, Tail(texts, lay, '}', rest), budget - 1, [])
  {
    hide ParseItems, ParseFields, Tail;
    var x := Tail(texts, lay, '}', rest);
    assert ("{" + x)[1..] == x;
    SkipToEntry(texts, lay, '}', rest);
    SkipWsIdempotent(x);
    FieldsSkipWs(fp, SkipWs(x), x, budget - 1, []);
  }

  /** Reading a printed value, followed by anything that may follow a value, gives the value
      in normal form and leaves what followed. */
  lemma {:induction false} ValueRoundTrip(fp: Rounding, v: Json, opts: DumpOptions, depth: nat, budget: nat,
      rest: string)
    requires Valid(fp, v) && Fits(v, budget) && Boundary(rest)
    ensures ParseValue(fp, Dump(v, opts, depth) + rest, budget) == Ok(Normalize(v, opts.sortKeys), rest)
    decreases v, 1
  {
    if v.Array? {
      ArrayRoundTrip(fp, v, opts, depth, budget, rest);
    } else if v.Object? {
      ObjectRoundTrip(fp, v, opts, depth, budget, rest);
    } else {
      ScalarRoundTrip(fp, v, opts, depth, budget, rest);
    }
  }

  lemma {:induction false} ArrayRoundTrip(fp: Rounding, v: Json, opts: DumpOptions, depth: nat, budget: nat,
      rest: string)
    requires v.Array? && Valid(fp, v) && Fits(v, budget) && Boundary(rest)
    ensures ParseValue(fp, Dump(v, opts, depth) + rest, budget) == Ok(Normalize(v, opts.sortKeys), rest)
    decreases v, 0
  {
    hide LayoutOf, ParseItems, ParseFields, Join;
    if v.items == [] {
      var t := "[]" + rest;
      assert t[1..] == "]" + rest && t[1..][1..] == rest;
      assert NormalizeAll(v.items, opts.sortKeys) == [];
    } else {
      ItemsDocument(fp, v, opts, depth, budget, rest);
    }
  }

  lemma {:induction false} ItemsDocument(fp: Rounding, v: Json, opts: DumpOptions, depth: nat, budget: nat,
      rest: string)
    requires v.Array? && v.items != [] && Valid(fp, v) && Fits(v, budget) && Boundary(rest)
    ensures ParseValue(fp, Dump(v, opts, depth) + rest, budget) == Ok(Normalize(v, opts.sortKeys), rest)
    decreases v, 0, |v.items| + 1
  {
    hide LayoutOf, ParseItems, ParseValue, Join;
    var texts, lay := DumpAll(v.items, opts, depth + 1), LayoutOf(opts, depth);
    assert Dump(v, opts, depth) + rest == "[" + Tail(texts, lay, ']', rest) by {
      AssocOpen("[", Join(texts, lay), lay.close, "]", rest);
    }
    LayoutShape(opts, depth);
    DumpStarts(fp, v.items[0], opts, depth + 1);
    OpenArray(fp, texts, lay, rest, budget);
    ItemsRoundTrip(fp, v, v.items, opts, depth, budget - 1, [], rest);
    assert [] + NormalizeAll(v.items, opts.sortKeys) == NormalizeAll(v.items, opts.sortKeys);
  }

  lemma AssocOpen(a: string, b: string, c: string, d: string, e: string)
    ensures a + b + c + d + e == a + (b + c + d + e)
  {
  }

  lemma OrderedMembers(fp: Rounding, fields: seq<Keyed<Json>>, opts: DumpOptions, budget: nat)
    requires forall i :: 0 <= i < |fields| ==> Valid(fp, fields[i].value) && Fits(fields[i].value, budget)
    ensures
      var fs := Ordered(fields, opts);
      && |fs| == |fields|
      && forall i :: 0 <= i < |fs| ==> fs[i] in fields && Valid(fp, fs[i].value) && Fits(fs[i].value, budget)
  {
    hide Valid, Fits;
    var fs := Ordered(fields, opts);
    SortEffect(fields);
    forall i | 0 <= i < |fs| ensures fs[i] in fields {
      if opts.sortKeys {
        SortMember(fields, i);
      }
    }
  }

  lemma NormalizeOrdered(fields: seq<Keyed<Json>>, opts: DumpOptions)
    ensures Ordered(NormalizeFields(fields, opts.sortKeys), opts)
         == NormalizeFields(Ordered(fields, opts), opts.sortKeys)
  {
    var f := (v: Json) => Normalize(v, opts.sortKeys);
    assert NormalizeFields(fields, opts.sortKeys) == MapValues(f, fields);
    assert NormalizeFields(Ordered(fields, opts), opts.sortKeys) == MapValues(f, Ordered(fields, opts));
    SortMap(f, fields);
  }

  lemma {:induction false} ObjectRoundTrip(fp: Rounding, v: Json, opts: DumpOptions, depth: nat, budget: nat,
      rest: string)
    requires v.Object? && Valid(fp, v) && Fits(v, budget) && Boundary(rest)
    ensures ParseValue(fp, Dump(v, opts, depth) + rest, budget) == Ok(Normalize(v, opts.sortKeys), rest)
    decreases v, 0
  {
    hide LayoutOf, ParseItems, ParseFields, Join;
    if v.fields == [] {
      var t := "{}" + rest;
      assert t[1..] == "}" + rest && t[1..][1..] == rest;
      assert NormalizeFields(v.fields, opts.sortKeys) == [];
    } else {
      FieldsDocument(fp, v, opts, depth, budget, rest);
    }
  }

  lemma {:induction false} FieldsDocument(fp: Rounding, v: Json, opts: DumpOptions, depth: nat, budget: nat,
      rest: string)
    requires v.Object? && v.fields != [] && Valid(fp, v) && Fits(v, budget) && Boundary(rest)
    ensures ParseValue(fp, Dump(v, opts, depth) + rest, budget) == Ok(Normalize(v, opts.sortKeys), rest)
    decreases v, 0, |v.fields| + 1
  {
    hide LayoutOf, ParseFields, ParseValue, Join, Ordered, Collapse;
    var fs, lay := Ordered(v.fields, opts), LayoutOf(opts, depth);
    OrderedMembers(fp, v.fields, opts, budget - 1);
    DumpOrdered(v.fields, opts, depth + 1);
    NormalizeOrdered(v.fields, opts);
    var texts := FieldTexts(DumpFields(fs, opts, depth + 1), lay, opts.ensureAscii);
    assert Dump(v, opts, depth) + rest == "{" + Tail(texts, lay, '}', rest) by {
      AssocOpen("{", Join(texts, lay), lay.close, "}", rest);
    }
    LayoutShape(opts, depth);
    FieldStarts(DumpFields(fs, opts, depth + 1)[0], lay, opts.ensureAscii);
    OpenObject(fp, texts, lay, rest, budget);
    FieldsRoundTrip(fp, v, fs, opts, depth, budget - 1, [], rest);
    NormalizeObject(v, opts);
  }

  lemma NormalizeObject(v: Json, opts: DumpOptions)
    requires v.Object?
    ensures Normalize(v, opts.sortKeys) == Object(Collapse([], Ordered(NormalizeFields(v.fields, opts.sortKeys), opts)))
  {
  }

  /** Parsing the printed text of any value gives the value in normal form, for every
      combination of options. */
  lemma ParseDumps(fp: Rounding, v: Json, opts: DumpOptions)
    requires Valid(fp, v) && Fits(v, MAX_DEPTH)
    ensures Parse(fp, Dumps(v, opts)) == Some(Normalize(v, opts.sortKeys))
  {
    hide ParseValue, Dump, Normalize;
    ValueRoundTrip(fp, v, opts, 0, MAX_DEPTH, []);
    DumpStarts(fp, v, opts, 0);
    assert Dump(v, opts, 0) + [] == Dump(v, opts, 0);
  }

  /** Without repeated keys and without sorting, printing loses nothing. */
  lemma ParseDumpsExact(fp: Rounding, v: Json, opts: DumpOptions)
    requires Valid(fp, v) && Fits(v, MAX_DEPTH) && Distinct(v) && !opts.sortKeys
    ensures Parse(fp, Dumps(v, opts)) == Some(v)
  {
    ParseDumps(fp, v, opts);
    NormalizeUnsorted(v);
  }
}
