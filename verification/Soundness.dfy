/**
 What every successful parse guarantees, whatever the text: values of bounded depth with
 distinct keys that the program can hold, and therefore can print and read again.
 */
module Soundness {
  import opened Decimal
  import opened Grammar
  import opened Json
  import opened Printer
  import opened RoundTrip
  import opened Utf8

  ghost predicate Good(fp: Rounding, v: Json, budget: nat) {
    Valid(fp, v) && Fits(v, budget) && Distinct(v)
  }

  lemma NumberSound(fp: Rounding, t: string, budget: nat)
    requires Proper(fp) && ParseNumber(fp, t).Ok?
    ensures Good(fp, ParseNumber(fp, t).value, budget)
  {
    hide LiteralValue, IntLen, FracLen, ExpLen, ExpValue, SignLen;
    IntLiteralShape(t);
  }

  lemma {:induction false} ValueSound(fp: Rounding, t: string, budget: nat)
    requires Proper(fp) && ParseValue(fp, t, budget).Ok?
    ensures Good(fp, ParseValue(fp, t, budget).value, budget)
    decreases |t|, 0
  {
    hide ParseNumber, ParseString, ParseItems, ParseFields, SkipWs, ParseLiteral, StartsWith;
    if Starts(t, '{') {
      if !Starts(SkipWs(t[1..]), '}') {
        FieldsSound(fp, SkipWs(t[1..]), budget - 1, []);
      }
    } else if Starts(t, '[') {
      if !Starts(SkipWs(t[1..]), ']') {
        ItemsSound(fp, SkipWs(t[1..]), budget - 1, []);
      }
    } else if Starts(t, '"') {
    } else if Starts(t, '-') || (t != [] && IsDigit(t[0])) {
      if !StartsWith(t, "-Infinity") {
        NumberSound(fp, t, budget);
      }
    } else {
      LiteralSound(fp, t, budget);
    }
  }

  lemma LiteralSound(fp: Rounding, t: string, budget: nat)
    requires ParseLiteral(t).Ok?
    ensures Good(fp, ParseLiteral(t).value, budget)
  {
    hide StartsWith;
  }

  lemma {:induction false} ItemsSound(fp: Rounding, t: string, budget: nat, items: seq<Json>)
    requires Proper(fp) && ParseItems(fp, t, budget, items).Ok?
    requires forall i :: 0 <= i < |items| ==> Good(fp, items[i], budget)
    ensures Good(fp, ParseItems(fp, t, budget, items).value, budget + 1)
    decreases |t|, 1
  {
    hide ParseValue, SkipWs;
    ValueSound(fp, SkipWs(t), budget);
    var Ok(v, t1) := ParseValue(fp, SkipWs(t), budget);
    if !Starts(SkipWs(t1), ']') {
      ItemsSound(fp, SkipWs(t1)[1..], budget, items + [v]);
    }
  }

  lemma {:induction false} FieldsSound(fp: Rounding, t: string, budget: nat, fields: seq<Keyed<Json>>)
    requires Proper(fp) && ParseFields(fp, t, budget, fields).Ok?
    requires DistinctKeys(fields) && forall i :: 0 <= i < |fields| ==> Good(fp, fields[i].value, budget)
    ensures Good(fp, ParseFields(fp, t, budget, fields).value, budget + 1)
    decreases |t|, 2
  {
    hide ParseField, SkipWs, Upsert, Good;
    FieldSound(fp, SkipWs(t), budget);
    var Ok(f, t1) := ParseField(fp, SkipWs(t), budget);
    var fields' := Upsert(fields, f.key, f.value);
    UpsertGood(fp, fields, f, budget);
    if Starts(SkipWs(t1), '}') {
      ObjectGood(fp, fields', budget);
    } else {
      FieldsSound(fp, SkipWs(t1)[1..], budget, fields');
    }
  }

  lemma ObjectGood(fp: Rounding, fields: seq<Keyed<Json>>, budget: nat)
    requires DistinctKeys(fields) && forall i :: 0 <= i < |fields| ==> Good(fp, fields[i].value, budget)
    ensures Good(fp, Object(fields), budget + 1)
  {
  }

  lemma UpsertGood(fp: Rounding, fields: seq<Keyed<Json>>, f: Keyed<Json>, budget: nat)
    requires DistinctKeys(fields) && forall i :: 0 <= i < |fields| ==> Good(fp, fields[i].value, budget)
    requires Good(fp, f.value, budget)
    ensures
      var fields' := Upsert(fields, f.key, f.value);
      DistinctKeys(fields') && forall i :: 0 <= i < |fields'| ==> Good(fp, fields'[i].value, budget)
  {
    hide Upsert, Good;
    UpsertEffect(fields, f.key, f.value);
  }

  lemma {:induction false} FieldSound(fp: Rounding, t: string, budget: nat)
    requires Proper(fp) && ParseField(fp, t, budget).Ok?
    ensures Good(fp, ParseField(fp, t, budget).value.value, budget)
    decreases |t|, 1
  {
    hide ParseValue, SkipWs, ParseString;
    var Ok(k, t1) := ParseString(t[1..], []);
    ValueSound(fp, SkipWs(SkipWs(t1)[1..]), budget);
  }

  /** Every parsed value nests at most 512 deep, has distinct keys in every object, and holds
      only in-range integers, out-of-range integer literals and representable floats. */
  lemma ParseSound(fp: Rounding, t: string)
    requires Proper(fp) && Parse(fp, t).Some?
    ensures Valid(fp, Parse(fp, t).value)
    ensures Fits(Parse(fp, t).value, 512)
    ensures Distinct(Parse(fp, t).value)
  {
    ValueSound(fp, SkipWs(t), MAX_DEPTH);
  }

  /** Whatever text a value was read from, printing it without sorting and reading it again
      gives the same value. */
  lemma ReparseExact(fp: Rounding, t: string, opts: DumpOptions)
    requires Proper(fp) && Parse(fp, t).Some? && !opts.sortKeys
    ensures Parse(fp, Dumps(Parse(fp, t).value, opts)) == Parse(fp, t)
  {
    ParseSound(fp, t);
    ParseDumpsExact(fp, Parse(fp, t).value, opts);
  }
}
