/**
 A value is read the same way wherever it stands: parsing it does not depend on the text
 after it, beyond the first delimiter, nor on how much nesting is still allowed.
 */
module Context {
  import opened Decimal
  import opened Grammar
  import opened Json
  import opened Scalars

  lemma {:induction false} SkipWsExtend(t: string, x: string)
    requires SkipWs(t) != []
    ensures SkipWs(t + x) == SkipWs(t) + x
  {
    if t != [] && IsWs(t[0]) {
      SkipWsExtend(t[1..], x);
      assert (t + x)[1..] == t[1..] + x;
    }
  }

  // ----- strings

  lemma Hex4Extend(t: string, x: string)
    requires Hex4(t).Ok?
    ensures Hex4(t + x) == Ok(Hex4(t).value, Hex4(t).rest + x)
  {
    hide HexVal;
    assert (t + x)[4..] == t[4..] + x;
  }

  lemma UnicodeExtend(t: string, x: string)
    requires ParseUnicode(t).Ok?
    ensures ParseUnicode(t + x) == Ok(ParseUnicode(t).value, ParseUnicode(t).rest + x)
  {
    hide Hex4;
    Hex4Extend(t, x);
    var Ok(hi, t1) := Hex4(t);
    if 0xD800 <= hi < 0xDC00 {
      assert StartsWith(t1, "\\u");
      assert (t1 + x)[..2] == t1[..2] && (t1 + x)[2..] == t1[2..] + x;
      Hex4Extend(t1[2..], x);
    }
  }

  lemma EscapeExtend(t: string, x: string)
    requires ParseEscape(t).Ok?
    ensures ParseEscape(t + x) == Ok(ParseEscape(t).value, ParseEscape(t).rest + x)
  {
    hide ParseUnicode;
    assert (t + x)[1..] == t[1..] + x;
    if t[0] == 'u' {
      UnicodeExtend(t[1..], x);
    }
  }

  lemma {:induction false} StringExtend(t: string, x: string, out: string)
    requires ParseString(t, out).Ok?
    ensures ParseString(t + x, out) == Ok(ParseString(t, out).value, ParseString(t, out).rest + x)
    decreases |t|
  {
    hide ParseEscape;
    assert (t + x)[1..] == t[1..] + x;
    if t[0] == '"' {
    } else if t[0] == '\\' {
      EscapeExtend(t[1..], x);
      var Ok(c, rest) := ParseEscape(t[1..]);
      StringExtend(rest, x, out + [c]);
    } else {
      StringExtend(t[1..], x, out + [t[0]]);
    }
  }

  // ----- numbers

  lemma {:induction false} DigitCountExtend(t: string, x: string)
    requires NoDigit(t[DigitCount(t)..] + x)
    ensures DigitCount(t + x) == DigitCount(t)
  {
    if t != [] && IsDigit(t[0]) {
      assert t[1..][DigitCount(t[1..])..] == t[DigitCount(t)..];
      DigitCountExtend(t[1..], x);
      assert (t + x)[1..] == t[1..] + x;
    } else {
      assert t[0..] == t;
    }
  }

  lemma IntLenExtend(t: string, x: string)
    requires IntLen(t) > 0 && NoDigit(t[IntLen(t)..] + x)
    ensures IntLen(t + x) == IntLen(t)
  {
    if !Starts(t, '0') {
      DigitCountExtend(t, x);
    }
  }

  lemma FracLenExtend(t: string, x: string)
    requires NoDigit(t[FracLen(t)..] + x)
    requires FracLen(t) == 0 ==> !Starts(t + x, '.')
    ensures FracLen(t + x) == FracLen(t)
  {
    if FracLen(t) > 0 {
      assert (t + x)[1..] == t[1..] + x;
      assert t[1..][DigitCount(t[1..])..] == t[FracLen(t)..];
      DigitCountExtend(t[1..], x);
    }
  }

  lemma ExpLenExtend(t: string, x: string)
    requires ExpLen(t) > 0 && NoDigit(t[ExpLen(t)..] + x)
    ensures ExpLen(t + x) == ExpLen(t) && ExpValue(t + x) == ExpValue(t)
  {
    var m := ExpMark(t);
    assert ExpMark(t + x) == m;
    assert (t + x)[m..] == t[m..] + x;
    assert t[m..][DigitCount(t[m..])..] == t[ExpLen(t)..];
    DigitCountExtend(t[m..], x);
    assert (t + x)[m..ExpLen(t)] == t[m..ExpLen(t)];
  }

  lemma NumberShape(fp: Rounding, t: string)
    requires ParseNumber(fp, t).Ok?
    ensures
      var s := SignLen(t);
      var a := IntLen(t[s..]);
      var t1 := t[s + a..];
      var t2 := t1[FracLen(t1)..];
      && a > 0
      && ParseNumber(fp, t).rest == t2[ExpLen(t2)..]
      && IsIntLiteral(t[..s + a])
      && (FracLen(t1) == 0 && ExpLen(t2) == 0 ==> ParseNumber(fp, t) == Ok(IntegerOf(t[..s + a]), t1))
  {
    hide IntegerOf, LiteralValue, IntLen, FracLen, ExpLen, ExpValue, IsIntLiteral;
    IntLiteralShape(t);
  }

  lemma SliceExtend(t: string, x: string, s: nat, a: nat)
    requires s + a <= |t|
    ensures (t + x)[s..] == t[s..] + x && (t + x)[s + a..] == t[s + a..] + x && t[s..][a..] == t[s + a..]
    ensures (t + x)[..s + a] == t[..s + a] && (t[s..] + x)[..a] == t[s..][..a]
  {
  }

  lemma SignExtend(fp: Rounding, t: string, x: string)
    requires ParseNumber(fp, t).Ok?
    ensures SignLen(t + x) == SignLen(t)
  {
  }

  lemma IntegerExtend(fp: Rounding, t: string, x: string)
    requires
      var s := SignLen(t);
      var a := IntLen(t[s..]);
      var t1 := t[s + a..];
      a > 0 && IsIntLiteral(t[..s + a]) && Boundary(t1 + x) && NoDigit(t1 + x) && SignLen(t + x) == s
    ensures
      var n := SignLen(t) + IntLen(t[SignLen(t)..]);
      ParseNumber(fp, t + x) == Ok(IntegerOf(t[..n]), t[n..] + x)
  {
    hide ParseNumber, IntegerOf, IntLen, IsIntLiteral, SignLen, Boundary, AllDigits, NoDigit;
    var s := SignLen(t);
    var a := IntLen(t[s..]);
    SliceExtend(t, x, s, a);
    IntLenExtend(t[s..], x);
    IntegerOfParts(fp, t + x, s, t[..s + a], t[s + a..] + x);
  }

  lemma FloatExtend(fp: Rounding, t: string, x: string, s: nat, a: nat, t1: string, f: nat, t2: string, e: nat)
    requires s == SignLen(t) == SignLen(t + x) && a == IntLen(t[s..]) > 0 && t1 == t[s + a..]
    requires f == FracLen(t1) && t2 == t1[f..] && e == ExpLen(t2) && (f > 0 || e > 0)
    requires Boundary(t2[e..] + x)
    ensures ParseNumber(fp, t).Ok? && ParseNumber(fp, t + x) == Ok(ParseNumber(fp, t).value, t2[e..] + x)
  {
    hide ParseNumber, LiteralValue, IntLen, FracLen, ExpLen, ExpValue, SignLen, Boundary, NoDigit;
    SliceExtend(t, x, s, a);
    NumberTails(t1, t2, f, e, x);
    IntLenExtend(t[s..], x);
    var frac := if f == 0 then [] else t1[1..f];
    FloatOf(fp, t, s, t[s..][..a], t1, frac, t2, t2[e..]);
    FloatOf(fp, t + x, s, t[s..][..a], t1 + x, frac, t2 + x, t2[e..] + x);
  }

  /** Text after a number, from a boundary on, does not change how the number is read. */
  lemma NumberExtend(fp: Rounding, t: string, x: string)
    requires ParseNumber(fp, t).Ok? && Boundary(ParseNumber(fp, t).rest + x)
    ensures ParseNumber(fp, t + x) == Ok(ParseNumber(fp, t).value, ParseNumber(fp, t).rest + x)
  {
    hide ParseNumber, IntegerOf, LiteralValue, IntLen, FracLen, ExpLen, ExpValue, IsIntLiteral, SignLen,
      Boundary, AllDigits;
    NumberShape(fp, t);
    SignExtend(fp, t, x);
    var s := SignLen(t);
    var a := IntLen(t[s..]);
    var t1 := t[s + a..];
    var f := FracLen(t1);
    var t2 := t1[f..];
    var e := ExpLen(t2);
    if f == 0 && e == 0 {
      assert t2 == t1 && t2[e..] == t2;
      BoundaryNoDigit(t1 + x);
      IntegerExtend(fp, t, x);
    } else {
      FloatExtend(fp, t, x, s, a, t1, f, t2, e);
    }
  }

  lemma BoundaryNoDigit(t: string)
    requires Boundary(t)
    ensures NoDigit(t)
  {
  }

  lemma NumberTails(t1: string, t2: string, f: nat, e: nat, x: string)
    requires f == FracLen(t1) && t2 == t1[f..] && e == ExpLen(t2) && Boundary(t2[e..] + x)
    ensures NoDigit(t1 + x) && FracLen(t1 + x) == f && (t1 + x)[f..] == t2 + x
    ensures ExpLen(t2 + x) == e && (t2 + x)[e..] == t2[e..] + x && ExpValue(t2 + x) == ExpValue(t2)
    ensures f > 0 ==> (t1 + x)[1..f] == t1[1..f]
  {
    hide FracLen, ExpValue, ExpLen;
    assert t2[0..] == t2 && t1[0..] == t1;
    if e > 0 {
      ExpLenExtend(t2, x);
    } else {
      NoExponent(t2 + x);
      NoExponent(t2);
    }
    FracLenExtend(t1, x);
    FracStart(t1);
  }

  lemma NoExponent(t: string)
    requires ExpLen(t) == 0 || Boundary(t)
    ensures ExpLen(t) == 0 && ExpValue(t) == 0
  {
  }

  lemma FracStart(t: string)
    ensures FracLen(t) > 0 ==> Starts(t, '.')
  {
  }

  // ----- values

  lemma LiteralExtend(t: string, x: string)
    requires ParseLiteral(t).Ok?
    ensures ParseLiteral(t + x) == Ok(ParseLiteral(t).value, ParseLiteral(t).rest + x)
  {
    forall n | 0 <= n <= |t| ensures (t + x)[..n] == t[..n] && (t + x)[n..] == t[n..] + x {
    }
    assert t[0] == (t + x)[0];
    LiteralStart(t, "null");
    LiteralStart(t, "true");
    LiteralStart(t, "false");
    LiteralStart(t, "NaN");
    LiteralStart(t, "Infinity");
    LiteralStart(t + x, "null");
    LiteralStart(t + x, "true");
    LiteralStart(t + x, "false");
    LiteralStart(t + x, "NaN");
    LiteralStart(t + x, "Infinity");
  }

  lemma LiteralStart(t: string, w: string)
    requires w != []
    ensures StartsWith(t, w) ==> Starts(t, w[0])
  {
    if StartsWith(t, w) {
      assert t[..|w|][0] == t[0];
    }
  }

  /** After a value inside a container, the text goes on with a delimiter, so what comes after
      the container does not matter. */
  lemma DelimitedExtend(t1: string, x: string, c: char)
    requires Starts(SkipWs(t1), c) && (c == ',' || c == ']' || c == '}')
    ensures Boundary(t1 + x) && SkipWs(t1 + x) == SkipWs(t1) + x
    ensures (SkipWs(t1) + x)[1..] == SkipWs(t1)[1..] + x
  {
    SkipWsExtend(t1, x);
  }

  lemma {:induction false} ValueExtend(fp: Rounding, t: string, x: string, budget: nat, more: nat)
    requires ParseValue(fp, t, budget).Ok? && budget <= more && Boundary(ParseValue(fp, t, budget).rest + x)
    ensures ParseValue(fp, t + x, more) == Ok(ParseValue(fp, t, budget).value, ParseValue(fp, t, budget).rest + x)
    decreases |t|, 0
  {
    hide ParseNumber, ParseString, ParseItems, ParseFields, SkipWs, ParseLiteral;
    assert (t + x)[1..] == t[1..] + x;
    if Starts(t, '{') {
      OpenExtend(fp, t, x, budget, more, '}');
      if !Starts(SkipWs(t[1..]), '}') {
        FieldsExtend(fp, SkipWs(t[1..]), x, budget - 1, more - 1, []);
      }
    } else if Starts(t, '[') {
      OpenExtend(fp, t, x, budget, more, ']');
      if !Starts(SkipWs(t[1..]), ']') {
        ItemsExtend(fp, SkipWs(t[1..]), x, budget - 1, more - 1, []);
      }
    } else if Starts(t, '"') {
      StringExtend(t[1..], x, []);
    } else if Starts(t, '-') || (t != [] && IsDigit(t[0])) {
      NumberValueExtend(fp, t, x, budget, more);
    } else {
      LiteralExtend(t, x);
      assert (t + x)[0] == t[0];
    }
  }

  /** An opened container is not empty text: it continues inside `t`. */
  lemma OpenExtend(fp: Rounding, t: string, x: string, budget: nat, more: nat, close: char)
    requires ParseValue(fp, t, budget).Ok? && t != [] && (t[0] == '{' || t[0] == '[')
    requires close == if t[0] == '{' then '}' else ']'
    ensures SkipWs(t[1..]) != [] && SkipWs(t[1..] + x) == SkipWs(t[1..]) + x && budget > 0
    ensures (SkipWs(t[1..]) + x)[1..] == SkipWs(t[1..])[1..] + x
  {
    hide SkipWs;
    if !Starts(SkipWs(t[1..]), close) {
      assert SkipWs([]) == [];
      ContainerNotEmpty(fp, budget - 1);
    }
    SkipWsExtend(t[1..], x);
  }

  lemma ContainerNotEmpty(fp: Rounding, budget: nat)
    ensures ParseItems(fp, [], budget, []).Err? && ParseFields(fp, [], budget, []).Err?
    ensures SkipWs([]) == []
  {
  }

  lemma NumberValueExtend(fp: Rounding, t: string, x: string, budget: nat, more: nat)
    requires t != [] && (t[0] == '-' || IsDigit(t[0]))
    requires ParseValue(fp, t, budget).Ok? && Boundary(ParseValue(fp, t, budget).rest + x)
    ensures ParseValue(fp, t + x, more) == Ok(ParseValue(fp, t, budget).value, ParseValue(fp, t, budget).rest + x)
  {
    hide ParseNumber;
    if StartsWith(t, "-Infinity") {
      assert (t + x)[..9] == t[..9] && (t + x)[9..] == t[9..] + x;
    } else {
      NumberExtend(fp, t, x);
      if t[0] == '-' {
        SecondDigit(fp, t);
        assert (t + x)[1] == t[1];
      }
      assert "-Infinity"[1] == 'I';
      if |t + x| >= 9 {
        assert (t + x)[..9][1] == (t + x)[1];
      }
    }
  }

  lemma SecondDigit(fp: Rounding, t: string)
    requires ParseNumber(fp, t).Ok? && Starts(t, '-')
    ensures |t| > 1 && IsDigit(t[1])
  {
    assert t[1..][..IntLen(t[1..])][0] == t[1];
  }

  lemma {:induction false} ItemsExtend(fp: Rounding, t: string, x: string, budget: nat, more: nat, items: seq<Json>)
    requires ParseItems(fp, t, budget, items).Ok? && budget <= more
    ensures ParseItems(fp, t + x, more, items)
         == Ok(ParseItems(fp, t, budget, items).value, ParseItems(fp, t, budget, items).rest + x)
    decreases |t|, 1
  {
    hide ParseValue, SkipWs;
    ValueNotEmpty(fp, budget);
    SkipWsExtend(t, x);
    var Ok(v, t1) := ParseValue(fp, SkipWs(t), budget);
    var c := if Starts(SkipWs(t1), ']') then ']' else ',';
    DelimitedExtend(t1, x, c);
    ValueExtend(fp, SkipWs(t), x, budget, more);
    if c == ',' {
      ItemsExtend(fp, SkipWs(t1)[1..], x, budget, more, items + [v]);
    }
  }

  lemma ValueNotEmpty(fp: Rounding, budget: nat)
    ensures ParseValue(fp, [], budget).Err? && ParseField(fp, [], budget).Err?
  {
  }

  lemma {:induction false} FieldExtend(fp: Rounding, t: string, x: string, budget: nat, more: nat)
    requires ParseField(fp, t, budget).Ok? && budget <= more && Boundary(ParseField(fp, t, budget).rest + x)
    ensures ParseField(fp, t + x, more) == Ok(ParseField(fp, t, budget).value, ParseField(fp, t, budget).rest + x)
    decreases |t|, 1
  {
    hide ParseValue, SkipWs, ParseString;
    assert (t + x)[1..] == t[1..] + x;
    StringExtend(t[1..], x, []);
    var Ok(k, t1) := ParseString(t[1..], []);
    var t2 := SkipWs(t1);
    SkipWsExtend(t1, x);
    assert (t2 + x)[1..] == t2[1..] + x;
    ValueNotEmpty(fp, budget);
    SkipWsExtend(t2[1..], x);
    ValueExtend(fp, SkipWs(t2[1..]), x, budget, more);
  }

  lemma {:induction false} FieldsExtend(fp: Rounding, t: string, x: string, budget: nat, more: nat,
      fields: seq<Keyed<Json>>)
    requires ParseFields(fp, t, budget, fields).Ok? && budget <= more
    ensures ParseFields(fp, t + x, more, fields)
         == Ok(ParseFields(fp, t, budget, fields).value, ParseFields(fp, t, budget, fields).rest + x)
    decreases |t|, 2
  {
    hide ParseField, SkipWs, Upsert;
    ValueNotEmpty(fp, budget);
    SkipWsExtend(t, x);
    var Ok(f, t1) := ParseField(fp, SkipWs(t), budget);
    var c := if Starts(SkipWs(t1), '}') then '}' else ',';
    DelimitedExtend(t1, x, c);
    FieldExtend(fp, SkipWs(t), x, budget, more);
    if c == ',' {
      FieldsExtend(fp, SkipWs(t1)[1..], x, budget, more, Upsert(fields, f.key, f.value));
    }
  }
}
