/**
 Reading printed scalars: strings with their escapes and surrogate pairs, integers of any
 size, and floats in both of their printed forms.
 */
module Scalars {
  import opened Decimal
  import opened Grammar
  import opened Json
  import opened Printer
  import opened Utf8

  /** What may follow a value inside a document: the end, white space, or a delimiter. */
  predicate Boundary(t: string) {
    t == [] || IsWs(t[0]) || t[0] == ',' || t[0] == ']' || t[0] == '}'
  }

  predicate AllWs(w: string) {
    forall i :: 0 <= i < |w| ==> IsWs(w[i])
  }

  // ----- white space

  lemma {:induction false} SkipWsDrop(w: string, t: string)
    requires AllWs(w)
    ensures SkipWs(w + t) == SkipWs(t)
  {
    if w == [] {
      assert w + t == t;
    } else {
      SkipWsDrop(w[1..], t);
      assert (w + t)[1..] == w[1..] + t;
    }
  }

  lemma {:induction false} SkipWsIdempotent(t: string)
    ensures SkipWs(SkipWs(t)) == SkipWs(t)
  {
    if t != [] && IsWs(t[0]) {
      SkipWsIdempotent(t[1..]);
    }
  }

  // ----- strings

  lemma HexValDigit(d: nat)
    requires d < 16
    ensures IsHex(HexDigit(d)) && HexVal(HexDigit(d)) == d && HexDigit(d) != '+'
  {
  }

  lemma Hex4RoundTrip(n: nat, x: string)
    requires n < 0x10000
    ensures Hex4(Hex4Text(n) + x) == Ok(n, x)
  {
    HexValDigit(n / 4096);
    HexValDigit(n / 256 % 16);
    HexValDigit(n / 16 % 16);
    HexValDigit(n % 16);
    hide HexDigit, HexVal;
    var t := Hex4Text(n) + x;
    assert t[4..] == x;
    HexPlaces(n);
  }

  lemma HexPlaces(n: nat)
    requires n < 0x10000
    ensures n / 4096 * 4096 + n / 256 % 16 * 256 + n / 16 % 16 * 16 + n % 16 == n
  {
    assert n / 16 / 16 == n / 256 && n / 256 / 16 == n / 4096;
    assert n == n / 16 * 16 + n % 16;
    assert n / 16 == n / 256 * 16 + n / 16 % 16;
  }

  lemma PairRoundTrip(hi: nat, lo: nat, x: string)
    requires 0xD800 <= hi < 0xDC00 && 0xDC00 <= lo < 0xE000
    ensures ParseUnicode(Hex4Text(hi) + (UnitText(lo) + x))
         == ScalarOf(0x10000 + (hi - 0xD800) * 1024 + (lo - 0xDC00), x)
  {
    hide Hex4Text, Hex4;
    var t1 := UnitText(lo) + x;
    Hex4RoundTrip(hi, t1);
    assert t1[..2] == "\\u" && t1[2..] == Hex4Text(lo) + x;
    Hex4RoundTrip(lo, x);
  }

  lemma SurrogatePlaces(n: int)
    requires 0x10000 <= n < 0x110000
    ensures
      var hi, lo := 0xD800 + (n - 0x10000) / 1024, 0xDC00 + (n - 0x10000) % 1024;
      && 0xD800 <= hi < 0xDC00 && 0xDC00 <= lo < 0xE000
      && 0x10000 + (hi - 0xD800) * 1024 + (lo - 0xDC00) == n
  {
  }

  /** A character's UTF-16 escapes are read as that character: surrogate pairs decode. */
  lemma Utf16RoundTrip(c: char, x: string)
    ensures |Utf16Text(c)| >= 2 && Utf16Text(c)[..2] == "\\u"
    ensures ParseUnicode(Utf16Text(c)[2..] + x) == Ok(c, x)
  {
    hide Hex4Text, Hex4, ParseUnicode;
    var n := c as int;
    if n < 0x10000 {
      assert Utf16Text(c)[2..] == Hex4Text(n);
      UnitRoundTrip(c, x);
    } else {
      SurrogatePlaces(n);
      var hi, lo := 0xD800 + (n - 0x10000) / 1024, 0xDC00 + (n - 0x10000) % 1024;
      assert Utf16Text(c)[2..] + x == Hex4Text(hi) + (UnitText(lo) + x);
      PairRoundTrip(hi, lo, x);
    }
  }

  lemma UnitRoundTrip(c: char, x: string)
    requires c as int < 0x10000
    ensures ParseUnicode(Hex4Text(c as int) + x) == Ok(c, x)
  {
    hide Hex4Text, Hex4;
    Hex4RoundTrip(c as int, x);
  }

  lemma UnicodeStep(c: char, x: string)
    ensures ParseEscape(Utf16Text(c)[1..] + x) == Ok(c, x)
  {
    hide Utf16Text, ParseUnicode;
    Utf16RoundTrip(c, x);
    var u := Utf16Text(c)[1..] + x;
    assert "\\u"[1] == 'u';
    assert u[0] == 'u' && u[1..] == Utf16Text(c)[2..] + x;
  }

  lemma ShortStep(c: char, e: char, x: string)
    requires ParseEscape([e]) == Ok(c, [])
    ensures ParseEscape([e] + x) == Ok(c, x)
  {
    assert ([e] + x)[1..] == x;
  }

  /** An escaped character is a backslash and an escape that is read as the character. */
  lemma EscapeStep(c: char, ascii: bool, x: string)
    requires EscapeChar(c, ascii) != [c]
    ensures EscapeChar(c, ascii) != [] && EscapeChar(c, ascii)[0] == '\\'
    ensures ParseEscape(EscapeChar(c, ascii)[1..] + x) == Ok(c, x)
  {
    var e := EscapeChar(c, ascii);
    if |e| == 2 {
      assert e[1..] == [e[1]];
      ShortStep(c, e[1], x);
    } else {
      assert e == Utf16Text(c);
      UnicodeStep(c, x);
    }
  }

  lemma PlainChar(c: char, ascii: bool)
    requires EscapeChar(c, ascii) == [c]
    ensures c != '"' && c != '\\' && c as int >= 32
  {
  }

  lemma CharRoundTrip(c: char, ascii: bool, x: string, out: string)
    ensures ParseString(EscapeChar(c, ascii) + x, out) == ParseString(x, out + [c])
  {
    hide EscapeChar, ParseEscape;
    var e := EscapeChar(c, ascii);
    var t := e + x;
    if e == [c] {
      PlainChar(c, ascii);
      assert t[1..] == x;
    } else {
      EscapeStep(c, ascii, x);
      assert t[1..] == e[1..] + x;
    }
  }

  /** Printed strings are read back exactly, in both escaping modes. */
  lemma {:induction false} StringRoundTrip(s: string, ascii: bool, rest: string, out: string)
    ensures ParseString(EscapeAll(s, ascii) + "\"" + rest, out) == Ok(out + s, rest)
  {
    hide EscapeChar, ParseEscape;
    if s == [] {
      var t := EscapeAll(s, ascii) + "\"" + rest;
      assert t == ['"'] + rest;
      assert out + s == out;
    } else {
      var x := EscapeAll(s[1..], ascii) + "\"" + rest;
      assert EscapeAll(s, ascii) + "\"" + rest == EscapeChar(s[0], ascii) + x;
      CharRoundTrip(s[0], ascii, x, out);
      StringRoundTrip(s[1..], ascii, rest, out + [s[0]]);
      assert out + [s[0]] + s[1..] == out + s;
    }
  }

  lemma QuotedRoundTrip(s: string, ascii: bool, rest: string)
    ensures
      var t := StrText(s, ascii) + rest;
      Starts(t, '"') && ParseString(t[1..], []) == Ok(s, rest)
  {
    var t := StrText(s, ascii) + rest;
    assert t[1..] == EscapeAll(s, ascii) + "\"" + rest;
    StringRoundTrip(s, ascii, rest, []);
    assert [] + s == s;
  }

  // ----- numbers

  predicate NoDigit(x: string) {
    x == [] || !IsDigit(x[0])
  }

  lemma {:induction false} DigitCountExact(d: string, x: string)
    requires AllDigits(d) && NoDigit(x)
    ensures DigitCount(d + x) == |d|
  {
    if d == [] {
      assert d + x == x;
    } else {
      DigitCountExact(d[1..], x);
      assert (d + x)[1..] == d[1..] + x;
    }
  }

  lemma IntLenExact(ip: string, x: string)
    requires IsNatLiteral(ip) && NoDigit(x)
    ensures IntLen(ip + x) == |ip|
  {
    DigitCountExact(ip, x);
  }

  lemma FracLenExact(frac: string, x: string)
    requires frac != [] && AllDigits(frac) && NoDigit(x)
    ensures FracLen("." + frac + x) == 1 + |frac|
  {
    var t := "." + frac + x;
    assert t[1..] == frac + x;
    DigitCountExact(frac, x);
  }

  lemma ExpExact(e: int, x: string)
    requires NoDigit(x)
    ensures ExpLen("e" + Exponent(e) + x) == |Exponent(e)| + 1
    ensures ExpValue("e" + Exponent(e) + x) == e
  {
    hide NatVal, ExpLen, ExpValue, NoDigit, AllDigits;
    var m := if e < 0 then -e else e;
    var t := "e" + Exponent(e) + x;
    assert t == (if e < 0 then "e-" else "e+") + (Padded(m) + x);
    DigitsAfterMark(t, Padded(m), x);
    NatValPadded(m);
  }

  lemma DigitsAfterMark(t: string, digits: string, x: string)
    requires digits != [] && AllDigits(digits) && NoDigit(x)
    requires t == "e-" + (digits + x) || t == "e+" + (digits + x)
    ensures ExpLen(t) == |digits| + 2
    ensures ExpValue(t) == if t[1] == '-' then -(NatVal(digits) as int) else NatVal(digits)
  {
    hide NatVal, DigitCount, NoDigit, ExpLen, ExpValue, AllDigits;
    assert t[0] == 'e' && ExpMark(t) == 2;
    assert t[2..] == digits + x;
    DigitCountExact(digits, x);
    ExpOfMark(t, digits, x);
  }

  lemma ExpOfMark(t: string, digits: string, x: string)
    requires Starts(t, 'e') && ExpMark(t) == 2 && digits != [] && AllDigits(digits)
    requires t[2..] == digits + x && DigitCount(t[2..]) == |digits|
    ensures ExpLen(t) == |digits| + 2
    ensures ExpValue(t) == if t[1] == '-' then -(NatVal(digits) as int) else NatVal(digits)
  {
    hide NatVal, DigitCount, AllDigits, ExpMark;
    assert t[2..|digits| + 2] == t[2..][..|digits|] == digits;
  }

  /** An integer literal, up to a boundary, is read as the integer it names. */
  lemma IntegerRoundTrip(fp: Rounding, lit: string, rest: string)
    requires IsIntLiteral(lit) && Boundary(rest)
    ensures ParseNumber(fp, lit + rest) == Ok(IntegerOf(lit), rest)
  {
    var s := if lit[0] == '-' then 1 else 0;
    var t := lit + rest;
    assert lit[0..] == lit;
    assert SignLen(t) == s;
    assert t[s..] == lit[s..] + rest;
    IntLenExact(lit[s..], rest);
    assert t[..|lit|] == lit && t[|lit|..] == rest;
    IntegerOfParts(fp, t, s, lit, rest);
  }

  /** `ParseNumber`'s integer branch, from the lengths of its parts. */
  lemma IntegerOfParts(fp: Rounding, t: string, s: nat, lit: string, rest: string)
    requires s == SignLen(t) && s < |lit| && IntLen(t[s..]) == |lit| - s && IsIntLiteral(lit)
    requires |lit| <= |t| && t[..|lit|] == lit && t[|lit|..] == rest && Boundary(rest)
    ensures ParseNumber(fp, t) == Ok(IntegerOf(lit), rest)
  {
    hide IntLen, IntegerOf, IsIntLiteral;
    assert FracLen(rest) == 0 && ExpLen(rest) == 0;
    assert rest[0..] == rest;
  }

  lemma IntTextLiteral(n: int)
    ensures IsIntLiteral(IntText(n)) && IntLiteralValue(IntText(n)) == n
  {
    var m := if n < 0 then -n else n;
    NatTextLead(m);
    NatValText(m);
    if n < 0 {
      assert IntText(n)[1..] == NatText(m);
    }
  }

  function FracText(frac: string): string {
    if frac == [] then [] else "." + frac
  }

  function ExpText(exp: Option<int>): string {
    if exp.None? then [] else "e" + Exponent(exp.value)
  }

  /** The text of an unsigned float literal. */
  function FloatLit(ip: string, frac: string, exp: Option<int>): string {
    ip + FracText(frac) + ExpText(exp)
  }

  function SignText(neg: bool): string {
    if neg then "-" else ""
  }

  function ValueOr0(exp: Option<int>): int {
    if exp.None? then 0 else exp.value
  }

  lemma FloatTailExact(frac: string, exp: Option<int>, rest: string)
    requires AllDigits(frac) && Boundary(rest) && (frac != [] || exp.Some?)
    ensures
      var t2 := ExpText(exp) + rest;
      var t1 := FracText(frac) + t2;
      && NoDigit(t1)
      && FracLen(t1) == (if frac == [] then 0 else 1 + |frac|)
      && t1[FracLen(t1)..] == t2
      && (frac != [] ==> t1[1..FracLen(t1)] == frac)
      && t2[ExpLen(t2)..] == rest
      && ExpValue(t2) == ValueOr0(exp)
      && (exp.Some? ==> ExpLen(t2) > 0)
  {
    hide Exponent, DigitCount;
    var t2 := ExpText(exp) + rest;
    if exp.Some? {
      ExpExact(exp.value, rest);
    }
    if frac != [] {
      FracLenExact(frac, t2);
      assert "." + frac + t2 == ("." + frac) + t2;
    }
  }

  lemma Concat(a: string, b: string, c: string, d: string, e: string)
    ensures a + (b + c + d) + e == a + (b + (c + (d + e)))
  {
  }

  lemma SignedTail(neg: bool, ip: string, t1: string)
    requires IsNatLiteral(ip)
    ensures
      var t := SignText(neg) + (ip + t1);
      var s := if neg then 1 else 0;
      && SignLen(t) == s && t[s..] == ip + t1 && t[s..][..|ip|] == ip && t[s + |ip|..] == t1
  {
    assert IsDigit(ip[0]);
  }

  /** A float literal, up to a boundary, is read as the decimal its parts denote, rounded. */
  lemma FloatLitRoundTrip(fp: Rounding, neg: bool, ip: string, frac: string, exp: Option<int>, rest: string)
    requires IsNatLiteral(ip) && AllDigits(frac) && Boundary(rest) && (frac != [] || exp.Some?)
    ensures ParseNumber(fp, SignText(neg) + FloatLit(ip, frac, exp) + rest)
         == Ok(Float(fp(LiteralValue(neg, ip, frac, ValueOr0(exp)))), rest)
  {
    hide ExpText, FracText, SignText, IntLen, FracLen, ExpLen, ExpValue, LiteralValue, ParseNumber, SignLen, ValueOr0;
    var t2 := ExpText(exp) + rest;
    var t1 := FracText(frac) + t2;
    Concat(SignText(neg), ip, FracText(frac), ExpText(exp), rest);
    SignedTail(neg, ip, t1);
    FloatTailExact(frac, exp, rest);
    IntLenExact(ip, t1);
    FloatOf(fp, SignText(neg) + (ip + t1), if neg then 1 else 0, ip, t1, frac, t2, rest);
  }

  /** `ParseNumber`'s float branch, from the lengths of its parts. */
  lemma FloatOf(fp: Rounding, t: string, s: nat, ip: string, t1: string, frac: string, t2: string, rest: string)
    requires s == SignLen(t) && |ip| > 0 && IntLen(t[s..]) == |ip| && t[s..][..|ip|] == ip && t[s + |ip|..] == t1
    requires AllDigits(ip) && AllDigits(frac)
    requires FracLen(t1) == (if frac == [] then 0 else 1 + |frac|) && t1[FracLen(t1)..] == t2
    requires frac != [] ==> t1[1..FracLen(t1)] == frac
    requires t2[ExpLen(t2)..] == rest && (frac != [] || ExpLen(t2) > 0)
    ensures ParseNumber(fp, t) == Ok(Float(fp(LiteralValue(s == 1, ip, frac, ExpValue(t2)))), rest)
  {
    hide IntLen, FracLen, ExpLen, ExpValue, LiteralValue, SignLen, AllDigits;
  }

  predicate EndsAlike(a: string, b: string) {
    a != [] && b != [] && a[|a| - 1] == b[|b| - 1]
  }

  /** The parts `Magnitude` prints, and the decimal they denote: both branches of `float_repr`
      name the number they were given. */
  lemma MagnitudeParts(neg: bool, d: Decimal) returns (ip: string, frac: string, exp: Option<int>)
    requires Canonical(d) && d.neg == neg
    ensures Magnitude(d) == FloatLit(ip, frac, exp)
    ensures IsNatLiteral(ip) && AllDigits(frac) && (frac != [] || exp.Some?)
    ensures LiteralValue(neg, ip, frac, ValueOr0(exp)) == d
    ensures exp.Some? <==> d.coef != 0 && !(-4 <= Scientific(d) < 16)
    ensures exp.Some? ==> |ip| == 1 && ip[0] == NatText(d.coef)[0]
    ensures (exp.Some? && frac == []) || (exp.None? && frac == "0") || (d.coef != 0 && EndsAlike(frac, NatText(d.coef)))
  {
    hide NatText, Positional, Mantissa, FloatLit, LiteralValue;
    var digits := NatText(d.coef);
    if d.coef != 0 && !(-4 <= Scientific(d) < 16) {
      ip, frac, exp := digits[..1], digits[1..], Some(Scientific(d));
      ScientificParts(neg, d);
    } else if d.exp >= 0 {
      ip, frac, exp := digits + Zeros(d.exp), "0", None;
      IntegralParts(neg, d);
    } else if |digits| > -d.exp {
      ip, frac, exp := digits[..|digits| + d.exp], digits[|digits| + d.exp..], None;
      PointParts(neg, d);
    } else {
      ip, frac, exp := "0", Zeros(-d.exp - |digits|) + digits, None;
      FractionParts(neg, d);
    }
  }

  lemma DigitsOf(neg: bool, d: Decimal, ip: string, frac: string)
    requires Canonical(d) && d.neg == neg && ip + frac == NatText(d.coef) && ip != []
    ensures IsNatLiteral(ip) && AllDigits(frac)
    ensures LiteralValue(neg, ip, frac, d.exp + |frac|) == d
  {
    hide NatText, NatVal;
    NatTextLead(d.coef);
    NatValText(d.coef);
    assert forall i :: 0 <= i < |ip| ==> ip[i] == (ip + frac)[i];
    assert forall i :: 0 <= i < |frac| ==> frac[i] == (ip + frac)[|ip| + i];
  }

  lemma ScientificParts(neg: bool, d: Decimal)
    requires Canonical(d) && d.neg == neg && d.coef != 0
    ensures
      var digits := NatText(d.coef);
      && Mantissa(digits) + "e" + Exponent(Scientific(d)) == FloatLit(digits[..1], digits[1..], Some(Scientific(d)))
      && IsNatLiteral(digits[..1]) && AllDigits(digits[1..])
      && LiteralValue(neg, digits[..1], digits[1..], Scientific(d)) == d
  {
    hide NatText, Exponent, LiteralValue;
    var digits := NatText(d.coef);
    assert digits[..1] + digits[1..] == digits;
    DigitsOf(neg, d, digits[..1], digits[1..]);
  }

  lemma IntegralParts(neg: bool, d: Decimal)
    requires Canonical(d) && d.neg == neg && d.exp >= 0 && (d.coef == 0 ==> d.exp == 0)
    ensures
      var ip := NatText(d.coef) + Zeros(d.exp);
      && Positional(NatText(d.coef), d.exp) == FloatLit(ip, "0", None)
      && IsNatLiteral(ip) && LiteralValue(neg, ip, "0", 0) == d
  {
    hide NatText, LiteralValue;
    NatTextLead(d.coef);
    IntegralValue(neg, d);
    assert "." + "0" == ".0";
  }

  lemma PointParts(neg: bool, d: Decimal)
    requires Canonical(d) && d.neg == neg && d.exp < 0 && |NatText(d.coef)| > -d.exp
    ensures
      var digits := NatText(d.coef);
      var n := |digits| + d.exp;
      && Positional(digits, d.exp) == FloatLit(digits[..n], digits[n..], None)
      && IsNatLiteral(digits[..n]) && AllDigits(digits[n..]) && digits[n..] != []
      && LiteralValue(neg, digits[..n], digits[n..], 0) == d
  {
    hide NatText, LiteralValue;
    var digits := NatText(d.coef);
    var n := |digits| + d.exp;
    assert digits[..n] + digits[n..] == digits;
    DigitsOf(neg, d, digits[..n], digits[n..]);
  }

  lemma FractionParts(neg: bool, d: Decimal)
    requires Canonical(d) && d.neg == neg && -d.exp >= |NatText(d.coef)|
    ensures
      var frac := Zeros(-d.exp - |NatText(d.coef)|) + NatText(d.coef);
      && Positional(NatText(d.coef), d.exp) == FloatLit("0", frac, None)
      && AllDigits(frac) && frac != [] && IsNatLiteral("0") && LiteralValue(neg, "0", frac, 0) == d
  {
    hide NatText, LiteralValue;
    FractionValue(neg, d);
    assert "0." == "0" + ".";
  }

  lemma IntegralValue(neg: bool, d: Decimal)
    requires Canonical(d) && d.neg == neg && d.exp >= 0
    ensures AllDigits(NatText(d.coef) + Zeros(d.exp))
    ensures LiteralValue(neg, NatText(d.coef) + Zeros(d.exp), "0", 0) == d
  {
    var digits := NatText(d.coef);
    assert digits + Zeros(d.exp) + "0" == digits + Zeros(d.exp + 1);
    NatValAppend(digits, Zeros(d.exp + 1));
    NatValZeros(d.exp + 1);
    NatValText(d.coef);
    MakeScale(neg, d.coef, d.exp + 1, -1);
  }

  lemma FractionValue(neg: bool, d: Decimal)
    requires Canonical(d) && d.neg == neg && -d.exp >= |NatText(d.coef)|
    ensures
      var frac := Zeros(-d.exp - |NatText(d.coef)|) + NatText(d.coef);
      AllDigits(frac) && LiteralValue(neg, "0", frac, 0) == d
  {
    hide NatText, NatVal, Pow10, Make;
    var digits := NatText(d.coef);
    var zeros := Zeros(-d.exp - |digits|);
    NatValAppend("0", zeros + digits);
    NatValAppend(zeros, digits);
    NatValZeros(|zeros|);
    NatValText(d.coef);
    NatValZero();
  }

  lemma NatValZero()
    ensures NatVal("0") == 0
  {
  }

  /** Reading a printed float gives the float back, whatever the rounding. */
  lemma FloatRoundTrip(fp: Rounding, d: Decimal, rest: string)
    requires Canonical(d) && Boundary(rest)
    ensures ParseNumber(fp, FloatRepr(Finite(d)) + rest) == Ok(Float(fp(d)), rest)
    ensures
      var t := FloatRepr(Finite(d)) + rest;
      (Starts(t, '-') || IsDigit(t[0])) && !StartsWith(t, "-Infinity")
  {
    hide Magnitude, LiteralValue, FloatLit, ParseNumber;
    var ip, frac, exp := MagnitudeParts(d.neg, d);
    FloatLitRoundTrip(fp, d.neg, ip, frac, exp, rest);
    FloatStart(ip, frac, exp);
    assert "-Infinity"[1] == 'I';
  }

  lemma FloatStart(ip: string, frac: string, exp: Option<int>)
    requires IsNatLiteral(ip)
    ensures FloatLit(ip, frac, exp) != [] && IsDigit(FloatLit(ip, frac, exp)[0])
  {
    assert FloatLit(ip, frac, exp)[0] == ip[0];
  }
}
