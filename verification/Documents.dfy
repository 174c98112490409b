/**
 The parser accepts exactly the documents of the grammar, and reads each as what it means.
 */
module Documents {
  import opened Decimal
  import opened Grammar
  import opened Json
  import opened RoundTrip
  import opened Scalars
  import opened Syntax
  import opened Utf8

  // ----- the parser's characters and numbers are the grammar's

  lemma HexWorths(c: char)
    ensures HexWorth(c) == HexVal(c)
  {
  }

  lemma {:induction false} WorthFront(a: string, c: char)
    requires AllDigits(a) && IsDigit(c)
    ensures Worth(a + [c]) == Worth(a) * 10 + DigitVal(c)
  {
    DigitWorths(c);
    if a == [] {
      assert a + [c] == [c] && [c][1..] == [];
    } else {
      var s := a + [c];
      assert s[1..] == a[1..] + [c];
      WorthFront(a[1..], c);
      Shift(DigitWorth(a[0]), Pow10(|a| - 1), Worth(a[1..]), DigitVal(c));
    }
  }

  lemma Shift(d: int, p: nat, w: nat, v: nat)
    ensures d * (10 * p) + (w * 10 + v) == (d * p + w) * 10 + v
  {
  }

  /** Reading digits from the front or from the end gives the same number. */
  lemma {:induction false} WorthIsNatVal(s: string)
    requires AllDigits(s)
    ensures Worth(s) == NatVal(s)
  {
    if s != [] {
      var n := |s| - 1;
      WorthIsNatVal(s[..n]);
      WorthFront(s[..n], s[n]);
      assert s == s[..n] + [s[n]];
    }
  }

  lemma WholeIsInteger(neg: bool, whole: string)
    requires IsNatLiteral(whole)
    ensures IsIntLiteral(SignText(neg) + whole) && WholeValue(neg, whole) == IntegerOf(SignText(neg) + whole)
  {
    hide Worth, NatVal;
    SignedLiteral(neg, whole);
    WorthIsNatVal(whole);
    var lit := SignText(neg) + whole;
    assert IsDigit(whole[0]);
    if neg {
      assert lit[1..] == whole;
    } else {
      assert lit == whole;
    }
  }

  lemma {:induction false} DenotedIsMade(neg: bool, digits: string, exp: int)
    requires AllDigits(digits)
    ensures Denoted(neg, digits, exp) == Make(neg, NatVal(digits), exp)
  {
    WorthIsNatVal(digits);
    if digits != [] {
      var n := |digits| - 1;
      if digits[n] == '0' {
        DenotedIsMade(neg, digits[..n], exp + 1);
        MakeShift(neg, NatVal(digits[..n]), exp);
      } else {
        LastDigit(digits);
      }
    }
  }

  lemma MakeShift(neg: bool, c: nat, exp: int)
    ensures Make(neg, c * 10, exp) == Make(neg, c, exp + 1)
  {
    MakeScale(neg, c, 1, exp);
    assert Pow10(1) == 10;
  }

  lemma LastDigit(digits: string)
    requires digits != [] && AllDigits(digits) && digits[|digits| - 1] != '0'
    ensures NatVal(digits) % 10 != 0
  {
    assert DigitVal(digits[|digits| - 1]) != 0;
  }

  lemma DenotedIsLiteral(neg: bool, whole: string, frac: string, exp: int)
    requires AllDigits(whole) && AllDigits(frac)
    ensures Denoted(neg, whole + frac, exp - |frac|) == LiteralValue(neg, whole, frac, exp)
  {
    DenotedIsMade(neg, whole + frac, exp - |frac|);
  }

  lemma ExpWorth(e: ExpPart)
    requires GoodExp(e)
    ensures e.Exp? ==> Worth(e.digits) == NatVal(e.digits)
  {
    if e.Exp? {
      WorthIsNatVal(e.digits);
    }
  }

  // ----- strings: every document string is read as what it means

  lemma HexWorthsOf(a: char, b: char, c: char, d: char)
    ensures HexWorth(a) == HexVal(a) && HexWorth(b) == HexVal(b) && HexWorth(c) == HexVal(c) && HexWorth(d) == HexVal(d)
  {
    hide HexVal, HexWorth;
    HexWorths(a);
    HexWorths(b);
    HexWorths(c);
    HexWorths(d);
  }

  lemma Hex4Reads(h: string, x: string)
    requires IsHex4(h)
    ensures Hex4(h + x) == Ok(HexNumber(h), x)
  {
    hide HexVal, HexWorth;
    HexWorthsOf(h[0], h[1], h[2], h[3]);
    var t := h + x;
    assert t[0] == h[0] && t[1] == h[1] && t[2] == h[2] && t[3] == h[3] && t[4..] == x;
  }

  lemma HexBound(h: string)
    requires IsHex4(h)
    ensures HexNumber(h) < 0x10000
  {
    HexDigitBound(h[0]);
    HexDigitBound(h[1]);
    HexDigitBound(h[2]);
    HexDigitBound(h[3]);
  }

  lemma HexDigitBound(c: char)
    ensures HexWorth(c) < 16
  {
  }

  lemma HexReads(h: string, x: string)
    requires GoodUnit(Hex(h))
    ensures ParseUnicode(h + x) == Ok(UnitValue(Hex(h)), x)
  {
    hide Hex4, HexNumber;
    Hex4Reads(h, x);
    HexBound(h);
  }

  lemma PairReads(hi: string, lo: string, x: string)
    requires GoodUnit(Pair(hi, lo))
    ensures ParseUnicode(hi + ("\\u" + (lo + x))) == Ok(UnitValue(Pair(hi, lo)), x)
  {
    hide Hex4, HexNumber, IsHex4;
    var t1 := "\\u" + (lo + x);
    Hex4Reads(hi, t1);
    assert t1[..2] == "\\u" && t1[2..] == lo + x;
    Hex4Reads(lo, x);
  }

  lemma ShortReads(letter: char, x: string)
    requires letter in LETTERS
    ensures ParseEscape([letter] + x) == Ok(LetterValue(letter), x)
  {
    assert ([letter] + x)[1..] == x;
  }

  lemma UnicodeReads(t: string, c: char, x: string)
    requires ParseUnicode(t) == Ok(c, x)
    ensures ParseEscape("u" + t) == Ok(c, x)
  {
    hide ParseUnicode;
    assert ("u" + t)[1..] == t;
  }

  lemma EscapeReads(e: string, c: char, x: string, out: string)
    requires ParseEscape(e) == Ok(c, x)
    ensures ParseString("\\" + e, out) == ParseString(x, out + [c])
  {
    hide ParseEscape;
    assert ("\\" + e)[1..] == e;
  }

  lemma PlainReads(c: char, x: string, out: string)
    requires GoodUnit(Plain(c))
    ensures ParseString(UnitText(Plain(c)) + x, out) == ParseString(x, out + [c])
  {
    assert ([c] + x)[1..] == x;
  }

  lemma ShortText(letter: char, x: string)
    ensures UnitText(Short(letter)) + x == "\\" + ([letter] + x)
  {
  }

  lemma HexText(h: string, x: string)
    ensures UnitText(Hex(h)) + x == "\\" + ("u" + (h + x))
  {
  }

  lemma PairText(hi: string, lo: string, x: string)
    ensures UnitText(Pair(hi, lo)) + x == "\\" + ("u" + (hi + ("\\u" + (lo + x))))
  {
  }

  lemma UnitReads(u: Unit, x: string, out: string)
    requires GoodUnit(u)
    ensures ParseString(UnitText(u) + x, out) == ParseString(x, out + [UnitValue(u)])
  {
    hide ParseString, ParseEscape, ParseUnicode, HexNumber, IsHex4, LetterValue, UnitText;
    match u {
      case Plain(c) => PlainReads(c, x, out);
      case Short(letter) =>
        ShortText(letter, x);
        ShortReads(letter, x);
        EscapeReads([letter] + x, LetterValue(letter), x, out);
      case Hex(h) =>
        HexText(h, x);
        HexReads(h, x);
        UnicodeReads(h + x, UnitValue(u), x);
        EscapeReads("u" + (h + x), UnitValue(u), x, out);
      case Pair(hi, lo) =>
        var t := hi + ("\\u" + (lo + x));
        PairText(hi, lo, x);
        PairReads(hi, lo, x);
        UnicodeReads(t, UnitValue(u), x);
        EscapeReads("u" + t, UnitValue(u), x, out);
    }
  }

  lemma {:induction false} UnitsRead(us: seq<Unit>, rest: string, out: string)
    requires GoodUnits(us)
    ensures ParseString(UnitsText(us) + rest, out) == Ok(out + UnitsValue(us), rest)
  {
    hide UnitText, UnitValue, GoodUnit, ParseString;
    if us == [] {
      var t := UnitsText(us) + rest;
      assert t[0] == '"' && t[1..] == rest;
      StringEnds(t, out);
      assert out + UnitsValue(us) == out;
    } else {
      assert UnitsText(us) + rest == UnitText(us[0]) + (UnitsText(us[1..]) + rest);
      UnitReads(us[0], UnitsText(us[1..]) + rest, out);
      UnitsRead(us[1..], rest, out + [UnitValue(us[0])]);
      assert out + [UnitValue(us[0])] + UnitsValue(us[1..]) == out + UnitsValue(us);
    }
  }

  // ----- strings: every string read is a document string

  lemma Hex4Of(t: string)
    requires Hex4(t).Ok?
    ensures |t| >= 4 && IsHex4(t[..4]) && HexNumber(t[..4]) == Hex4(t).value && t == t[..4] + Hex4(t).rest
  {
    hide HexVal, HexWorth;
    HexWorthsOf(t[0], t[1], t[2], t[3]);
  }

  /** The unit after `\u`. */
  lemma UnicodeOf(t: string) returns (u: Unit)
    requires ParseUnicode(t).Ok?
    ensures GoodUnit(u) && "\\u" + t == UnitText(u) + ParseUnicode(t).rest && |ParseUnicode(t).rest| < |t|
  {
    hide Hex4, HexNumber, IsHex4;
    Hex4Of(t);
    var hi, t1 := Hex4(t).value, Hex4(t).rest;
    if 0xD800 <= hi < 0xDC00 && StartsWith(t1, "\\u") {
      Hex4Of(t1[2..]);
      var lo, t2 := t1[2..][..4], Hex4(t1[2..]).rest;
      u := Pair(t[..4], lo);
      assert t1 == "\\u" + (lo + t2);
      assert "\\u" + (t[..4] + ("\\u" + (lo + t2))) == UnitText(u) + t2;
    } else {
      u := Hex(t[..4]);
      assert "\\u" + (t[..4] + t1) == UnitText(u) + t1;
    }
  }

  lemma FirstUnit(t: string, out: string) returns (u: Unit, x: string)
    requires ParseString(t, out).Ok? && !Starts(t, '"')
    ensures GoodUnit(u) && t == UnitText(u) + x && |x| < |t|
  {
    hide ParseUnicode;
    if t[0] == '\\' {
      var e := t[1..];
      if e[0] == 'u' {
        u := UnicodeOf(e[1..]);
        x := ParseUnicode(e[1..]).rest;
        assert t == "\\u" + e[1..];
      } else {
        u, x := Short(e[0]), e[1..];
        assert t == ['\\', e[0]] + x;
      }
    } else {
      u, x := Plain(t[0]), t[1..];
      assert t == [t[0]] + x;
    }
  }

  lemma {:induction false} UnitsOf(t: string, out: string) returns (us: seq<Unit>)
    requires ParseString(t, out).Ok?
    ensures GoodUnits(us) && t == UnitsText(us) + ParseString(t, out).rest
    ensures ParseString(t, out).value == out + UnitsValue(us)
    decreases |t|
  {
    hide UnitText, UnitValue, GoodUnit, ParseString;
    if Starts(t, '"') {
      us := [];
      StringEnds(t, out);
      assert t == "\"" + t[1..];
    } else {
      var u, x := FirstUnit(t, out);
      UnitReads(u, x, out);
      var more := UnitsOf(x, out + [UnitValue(u)]);
      us := [u] + more;
      assert us[1..] == more;
      assert UnitText(u) + (UnitsText(more) + ParseString(t, out).rest) == UnitsText(us) + ParseString(t, out).rest;
      assert out + [UnitValue(u)] + UnitsValue(more) == out + UnitsValue(us);
    }
  }

  lemma StringEnds(t: string, out: string)
    requires Starts(t, '"')
    ensures ParseString(t, out) == Ok(out, t[1..])
  {
  }

  // ----- numbers

  /** Where the mark of an exponent ends. */
  lemma MarkReads(mark: char, sign: Sign, tail: string)
    requires (mark == 'e' || mark == 'E') && tail != [] && IsDigit(tail[0])
    ensures
      var t, m := MarkText(mark, sign) + tail, |MarkText(mark, sign)|;
      && (Starts(t, 'e') || Starts(t, 'E')) && ExpMark(t) == m && m < |t| && t[m..] == tail
      && (t[1] == '-' <==> sign.Minus?)
  {
  }

  lemma DigitsLength(t: string, m: nat, digits: string, x: string)
    requires (Starts(t, 'e') || Starts(t, 'E')) && ExpMark(t) == m <= |t| && t[m..] == digits + x
    requires digits != [] && AllDigits(digits) && NoDigit(x)
    ensures ExpLen(t) == m + |digits|
  {
    hide DigitCount, AllDigits, ExpMark, NoDigit;
    DigitCountExact(digits, x);
  }

  lemma ValueAt(t: string, m: nat, digits: string)
    requires (Starts(t, 'e') || Starts(t, 'E')) && ExpMark(t) == m && ExpLen(t) == m + |digits| && digits != []
    requires AllDigits(digits) && t[m..m + |digits|] == digits
    ensures ExpValue(t) == if t[1] == '-' then -(NatVal(digits) as int) else NatVal(digits)
  {
    hide NatVal, ExpLen, AllDigits, ExpMark;
  }

  lemma SliceAt(t: string, m: nat, digits: string, x: string)
    requires m <= |t| && t[m..] == digits + x
    ensures t[m..m + |digits|] == digits && t[m + |digits|..] == x
  {
  }

  lemma ExpReads(e: ExpPart, x: string)
    requires GoodExp(e) && Boundary(x)
    ensures
      var t := ExpPartText(e) + x;
      && ExpLen(t) == |ExpPartText(e)| && t[ExpLen(t)..] == x && ExpValue(t) == ExpPartValue(e)
      && NoDigit(t) && !Starts(t, '.')
  {
    if e.NoExp? {
      assert ExpPartText(e) + x == x;
    } else {
      MarkedReads(e, x);
    }
  }

  lemma MarkedReads(e: ExpPart, x: string)
    requires GoodExp(e) && e.Exp? && Boundary(x)
    ensures
      var t := ExpPartText(e) + x;
      && ExpLen(t) == |ExpPartText(e)| && t[ExpLen(t)..] == x && ExpValue(t) == ExpPartValue(e)
      && (Starts(t, 'e') || Starts(t, 'E'))
  {
    hide ExpMark, ExpLen, ExpValue, NatVal, MarkText, Starts, Worth;
    ExpWorth(e);
    var t, m := ExpPartText(e) + x, |MarkText(e.mark, e.sign)|;
    assert t == MarkText(e.mark, e.sign) + (e.digits + x);
    assert IsDigit((e.digits + x)[0]);
    MarkReads(e.mark, e.sign, e.digits + x);
    DigitsLength(t, m, e.digits, x);
    SliceAt(t, m, e.digits, x);
    ValueAt(t, m, e.digits);
  }

  /** The fraction and exponent of a number, up to a boundary. */
  lemma TailReads(frac: string, e: ExpPart, rest: string)
    requires AllDigits(frac) && GoodExp(e) && Boundary(rest)
    ensures
      var t2 := ExpPartText(e) + rest;
      var t1 := FracText(frac) + t2;
      && NoDigit(t1)
      && FracLen(t1) == (if frac == [] then 0 else 1 + |frac|)
      && t1[FracLen(t1)..] == t2
      && (frac != [] ==> t1[1..FracLen(t1)] == frac)
  {
    hide ExpLen, ExpValue, ExpPartText, ExpPartValue, GoodExp, DigitCount;
    ExpReads(e, rest);
    var t2 := ExpPartText(e) + rest;
    if frac != [] {
      FracLenExact(frac, t2);
      assert "." + frac + t2 == ("." + frac) + t2;
    } else {
      assert FracText(frac) + t2 == t2;
    }
  }

  lemma NumberText(neg: bool, whole: string, frac: string, e: ExpPart, rest: string)
    ensures TreeText(Number(neg, whole, frac, e)) + rest
         == SignText(neg) + (whole + (FracText(frac) + (ExpPartText(e) + rest)))
  {
    hide SignText, FracText, ExpPartText;
  }

  lemma IntegerReads(fp: Rounding, neg: bool, whole: string, rest: string)
    requires IsNatLiteral(whole) && Boundary(rest)
    ensures ParseNumber(fp, TreeText(Number(neg, whole, [], NoExp)) + rest)
         == Ok(TreeValue(fp, Number(neg, whole, [], NoExp), 0), rest)
  {
    hide ParseNumber, IntegerOf, IsNatLiteral, SignText, WholeValue;
    var lit := SignText(neg) + whole;
    WholeIsInteger(neg, whole);
    assert TreeText(Number(neg, whole, [], NoExp)) == lit by { assert whole + ("" + "") == whole; }
    IntegerRoundTrip(fp, lit, rest);
  }

  lemma FloatReads(fp: Rounding, neg: bool, whole: string, frac: string, e: ExpPart, rest: string)
    requires IsNatLiteral(whole) && AllDigits(frac) && GoodExp(e) && Boundary(rest) && (frac != [] || e.Exp?)
    ensures ParseNumber(fp, TreeText(Number(neg, whole, frac, e)) + rest)
         == Ok(Float(fp(LiteralValue(neg, whole, frac, ExpPartValue(e)))), rest)
  {
    hide ParseNumber, IntLen, FracLen, ExpLen, ExpValue, LiteralValue, SignLen, SignText, FracText, ExpPartText,
      ExpPartValue, GoodExp, TreeText, AllDigits, Boundary;
    var t2 := ExpPartText(e) + rest;
    var t1 := FracText(frac) + t2;
    NumberText(neg, whole, frac, e, rest);
    ExpReads(e, rest);
    TailReads(frac, e, rest);
    SignedTail(neg, whole, t1);
    IntLenExact(whole, t1);
    HasTail(e);
    FloatOf(fp, SignText(neg) + (whole + t1), if neg then 1 else 0, whole, t1, frac, t2, rest);
  }

  lemma NumberReads(fp: Rounding, n: Tree, rest: string)
    requires n.Number? && Good(n, 0) && Boundary(rest)
    ensures ParseNumber(fp, TreeText(n) + rest) == Ok(TreeValue(fp, n, 0), rest)
  {
    hide ParseNumber, LiteralValue, Denoted, WholeValue, ExpPartValue, GoodExp, TreeText, Boundary, AllDigits;
    if n.frac == [] && n.exp.NoExp? {
      IntegerReads(fp, n.neg, n.whole, rest);
    } else {
      FloatReads(fp, n.neg, n.whole, n.frac, n.exp, rest);
      DenotedIsLiteral(n.neg, n.whole, n.frac, ExpPartValue(n.exp));
    }
  }

  lemma HasTail(e: ExpPart)
    requires GoodExp(e)
    ensures e.Exp? ==> |ExpPartText(e)| > 0
  {
  }

  lemma FracOf(t: string) returns (frac: string)
    ensures AllDigits(frac) && t == FracText(frac) + t[FracLen(t)..]
    ensures FracLen(t) == 0 <==> frac == []
    ensures FracLen(t) > 0 ==> frac == t[1..FracLen(t)]
  {
    hide DigitCount;
    frac := if FracLen(t) == 0 then [] else t[1..FracLen(t)];
  }

  lemma SignOf(t: string)
    ensures t == SignText(SignLen(t) == 1) + t[SignLen(t)..]
  {
  }

  lemma IntegerTree(fp: Rounding, t: string, n: Tree)
    requires ParseNumber(fp, t).Ok? && n.Number? && Good(n, 0)
    requires
      var s := SignLen(t);
      var a := IntLen(t[s..]);
      FracLen(t[s + a..]) == 0 && ExpLen(t[s + a..]) == 0 && t[..s + a] == SignText(n.neg) + n.whole
    requires n.frac == [] && n.exp.NoExp?
    ensures TreeValue(fp, n, 0) == ParseNumber(fp, t).value
  {
    hide IntLen, FracLen, ExpLen, ExpValue, LiteralValue, IntegerOf, SignLen, SignText, GoodExp, IsNatLiteral,
      AllDigits;
    WholeIsInteger(n.neg, n.whole);
    assert t[SignLen(t) + IntLen(t[SignLen(t)..])..][0..] == t[SignLen(t) + IntLen(t[SignLen(t)..])..];
  }

  lemma FloatTree(fp: Rounding, t: string, n: Tree)
    requires ParseNumber(fp, t).Ok? && n.Number? && Good(n, 0)
    requires
      var s := SignLen(t);
      var a := IntLen(t[s..]);
      var t1 := t[s + a..];
      var t2 := t1[FracLen(t1)..];
      && (FracLen(t1) != 0 || ExpLen(t2) != 0) && n.neg == (s == 1) && n.whole == t[s..][..a]
      && n.frac == (if FracLen(t1) == 0 then [] else t1[1..FracLen(t1)]) && ExpPartValue(n.exp) == ExpValue(t2)
      && (n.exp.NoExp? <==> ExpLen(t2) == 0)
    ensures TreeValue(fp, n, 0) == ParseNumber(fp, t).value
  {
    hide Denoted, IntLen, FracLen, ExpLen, ExpValue, LiteralValue, IntegerOf, SignLen, GoodExp, ExpPartValue,
      IsNatLiteral, AllDigits;
    DenotedIsLiteral(n.neg, n.whole, n.frac, ExpPartValue(n.exp));
  }

  /** The text after a number. */
  lemma NumberRest(fp: Rounding, t: string)
    requires ParseNumber(fp, t).Ok?
    ensures
      var s := SignLen(t);
      var a := IntLen(t[s..]);
      var t1 := t[s + a..];
      var t2 := t1[FracLen(t1)..];
      a > 0 && ParseNumber(fp, t).rest == t2[ExpLen(t2)..]
  {
    hide IntLen, FracLen, ExpLen, ExpValue, LiteralValue, IntegerOf, SignLen;
    var s := SignLen(t);
    var t1 := t[s + IntLen(t[s..])..];
    assert t1[0..] == t1;
  }

  lemma Reassemble(t: string, sign: string, s: nat, whole: string, a: nat, t1: string)
    requires s + a <= |t| && |sign| == s && t == sign + t[s..] && whole == t[s..][..a] && t1 == t[s + a..]
    ensures t == sign + (whole + t1) && t[..s + a] == sign + whole
  {
    assert t[s..] == whole + t1;
    assert t[..s + a] == t[..s] + t[s..][..a];
  }

  /** The parts of a number at the front of a text. */
  lemma PartsOf(t: string, s: nat, a: nat, t1: string, t2: string) returns (n: Tree)
    requires s == SignLen(t) && a == IntLen(t[s..]) && a > 0 && t1 == t[s + a..] && t2 == t1[FracLen(t1)..]
    ensures n.Number? && Good(n, 0) && t == TreeText(n) + t2[ExpLen(t2)..]
    ensures n.neg == (s == 1) && n.whole == t[s..][..a] && t[..s + a] == SignText(n.neg) + n.whole
    ensures n.frac == if FracLen(t1) == 0 then [] else t1[1..FracLen(t1)]
    ensures n.frac == [] <==> FracLen(t1) == 0
    ensures ExpPartValue(n.exp) == ExpValue(t2) && (n.exp.NoExp? <==> ExpLen(t2) == 0)
  {
    hide IntLen, FracLen, ExpLen, ExpValue, SignLen, SignText, FracText, ExpPartText, ExpPartValue, GoodExp, TreeText,
      IsNatLiteral, AllDigits;
    var frac := FracOf(t1);
    var e := ExpOf(t2);
    n := Number(s == 1, t[s..][..a], frac, e);
    WholeOf(t[s..]);
    SignOf(t);
    SignBound(t);
    Reassemble(t, SignText(s == 1), s, n.whole, a, t1);
    NumberText(s == 1, n.whole, frac, e, t2[ExpLen(t2)..]);
  }

  /** Every number read is a document number. */
  lemma NumberOf(fp: Rounding, t: string) returns (n: Tree)
    requires ParseNumber(fp, t).Ok?
    ensures n.Number? && Good(n, 0) && t == TreeText(n) + ParseNumber(fp, t).rest
    ensures TreeValue(fp, n, 0) == ParseNumber(fp, t).value
  {
    hide ParseNumber, TreeValue, IntLen, FracLen, ExpLen, ExpValue, SignLen, SignText, ExpPartValue, TreeText, Good;
    NumberRest(fp, t);
    var s := SignLen(t);
    var a := IntLen(t[s..]);
    var t1 := t[s + a..];
    var t2 := t1[FracLen(t1)..];
    n := PartsOf(t, s, a, t1, t2);
    if n.frac == [] && n.exp.NoExp? {
      assert t2 == t1;
      IntegerTree(fp, t, n);
    } else {
      FloatTree(fp, t, n);
    }
  }

  lemma SignBound(t: string)
    ensures SignLen(t) <= 1 && |SignText(SignLen(t) == 1)| == SignLen(t)
  {
  }

  lemma WholeOf(t: string)
    requires IntLen(t) > 0
    ensures IsNatLiteral(t[..IntLen(t)])
  {
  }

  lemma ExpOf(t: string) returns (e: ExpPart)
    ensures GoodExp(e) && t == ExpPartText(e) + t[ExpLen(t)..] && ExpPartValue(e) == ExpValue(t)
    ensures e.NoExp? <==> ExpLen(t) == 0
  {
    hide DigitCount, NatVal, Worth;
    var n := ExpLen(t);
    if n == 0 {
      e := NoExp;
    } else {
      var m := ExpMark(t);
      var sign := if m == 1 then NoSign else if t[1] == '+' then Plus else Minus;
      e := Exp(t[0], sign, t[m..n]);
      WorthIsNatVal(t[m..n]);
      assert t[..m] == MarkText(t[0], sign);
      assert t == t[..m] + t[m..n] + t[n..];
    }
  }

  // ----- values: every document is read as what it means

  lemma TreeStart(t: Tree, budget: nat)
    requires Good(t, budget)
    ensures ValueStart(TreeText(t))
  {
    hide UnitsText, FracText, ExpPartText, GoodExp, GoodItems, GoodMembers, ItemsText, MembersText;
    if t.Number? {
      assert IsDigit(t.whole[0]);
    }
  }

  /** White space, then a text that does not begin with it. */
  lemma SkipTo(w: string, x: string)
    requires IsSpace(w) && x != [] && !IsWs(x[0])
    ensures SkipWs(w + x) == x
  {
    SkipWsDrop(w, x);
  }

  lemma SkipToTree(w: string, t: Tree, budget: nat, y: string)
    requires IsSpace(w) && Good(t, budget)
    ensures SkipWs(w + (TreeText(t) + y)) == TreeText(t) + y
    ensures ValueStart(TreeText(t) + y)
  {
    hide TreeText, IsSpace, SkipWs, Good;
    TreeStart(t, budget);
    SkipTo(w, TreeText(t) + y);
  }

  lemma SkipToMark(w: string, mark: char, y: string)
    requires IsSpace(w) && !IsWs(mark)
    ensures SkipWs(w + ([mark] + y)) == [mark] + y && Starts([mark] + y, mark) && ([mark] + y)[1..] == y
  {
    SkipTo(w, [mark] + y);
  }

  lemma MarkBoundary(w: string, mark: char, y: string)
    requires IsSpace(w) && (mark == ',' || mark == ']' || mark == '}')
    ensures Boundary(w + ([mark] + y))
  {
  }

  lemma ItemsStep(fp: Rounding, x: string, v: Json, y: string, z: string, budget: nat, done: seq<Json>)
    requires ParseValue(fp, SkipWs(x), budget) == Ok(v, y) && SkipWs(y) == z
    ensures Starts(z, ']') ==> ParseItems(fp, x, budget, done) == Ok(Array(done + [v]), z[1..])
    ensures Starts(z, ',') ==> ParseItems(fp, x, budget, done) == ParseItems(fp, z[1..], budget, done + [v])
  {
    hide ParseValue, SkipWs;
  }

  lemma FieldsStep(fp: Rounding, x: string, f: Keyed<Json>, y: string, z: string, budget: nat, done: seq<Keyed<Json>>)
    requires ParseField(fp, SkipWs(x), budget) == Ok(f, y) && SkipWs(y) == z
    ensures Starts(z, '}') ==> ParseFields(fp, x, budget, done) == Ok(Object(Upsert(done, f.key, f.value)), z[1..])
    ensures Starts(z, ',') ==>
              ParseFields(fp, x, budget, done) == ParseFields(fp, z[1..], budget, Upsert(done, f.key, f.value))
  {
    hide ParseField, SkipWs, Upsert;
  }

  /** The text of items and what follows, one item at a time. */
  lemma ItemsUnfold(s: Items, rest: string)
    ensures ItemsText(s) + rest ==
              s.before + (TreeText(s.value)
              + (s.after + (if s.LastItem? then ([']'] + rest) else ([','] + (ItemsText(s.more) + rest)))))
  {
    hide TreeText;
    if s.NextItem? {
      Glue(s.before, TreeText(s.value), s.after, ",", ItemsText(s.more), rest);
    } else {
      Glue(s.before, TreeText(s.value), s.after, "]", "", rest);
      assert "]" + "" == "]" && "" + rest == rest;
    }
  }

  lemma Glue(a: string, b: string, c: string, d: string, e: string, f: string)
    ensures (a + (b + (c + (d + e)))) + f == a + (b + (c + (d + (e + f))))
  {
    assert (d + e) + f == d + (e + f);
    assert (c + (d + e)) + f == c + ((d + e) + f);
    assert (b + (c + (d + e))) + f == b + ((c + (d + e)) + f);
    assert (a + (b + (c + (d + e)))) + f == a + ((b + (c + (d + e))) + f);
  }

  lemma {:induction false} ItemsRead(fp: Rounding, s: Items, budget: nat, done: seq<Json>, rest: string)
    requires GoodItems(s, budget)
    ensures ParseItems(fp, ItemsText(s) + rest, budget, done) == Ok(Array(done + ItemsValue(fp, s, budget)), rest)
    decreases s, 0
  {
    hide ParseItems, ParseValue, TreeText, TreeValue, ItemsText, IsSpace, Good, SkipWs, Boundary;
    var mark := if s.LastItem? then ']' else ',';
    var tail := if s.LastItem? then rest else ItemsText(s.more) + rest;
    var y := s.after + ([mark] + tail);
    ItemsUnfold(s, rest);
    SkipToTree(s.before, s.value, budget, y);
    MarkBoundary(s.after, mark, tail);
    TreeReads(fp, s.value, budget, y);
    SkipToMark(s.after, mark, tail);
    var v := TreeValue(fp, s.value, budget);
    ItemsStep(fp, ItemsText(s) + rest, v, y, [mark] + tail, budget, done);
    if s.NextItem? {
      ItemsRead(fp, s.more, budget, done + [v], rest);
      assert done + [v] + ItemsValue(fp, s.more, budget) == done + ItemsValue(fp, s, budget);
    } else {
      assert ItemsValue(fp, s, budget) == [v];
    }
  }

  lemma KeyReads(key: seq<Unit>, x: string)
    requires GoodUnits(key)
    ensures
      var t := "\"" + (UnitsText(key) + x);
      Starts(t, '"') && ParseString(t[1..], []) == Ok(UnitsValue(key), x)
  {
    hide ParseString, UnitsText, UnitsValue, GoodUnits;
    UnitsRead(key, x, []);
    assert ("\"" + (UnitsText(key) + x))[1..] == UnitsText(key) + x;
    assert [] + UnitsValue(key) == UnitsValue(key);
  }

  /** One member, up to the end of its value. */
  lemma MemberReads(fp: Rounding, s: Members, budget: nat, y: string)
    requires GoodMembers(s, budget)
    requires ParseValue(fp, TreeText(s.value) + y, budget) == Ok(TreeValue(fp, s.value, budget), y)
    ensures
      var t := "\"" + (UnitsText(s.key) + (s.colon + ([':'] + (s.gap + (TreeText(s.value) + y)))));
      ParseField(fp, t, budget) == Ok(Keyed(UnitsValue(s.key), TreeValue(fp, s.value, budget)), y)
  {
    hide ParseString, ParseValue, UnitsText, UnitsValue, TreeText, TreeValue, IsSpace, Good, SkipWs, GoodUnits;
    var z := s.gap + (TreeText(s.value) + y);
    KeyReads(s.key, s.colon + ([':'] + z));
    SkipToMark(s.colon, ':', z);
    SkipToTree(s.gap, s.value, budget, y);
  }

  lemma MembersUnfold(s: Members, rest: string)
    ensures MembersText(s) + rest ==
              s.before + ("\"" + (UnitsText(s.key) + (s.colon + ([':'] + (s.gap + (TreeText(s.value)
              + (s.after + (if s.LastMember? then (['}'] + rest) else ([','] + (MembersText(s.more) + rest))))))))))
  {
    hide TreeText, UnitsText;
    var end := if s.LastMember? then "}" else "," + MembersText(s.more);
    var value := TreeText(s.value) + (s.after + end);
    Glue("", TreeText(s.value), s.after, end, "", rest);
    MemberGlue(s.before, UnitsText(s.key), s.colon, s.gap, TreeText(s.value), s.after, end, rest);
    if s.NextMember? {
      assert end + rest == [','] + (MembersText(s.more) + rest);
    }
  }

  lemma MemberGlue(a: string, k: string, c: string, g: string, v: string, w: string, end: string, rest: string)
    ensures (a + ("\"" + (k + (c + (":" + (g + (v + (w + end)))))))) + rest
         == a + ("\"" + (k + (c + ([':'] + (g + (v + (w + (end + rest))))))))
  {
    assert (w + end) + rest == w + (end + rest);
    assert (v + (w + end)) + rest == v + ((w + end) + rest);
    Glue(k, c, ":", g, v + (w + end), rest);
    var m := k + (c + (":" + (g + (v + (w + end)))));
    assert ("\"" + m) + rest == "\"" + (m + rest);
    assert (a + ("\"" + m)) + rest == a + (("\"" + m) + rest);
  }

  lemma {:induction false} MembersRead(fp: Rounding, s: Members, budget: nat, done: seq<Keyed<Json>>, rest: string)
    requires GoodMembers(s, budget)
    ensures ParseFields(fp, MembersText(s) + rest, budget, done)
         == Ok(Object(Collapse(done, MembersValue(fp, s, budget))), rest)
    decreases s, 0
  {
    hide ParseFields, ParseField, ParseValue, TreeText, TreeValue, MembersText, UnitsText, UnitsValue, GoodUnits,
      IsSpace, Good, SkipWs, Boundary, Upsert;
    var mark := if s.LastMember? then '}' else ',';
    var tail := if s.LastMember? then rest else MembersText(s.more) + rest;
    var y := s.after + ([mark] + tail);
    MembersUnfold(s, rest);
    MarkBoundary(s.after, mark, tail);
    TreeReads(fp, s.value, budget, y);
    MemberReads(fp, s, budget, y);
    var t := "\"" + (UnitsText(s.key) + (s.colon + ([':'] + (s.gap + (TreeText(s.value) + y)))));
    SkipTo(s.before, t);
    SkipToMark(s.after, mark, tail);
    var f := Keyed(UnitsValue(s.key), TreeValue(fp, s.value, budget));
    FieldsStep(fp, MembersText(s) + rest, f, y, [mark] + tail, budget, done);
    if s.NextMember? {
      MembersRead(fp, s.more, budget, Upsert(done, f.key, f.value), rest);
      assert MembersValue(fp, s, budget)[1..] == MembersValue(fp, s.more, budget);
    }
  }

  /** A container's bracket and its content. */
  lemma OpenList(fp: Rounding, s: Items, budget: nat, rest: string)
    requires GoodItems(s, budget)
    ensures ParseValue(fp, "[" + (ItemsText(s) + rest), budget + 1) == ParseItems(fp, ItemsText(s) + rest, budget, [])
  {
    hide ParseItems, ParseFields, ItemsText, TreeText, IsSpace, Good, SkipWs;
    var x := ItemsText(s) + rest;
    assert ("[" + x)[1..] == x;
    ItemsUnfold(s, rest);
    var y := s.after + (if s.LastItem? then ([']'] + rest) else ([','] + (ItemsText(s.more) + rest)));
    SkipToTree(s.before, s.value, budget, y);
    SkipWsIdempotent(x);
    ItemsSkipWs(fp, SkipWs(x), x, budget, []);
  }

  lemma OpenRecord(fp: Rounding, s: Members, budget: nat, rest: string)
    requires GoodMembers(s, budget)
    ensures ParseValue(fp, "{" + (MembersText(s) + rest), budget + 1)
         == ParseFields(fp, MembersText(s) + rest, budget, [])
  {
    hide ParseItems, ParseFields, MembersText, TreeText, UnitsText, IsSpace, Good, GoodUnits, SkipWs;
    var x := MembersText(s) + rest;
    assert ("{" + x)[1..] == x;
    MembersUnfold(s, rest);
    var t := "\"" + (UnitsText(s.key) + (s.colon + ([':'] + (s.gap + (TreeText(s.value)
             + (s.after + (if s.LastMember? then (['}'] + rest) else ([','] + (MembersText(s.more) + rest)))))))));
    SkipTo(s.before, t);
    SkipWsIdempotent(x);
    FieldsSkipWs(fp, SkipWs(x), x, budget, []);
  }

  lemma EmptyReads(fp: Rounding, space: string, budget: nat, rest: string)
    requires IsSpace(space) && budget > 0
    ensures ParseValue(fp, "[" + (space + "]") + rest, budget) == Ok(Array([]), rest)
    ensures ParseValue(fp, "{" + (space + "}") + rest, budget) == Ok(Object([]), rest)
  {
    hide ParseItems, ParseFields, SkipWs, IsSpace;
    var t, u := "[" + (space + "]") + rest, "{" + (space + "}") + rest;
    assert t[1..] == space + ([']'] + rest) && u[1..] == space + (['}'] + rest);
    SkipToMark(space, ']', rest);
    SkipToMark(space, '}', rest);
  }

  lemma TextReads(fp: Rounding, us: seq<Unit>, budget: nat, rest: string)
    requires GoodUnits(us)
    ensures ParseValue(fp, "\"" + UnitsText(us) + rest, budget) == Ok(Str(UnitsValue(us)), rest)
  {
    hide ParseString, UnitsText, UnitsValue, GoodUnits;
    KeyReads(us, rest);
    assert "\"" + UnitsText(us) + rest == "\"" + (UnitsText(us) + rest);
  }

  lemma NumberValueReads(fp: Rounding, n: Tree, budget: nat, rest: string)
    requires n.Number? && Good(n, budget) && Boundary(rest)
    ensures ParseValue(fp, TreeText(n) + rest, budget) == Ok(TreeValue(fp, n, budget), rest)
  {
    hide ParseValue, ParseNumber, FracText, ExpPartText, GoodExp, LiteralValue, IntegerOf, Boundary;
    assert IsDigit(n.whole[0]);
    NumberDispatch(fp, TreeText(n) + rest, budget);
    NumberReads(fp, n, rest);
  }

  lemma {:induction false} TreeReads(fp: Rounding, t: Tree, budget: nat, rest: string)
    requires Good(t, budget) && Boundary(rest)
    ensures ParseValue(fp, TreeText(t) + rest, budget) == Ok(TreeValue(fp, t, budget), rest)
    decreases t, 1
  {
    hide ParseValue, ItemsText, MembersText, GoodItems, GoodMembers, ItemsValue, MembersValue, UnitsText, UnitsValue,
      GoodUnits, Boundary, IsSpace, Collapse;
    match t {
      case Word(w) => WordRoundTrip(fp, w, rest, budget);
      case Number(_, _, _, _) => NumberValueReads(fp, t, budget, rest);
      case Text(us) => TextReads(fp, us, budget, rest);
      case EmptyList(space) => EmptyReads(fp, space, budget, rest);
      case EmptyRecord(space) => EmptyReads(fp, space, budget, rest);
      case List(items) =>
        assert TreeText(t) + rest == "[" + (ItemsText(items) + rest);
        OpenList(fp, items, budget - 1, rest);
        ItemsRead(fp, items, budget - 1, [], rest);
        assert [] + ItemsValue(fp, items, budget - 1) == ItemsValue(fp, items, budget - 1);
      case Record(members) =>
        assert TreeText(t) + rest == "{" + (MembersText(members) + rest);
        OpenRecord(fp, members, budget - 1, rest);
        MembersRead(fp, members, budget - 1, [], rest);
    }
  }

  // ----- values: every value read is a document

  lemma {:induction false} SpaceOf(t: string) returns (w: string)
    ensures IsSpace(w) && t == w + SkipWs(t)
  {
    if t != [] && IsWs(t[0]) {
      var more := SpaceOf(t[1..]);
      w := [t[0]] + more;
      assert t == [t[0]] + t[1..];
    } else {
      w := "";
    }
  }

  lemma LiteralOf(fp: Rounding, t: string, budget: nat) returns (tree: Tree)
    requires ParseLiteral(t).Ok?
    ensures Good(tree, budget) && t == TreeText(tree) + ParseLiteral(t).rest
    ensures TreeValue(fp, tree, budget) == ParseLiteral(t).value
  {
    var n := if StartsWith(t, "null") || StartsWith(t, "true") then 4 else if StartsWith(t, "false") then 5
             else if StartsWith(t, "NaN") then 3 else 8;
    tree := Word(t[..n]);
    assert t == t[..n] + t[n..];
  }

  lemma {:induction false} TreeOf(fp: Rounding, t: string, budget: nat) returns (tree: Tree)
    requires ParseValue(fp, t, budget).Ok?
    ensures Good(tree, budget) && t == TreeText(tree) + ParseValue(fp, t, budget).rest
    ensures TreeValue(fp, tree, budget) == ParseValue(fp, t, budget).value
    decreases |t|, 3
  {
    hide SkipWs, ParseItems, ParseFields, ParseString, ParseNumber, ParseLiteral, ItemsText, MembersText, GoodItems,
      GoodMembers, UnitsText, UnitsValue, GoodUnits, IsSpace, Collapse, FracText, ExpPartText, GoodExp, IntegerOf,
      LiteralValue, IsNatLiteral, AllDigits, ItemsValue, MembersValue;
    if Starts(t, '{') {
      tree := RecordOf(fp, t, budget);
    } else if Starts(t, '[') {
      tree := ListOf(fp, t, budget);
    } else if Starts(t, '"') {
      var us := UnitsOf(t[1..], []);
      tree := Text(us);
      assert [] + UnitsValue(us) == UnitsValue(us);
      assert t == "\"" + t[1..];
    } else if Starts(t, '-') || IsDigit(t[0]) {
      if StartsWith(t, "-Infinity") {
        tree := Word("-Infinity");
        assert t == t[..9] + t[9..];
      } else {
        tree := NumberOf(fp, t);
      }
    } else {
      tree := LiteralOf(fp, t, budget);
    }
  }

  lemma ListOf(fp: Rounding, t: string, budget: nat) returns (tree: Tree)
    requires Starts(t, '[') && ParseValue(fp, t, budget).Ok?
    ensures Good(tree, budget) && t == TreeText(tree) + ParseValue(fp, t, budget).rest
    ensures TreeValue(fp, tree, budget) == ParseValue(fp, t, budget).value
    decreases |t|, 2
  {
    hide SkipWs, ParseItems, ParseFields, ItemsText, GoodItems, IsSpace, ItemsValue;
    var x := t[1..];
    assert t == "[" + x;
    var w := SpaceOf(x);
    var rest := ParseValue(fp, t, budget).rest;
    if Starts(SkipWs(x), ']') {
      tree := EmptyList(w);
      assert SkipWs(x) == "]" + rest;
      assert "[" + (w + ("]" + rest)) == TreeText(tree) + rest;
    } else {
      SkipWsIdempotent(x);
      ItemsSkipWs(fp, SkipWs(x), x, budget - 1, []);
      var items := ItemsOf(fp, x, budget - 1, []);
      tree := List(items);
      assert [] + ItemsValue(fp, items, budget - 1) == ItemsValue(fp, items, budget - 1);
      assert "[" + (ItemsText(items) + rest) == TreeText(tree) + rest;
    }
  }

  lemma RecordOf(fp: Rounding, t: string, budget: nat) returns (tree: Tree)
    requires Starts(t, '{') && ParseValue(fp, t, budget).Ok?
    ensures Good(tree, budget) && t == TreeText(tree) + ParseValue(fp, t, budget).rest
    ensures TreeValue(fp, tree, budget) == ParseValue(fp, t, budget).value
    decreases |t|, 2
  {
    hide SkipWs, ParseItems, ParseFields, MembersText, GoodMembers, IsSpace, MembersValue, Collapse;
    var x := t[1..];
    assert t == "{" + x;
    var w := SpaceOf(x);
    var rest := ParseValue(fp, t, budget).rest;
    if Starts(SkipWs(x), '}') {
      tree := EmptyRecord(w);
      assert SkipWs(x) == "}" + rest;
      assert "{" + (w + ("}" + rest)) == TreeText(tree) + rest;
    } else {
      SkipWsIdempotent(x);
      FieldsSkipWs(fp, SkipWs(x), x, budget - 1, []);
      var members := MembersOf(fp, x, budget - 1, []);
      tree := Record(members);
      assert "{" + (MembersText(members) + rest) == TreeText(tree) + rest;
    }
  }

  lemma {:induction false} ItemsOf(fp: Rounding, t: string, budget: nat, done: seq<Json>) returns (s: Items)
    requires ParseItems(fp, t, budget, done).Ok?
    ensures GoodItems(s, budget) && t == ItemsText(s) + ParseItems(fp, t, budget, done).rest
    ensures ParseItems(fp, t, budget, done).value == Array(done + ItemsValue(fp, s, budget))
    decreases |t|, 4
  {
    hide SkipWs, ParseValue, TreeText, TreeValue, Good, IsSpace, ItemsText;
    var before := SpaceOf(t);
    SkipShorter(t);
    var tree := TreeOf(fp, SkipWs(t), budget);
    var t1 := ParseValue(fp, SkipWs(t), budget).rest;
    var after := SpaceOf(t1);
    var t2 := SkipWs(t1);
    SkipShorter(t1);
    var rest, v := ParseItems(fp, t, budget, done).rest, TreeValue(fp, tree, budget);
    if Starts(t2, ']') {
      s := LastItem(before, tree, after);
      assert t2 == [']'] + rest;
      assert ItemsValue(fp, s, budget) == [v];
    } else {
      var more := ItemsOf(fp, t2[1..], budget, done + [v]);
      s := NextItem(before, tree, after, more);
      assert t2 == [','] + t2[1..];
      assert done + [v] + ItemsValue(fp, more, budget) == done + ItemsValue(fp, s, budget);
    }
    ItemsUnfold(s, rest);
  }

  lemma SkipShorter(t: string)
    ensures |SkipWs(t)| <= |t|
  {
  }

  lemma MemberOf(fp: Rounding, t: string, budget: nat)
    returns (key: seq<Unit>, colon: string, gap: string, tree: Tree, rest: string)
    requires ParseField(fp, t, budget).Ok?
    ensures GoodUnits(key) && IsSpace(colon) && IsSpace(gap) && Good(tree, budget)
    ensures rest == ParseField(fp, t, budget).rest
    ensures t == "\"" + (UnitsText(key) + (colon + ([':'] + (gap + (TreeText(tree) + rest)))))
    ensures ParseField(fp, t, budget).value == Keyed(UnitsValue(key), TreeValue(fp, tree, budget))
    decreases |t|, 4
  {
    hide SkipWs, ParseValue, ParseString, TreeText, TreeValue, Good, GoodUnits, UnitsText, UnitsValue, IsSpace;
    key := UnitsOf(t[1..], []);
    assert [] + UnitsValue(key) == UnitsValue(key);
    var t1 := ParseString(t[1..], []).rest;
    colon := SpaceOf(t1);
    var t2 := SkipWs(t1);
    SkipShorter(t1);
    gap := SpaceOf(t2[1..]);
    SkipShorter(t2[1..]);
    tree := TreeOf(fp, SkipWs(t2[1..]), budget);
    rest := ParseValue(fp, SkipWs(t2[1..]), budget).rest;
    assert t2 == [':'] + t2[1..] && t == "\"" + t[1..];
  }

  lemma {:induction false} MembersOf(fp: Rounding, t: string, budget: nat, done: seq<Keyed<Json>>) returns (s: Members)
    requires ParseFields(fp, t, budget, done).Ok?
    ensures GoodMembers(s, budget) && t == MembersText(s) + ParseFields(fp, t, budget, done).rest
    ensures ParseFields(fp, t, budget, done).value == Object(Collapse(done, MembersValue(fp, s, budget)))
    decreases |t|, 5
  {
    hide SkipWs, ParseField, TreeText, TreeValue, Good, GoodUnits, UnitsText, UnitsValue, IsSpace, MembersText, Upsert;
    var before := SpaceOf(t);
    SkipShorter(t);
    var key, colon, gap, tree, t1 := MemberOf(fp, SkipWs(t), budget);
    var after := SpaceOf(t1);
    var t2 := SkipWs(t1);
    SkipShorter(t1);
    var rest, f := ParseFields(fp, t, budget, done).rest, Keyed(UnitsValue(key), TreeValue(fp, tree, budget));
    if Starts(t2, '}') {
      s := LastMember(before, key, colon, gap, tree, after);
      assert t2 == ['}'] + rest;
      assert MembersValue(fp, s, budget) == [f];
    } else {
      var more := MembersOf(fp, t2[1..], budget, Upsert(done, f.key, f.value));
      s := NextMember(before, key, colon, gap, tree, after, more);
      assert t2 == [','] + t2[1..];
      assert MembersValue(fp, s, budget)[1..] == MembersValue(fp, more, budget);
    }
    MembersUnfold(s, rest);
  }

  // ----- the theorem

  /** `text` is a document, with white space around it, that means `v`. */
  ghost predicate Denotes(fp: Rounding, text: string, v: Json) {
    exists before, tree, after :: DenotesBy(fp, text, v, before, tree, after)
  }

  ghost predicate DenotesBy(fp: Rounding, text: string, v: Json, before: string, tree: Tree, after: string) {
    && IsSpace(before) && IsSpace(after) && Good(tree, 512)
    && text == before + (TreeText(tree) + after) && TreeValue(fp, tree, 512) == v
  }

  lemma {:induction false} AllSkipped(w: string)
    ensures SkipWs(w) == [] <==> IsSpace(w)
  {
    if w != [] {
      AllSkipped(w[1..]);
      assert IsSpace(w) <==> IsWs(w[0]) && IsSpace(w[1..]);
    }
  }

  /** The parser returns a value exactly for the documents of the grammar that mean it. */
  lemma ParseIsExact(fp: Rounding, text: string, v: Json)
    ensures Parse(fp, text) == Some(v) <==> Denotes(fp, text, v)
  {
    hide ParseValue, Good, TreeText, TreeValue, IsSpace, SkipWs;
    if Parse(fp, text) == Some(v) {
      var before := SpaceOf(text);
      var tree := TreeOf(fp, SkipWs(text), MAX_DEPTH);
      var after := ParseValue(fp, SkipWs(text), MAX_DEPTH).rest;
      AllSkipped(after);
      assert DenotesBy(fp, text, v, before, tree, after);
    }
    if before, tree, after :| DenotesBy(fp, text, v, before, tree, after) {
      SkipToTree(before, tree, MAX_DEPTH, after);
      SpaceBoundary(after);
      TreeReads(fp, tree, MAX_DEPTH, after);
      AllSkipped(after);
    }
  }

  lemma SpaceBoundary(w: string)
    requires IsSpace(w)
    ensures Boundary(w)
  {
  }

  /** A document with a plus sign among its hexadecimal digits, which is read as U+00FF. */
  lemma PlusEscape(fp: Rounding)
    ensures Parse(fp, "\"\\u+0ff\"") == Some(Str([0xFF as char]))
  {
    hide Parse;
    var text, u := "\"\\u+0ff\"", Hex("+0ff");
    assert HexNumber("+0ff") == 0xFF;
    assert [u][1..] == [];
    assert UnitsText([u]) == "\\u+0ff\"" && UnitsValue([u]) == [0xFF as char];
    assert DenotesBy(fp, text, Str([0xFF as char]), "", Text([u]), "");
    ParseIsExact(fp, text, Str([0xFF as char]));
  }

  /** The hexadecimal digits in order, in lower or upper case. */
  function HexChar(i: nat, upper: bool): char
    requires i < 16
  {
    if upper then "0123456789ABCDEF"[i] else "0123456789abcdef"[i]
  }

  lemma HexCharWorth(i: nat, upper: bool)
    requires i < 16
    ensures HexWorth(HexChar(i, upper)) == i && HexVal(HexChar(i, upper)) == i && HexChar(i, upper) != '+'
  {
  }

  /** A quoted escape of four hexadecimal digits, each in either case, is read as the character
      of that number, most significant digit first. */
  lemma EscapeParses(fp: Rounding, a: nat, b: nat, c: nat, d: nat, upper: seq<bool>)
    requires a < 16 && b < 16 && c < 16 && d < 16 && |upper| == 4
    requires !(0xD800 <= a * 4096 + b * 256 + c * 16 + d < 0xE000)
    ensures
      var h := [HexChar(a, upper[0]), HexChar(b, upper[1]), HexChar(c, upper[2]), HexChar(d, upper[3])];
      Parse(fp, "\"\\u" + h + "\"") == Some(Str([(a * 4096 + b * 256 + c * 16 + d) as char]))
  {
    hide Parse, HexWorth, HexVal, HexChar;
    var h := [HexChar(a, upper[0]), HexChar(b, upper[1]), HexChar(c, upper[2]), HexChar(d, upper[3])];
    HexCharWorth(a, upper[0]);
    HexCharWorth(b, upper[1]);
    HexCharWorth(c, upper[2]);
    HexCharWorth(d, upper[3]);
    var v := Str([(a * 4096 + b * 256 + c * 16 + d) as char]);
    QuotedHex(h);
    assert DenotesBy(fp, "\"\\u" + h + "\"", v, "", Text([Hex(h)]), "");
    ParseIsExact(fp, "\"\\u" + h + "\"", v);
  }

  lemma QuotedHex(h: string)
    ensures TreeText(Text([Hex(h)])) == "\"\\u" + h + "\""
    ensures GoodUnit(Hex(h)) ==> GoodUnits([Hex(h)]) && UnitsValue([Hex(h)]) == [UnitValue(Hex(h))]
  {
    hide GoodUnit, UnitValue;
    var us := [Hex(h)];
    assert us[1..] == [] && us[0] == Hex(h);
    assert UnitsText(us) == ("\\u" + h) + "\"";
    assert "\"" + (("\\u" + h) + "\"") == "\"\\u" + h + "\"";
    if GoodUnit(Hex(h)) {
      assert UnitsValue(us) == [UnitValue(Hex(h))] + UnitsValue(us[1..]);
    }
  }
}
