/**
 What printed text looks like, character by character: separators, indentation, escapes and the
 two forms of a floating point number.
 */
module TextForm {
  import opened Decimal
  import opened Json
  import opened Printer
  import opened Scalars
  import opened Utf8

  // ----- containers

  /** Texts with a separator between them. */
  function JoinBy(sep: string, texts: seq<string>): string {
    if texts == [] then "" else if |texts| == 1 then texts[0] else texts[0] + sep + JoinBy(sep, texts[1..])
  }

  function Blanks(n: nat): (s: string)
    ensures |s| == n && forall i :: 0 <= i < n ==> s[i] == ' '
  {
    if n == 0 then "" else " " + Blanks(n - 1)
  }

  /** A container's text: on one line, or one entry to a line and each level indented by `n`. */
  function Container(left: string, right: string, texts: seq<string>, opts: DumpOptions, depth: nat): string {
    if opts.indent.None? then left + JoinBy(if opts.compact then "," else ", ", texts) + right
    else
      var inner := "\n" + Blanks(opts.indent.value * (depth + 1));
      left + inner + JoinBy("," + inner, texts) + ("\n" + Blanks(opts.indent.value * depth)) + right
  }

  function MemberText(key: string, value: string, opts: DumpOptions): string {
    StrText(key, opts.ensureAscii) + (if opts.compact && opts.indent.None? then ":" else ": ") + value
  }

  lemma BlanksAreSpaces(n: nat)
    ensures Blanks(n) == Spaces(n)
  {
  }

  lemma {:induction false} JoinOnLines(texts: seq<string>, lay: Layout)
    requires texts != []
    ensures Join(texts, lay) == lay.open + JoinBy(lay.itemSep + lay.open, texts)
  {
    if |texts| > 1 {
      JoinOnLines(texts[1..], lay);
      var rest := JoinBy(lay.itemSep + lay.open, texts[1..]);
      assert lay.open + texts[0] + lay.itemSep + (lay.open + rest) ==
             lay.open + (texts[0] + (lay.itemSep + lay.open) + rest);
    }
  }

  lemma ContainerForm(left: string, right: string, texts: seq<string>, opts: DumpOptions, depth: nat)
    requires texts != []
    ensures left + Join(texts, LayoutOf(opts, depth)) + LayoutOf(opts, depth).close + right
         == Container(left, right, texts, opts, depth)
  {
    hide Join, JoinBy, Blanks, Spaces;
    var lay := LayoutOf(opts, depth);
    JoinOnLines(texts, lay);
    if opts.indent.None? {
      assert lay.itemSep + "" == lay.itemSep;
      var body := JoinBy(lay.itemSep, texts);
      assert left + ("" + body) + "" + right == left + body + right;
    } else {
      BlanksAreSpaces(opts.indent.value * (depth + 1));
      BlanksAreSpaces(opts.indent.value * depth);
      var body := JoinBy("," + lay.open, texts);
      assert left + (lay.open + body) + lay.close + right == left + lay.open + body + lay.close + right;
    }
  }

  /** An array is its items' texts between brackets. */
  lemma ListForm(items: seq<Json>, opts: DumpOptions, depth: nat)
    ensures Dump(Array(items), opts, depth) ==
              if items == [] then "[]"
              else
                var texts := seq(|items|, i requires 0 <= i < |items| => Dump(items[i], opts, depth + 1));
                Container("[", "]", texts, opts, depth)
  {
    hide Join, Container, LayoutOf;
    if items != [] {
      var texts := seq(|items|, i requires 0 <= i < |items| => Dump(items[i], opts, depth + 1));
      assert DumpAll(items, opts, depth + 1) == texts;
      ContainerForm("[", "]", texts, opts, depth);
    }
  }

  /** The fields in the order they are printed in: as they stand, or sorted. */
  function Printed(fields: seq<Keyed<Json>>, opts: DumpOptions): seq<Keyed<Json>> {
    if opts.sortKeys then SortByKey(fields) else fields
  }

  function MemberTexts(fields: seq<Keyed<Json>>, opts: DumpOptions, depth: nat): seq<string> {
    seq(|fields|, i requires 0 <= i < |fields| =>
      MemberText(fields[i].key, Dump(fields[i].value, opts, depth), opts))
  }

  lemma MembersForm(fields: seq<Keyed<Json>>, opts: DumpOptions, depth: nat)
    ensures FieldTexts(DumpFields(fields, opts, depth + 1), LayoutOf(opts, depth), opts.ensureAscii)
         == MemberTexts(fields, opts, depth + 1)
  {
    hide Dump, StrText, Spaces;
  }

  lemma SameSize(fields: seq<Keyed<Json>>, opts: DumpOptions)
    ensures |Printed(fields, opts)| == |fields|
  {
    SortEffect(fields);
  }

  /** An object is its members' texts between braces. */
  lemma RecordForm(fields: seq<Keyed<Json>>, opts: DumpOptions, depth: nat)
    ensures Dump(Object(fields), opts, depth) ==
              if fields == [] then "{}"
              else Container("{", "}", MemberTexts(Printed(fields, opts), opts, depth + 1), opts, depth)
  {
    hide Join, Container, LayoutOf, FieldTexts, MemberTexts, SortByKey, DumpFields;
    if fields != [] {
      DumpOrdered(fields, opts, depth + 1);
      MembersForm(Printed(fields, opts), opts, depth);
      SameSize(fields, opts);
      MemberCount(Printed(fields, opts), opts, depth + 1);
      ContainerForm("{", "}", MemberTexts(Printed(fields, opts), opts, depth + 1), opts, depth);
    }
  }

  lemma MemberCount(fields: seq<Keyed<Json>>, opts: DumpOptions, depth: nat)
    ensures |MemberTexts(fields, opts, depth)| == |fields|
  {
    hide Dump;
  }

  /** The other values. */
  lemma ScalarForm(v: Json, opts: DumpOptions, depth: nat)
    ensures v.Null? ==> Dump(v, opts, depth) == "null"
    ensures v.Bool? ==> Dump(v, opts, depth) == if v.b then "true" else "false"
    ensures v.Int? ==> Dump(v, opts, depth) == IntText(v.n)
    ensures v.BigInt? ==> Dump(v, opts, depth) == v.lit
    ensures v.Float? ==> Dump(v, opts, depth) == FloatRepr(v.f)
    ensures v.Str? ==> Dump(v, opts, depth) == StrText(v.s, opts.ensureAscii)
  {
  }

  /** `json.dumps(value)`: comma and blank, colon and blank, fields in their order. */
  lemma PythonDefaultForm(items: seq<Json>, fields: seq<Keyed<Json>>, texts: seq<string>, members: seq<string>)
    requires items != [] && |texts| == |items| && fields != [] && |members| == |fields|
    requires forall i :: 0 <= i < |items| ==> texts[i] == Dump(items[i], PYTHON_DEFAULT, 1)
    requires forall i :: 0 <= i < |fields| ==>
               members[i] == StrText(fields[i].key, true) + ": " + Dump(fields[i].value, PYTHON_DEFAULT, 1)
    ensures Dumps(Array(items), PYTHON_DEFAULT) == "[" + JoinBy(", ", texts) + "]"
    ensures Dumps(Object(fields), PYTHON_DEFAULT) == "{" + JoinBy(", ", members) + "}"
  {
    hide Dump, JoinBy, StrText;
    ListForm(items, PYTHON_DEFAULT, 0);
    assert texts == seq(|items|, i requires 0 <= i < |items| => Dump(items[i], PYTHON_DEFAULT, 1));
    RecordForm(fields, PYTHON_DEFAULT, 0);
    assert members == MemberTexts(fields, PYTHON_DEFAULT, 1);
  }

  /** What is signed: comma, colon, fields sorted. */
  lemma SigningForm(items: seq<Json>, fields: seq<Keyed<Json>>, texts: seq<string>, members: seq<string>)
    requires items != [] && |texts| == |items| && fields != [] && |members| == |SortByKey(fields)|
    requires forall i :: 0 <= i < |items| ==> texts[i] == Dump(items[i], SIGNING, 1)
    requires forall i :: 0 <= i < |SortByKey(fields)| ==>
               var f := SortByKey(fields)[i];
               members[i] == StrText(f.key, false) + ":" + Dump(f.value, SIGNING, 1)
    ensures Dumps(Array(items), SIGNING) == "[" + JoinBy(",", texts) + "]"
    ensures Dumps(Object(fields), SIGNING) == "{" + JoinBy(",", members) + "}"
  {
    hide Dump, JoinBy, StrText, SortByKey;
    ListForm(items, SIGNING, 0);
    assert texts == seq(|items|, i requires 0 <= i < |items| => Dump(items[i], SIGNING, 1));
    RecordForm(fields, SIGNING, 0);
    assert members == MemberTexts(SortByKey(fields), SIGNING, 1);
  }

  /** `json.dumps(value, indent=2, ensure_ascii=False)`: an entry to a line. */
  lemma PrettyForm(items: seq<Json>, fields: seq<Keyed<Json>>, texts: seq<string>, members: seq<string>)
    requires items != [] && |texts| == |items| && fields != [] && |members| == |fields|
    requires forall i :: 0 <= i < |items| ==> texts[i] == Dump(items[i], PRETTY, 1)
    requires forall i :: 0 <= i < |fields| ==>
               members[i] == StrText(fields[i].key, false) + ": " + Dump(fields[i].value, PRETTY, 1)
    ensures Dumps(Array(items), PRETTY) == "[\n  " + JoinBy(",\n  ", texts) + "\n]"
    ensures Dumps(Object(fields), PRETTY) == "{\n  " + JoinBy(",\n  ", members) + "\n}"
  {
    hide Dump, JoinBy, StrText, Container;
    ListForm(items, PRETTY, 0);
    assert texts == seq(|items|, i requires 0 <= i < |items| => Dump(items[i], PRETTY, 1));
    RecordForm(fields, PRETTY, 0);
    assert members == MemberTexts(fields, PRETTY, 1);
    PrettyContainer("[", "]", texts);
    PrettyContainer("{", "}", members);
    assert "[" + "\n  " == "[\n  " && "{" + "\n  " == "{\n  " && "\n" + "]" == "\n]" && "\n" + "}" == "\n}";
  }

  lemma PrettyContainer(left: string, right: string, texts: seq<string>)
    ensures Container(left, right, texts, PRETTY, 0) == (left + "\n  ") + JoinBy(",\n  ", texts) + ("\n" + right)
  {
    hide JoinBy;
    assert Blanks(2) == "  " && Blanks(0) == "";
    assert "\n" + Blanks(2) == "\n  " && "," + "\n  " == ",\n  " && "\n" + Blanks(0) == "\n";
    var body := JoinBy(",\n  ", texts);
    assert left + "\n  " + body + "\n" + right == (left + "\n  ") + body + ("\n" + right);
  }

  // ----- strings

  function LowDigit(d: nat): (c: char)
    requires d < 16
    ensures ' ' <= c <= '~'
  {
    "0123456789abcdef"[d]
  }

  /** `n` in four lower-case hexadecimal digits. */
  function LowHex(n: nat): string
    requires n < 0x10000
  {
    [LowDigit(n / 4096), LowDigit(n / 256 % 16), LowDigit(n / 16 % 16), LowDigit(n % 16)]
  }

  /** A string is its characters' escapes between quotes. */
  lemma {:induction false} StringForm(s: string, ascii: bool, parts: seq<string>)
    requires |parts| == |s| && forall i :: 0 <= i < |s| ==> parts[i] == EscapeChar(s[i], ascii)
    ensures StrText(s, ascii) == "\"" + JoinBy("", parts) + "\""
  {
    hide EscapeChar;
    PartsJoined(s, ascii, parts);
  }

  lemma {:induction false} PartsJoined(s: string, ascii: bool, parts: seq<string>)
    requires |parts| == |s| && forall i :: 0 <= i < |s| ==> parts[i] == EscapeChar(s[i], ascii)
    ensures EscapeAll(s, ascii) == JoinBy("", parts)
  {
    hide EscapeChar;
    if s != [] {
      PartsJoined(s[1..], ascii, parts[1..]);
      if |s| == 1 {
        assert EscapeAll(s[1..], ascii) == [];
        assert parts[0] + [] == parts[0];
      } else {
        assert parts[0] + "" + JoinBy("", parts[1..]) == parts[0] + JoinBy("", parts[1..]);
      }
    }
  }

  /** The two-character escapes. */
  lemma ShortEscapes(ascii: bool)
    ensures EscapeChar('"', ascii) == "\\\"" && EscapeChar('\\', ascii) == "\\\\"
    ensures EscapeChar('\n', ascii) == "\\n" && EscapeChar('\r', ascii) == "\\r" && EscapeChar('\t', ascii) == "\\t"
    ensures EscapeChar(8 as char, ascii) == "\\b" && EscapeChar(12 as char, ascii) == "\\f"
  {
  }

  predicate HasShortEscape(c: char) {
    c in ['"', '\\', '\n', '\r', '\t'] || c as int == 8 || c as int == 12
  }

  /** Every other character is itself unless it is a control character or, in ASCII mode, not
      printable ASCII; then it is its UTF-16 units in lower-case hexadecimal. */
  lemma OtherEscapes(c: char, ascii: bool)
    requires !HasShortEscape(c)
    ensures
      var n := c as int;
      EscapeChar(c, ascii) ==
        if n >= 32 && (!ascii || n < 127) then [c]
        else if n < 0x10000 then "\\u" + LowHex(n)
        else "\\u" + LowHex(0xD800 + (n - 0x10000) / 1024) + "\\u" + LowHex(0xDC00 + (n - 0x10000) % 1024)
  {
    assert '~' as int == 126;
    if c as int >= 0x10000 {
      assert 0xD800 + (c as int - 0x10000) / 1024 < 0x10000;
      AssocPair(Hex4Text(0xD800 + (c as int - 0x10000) / 1024), Hex4Text(0xDC00 + (c as int - 0x10000) % 1024));
    }
  }

  lemma AssocPair(a: string, b: string)
    ensures ("\\u" + a) + ("\\u" + b) == "\\u" + a + "\\u" + b
  {
  }

  // ----- with `ensure_ascii` everything printed is printable ASCII

  /** Printable ASCII, and line ends where the text is indented. */
  predicate IsAscii(s: string, lines: bool) {
    forall i :: 0 <= i < |s| ==> ' ' <= s[i] <= '~' || (lines && s[i] == '\n')
  }

  lemma AsciiAppend(a: string, b: string, lines: bool)
    requires IsAscii(a, lines) && IsAscii(b, lines)
    ensures IsAscii(a + b, lines)
  {
  }

  lemma {:induction false} JoinAscii(sep: string, texts: seq<string>, lines: bool)
    requires IsAscii(sep, lines) && forall i :: 0 <= i < |texts| ==> IsAscii(texts[i], lines)
    ensures IsAscii(JoinBy(sep, texts), lines)
  {
    hide IsAscii;
    if |texts| > 1 {
      JoinAscii(sep, texts[1..], lines);
      AsciiAppend(texts[0], sep, lines);
      AsciiAppend(texts[0] + sep, JoinBy(sep, texts[1..]), lines);
    } else if texts == [] {
      assert IsAscii("", lines) by { AsciiNothing(lines); }
    }
  }

  lemma AsciiNothing(lines: bool)
    ensures IsAscii("", lines)
  {
  }

  lemma ContainerAscii(left: string, right: string, texts: seq<string>, opts: DumpOptions, depth: nat)
    requires IsAscii(left, false) && IsAscii(right, false)
    requires forall i :: 0 <= i < |texts| ==> IsAscii(texts[i], opts.indent.Some?)
    ensures IsAscii(Container(left, right, texts, opts, depth), opts.indent.Some?)
  {
    hide JoinBy;
    if opts.indent.None? {
      JoinAscii(if opts.compact then "," else ", ", texts, false);
    } else {
      var inner := "\n" + Blanks(opts.indent.value * (depth + 1));
      assert IsAscii("," + inner, true);
      JoinAscii("," + inner, texts, true);
    }
  }

  lemma ShortAscii(c: char)
    requires HasShortEscape(c)
    ensures IsAscii(EscapeChar(c, true), false)
  {
    ShortEscapes(true);
    hide EscapeChar;
  }

  lemma UnitAscii(n: nat)
    requires n < 0x10000
    ensures IsAscii("\\u" + LowHex(n), false)
  {
    hide LowDigit;
  }

  lemma EscapeAscii(c: char)
    ensures IsAscii(EscapeChar(c, true), false)
  {
    hide LowHex, EscapeChar, HasShortEscape;
    var n := c as int;
    if HasShortEscape(c) {
      ShortAscii(c);
    } else {
      OtherEscapes(c, true);
      if n >= 0x10000 {
        var hi, lo := 0xD800 + (n - 0x10000) / 1024, 0xDC00 + (n - 0x10000) % 1024;
        assert hi < 0x10000 && lo < 0x10000;
        UnitAscii(hi);
        UnitAscii(lo);
        AsciiAppend("\\u" + LowHex(hi), "\\u" + LowHex(lo), false);
        AssocPair(LowHex(hi), LowHex(lo));
      } else if n < 32 || n >= 127 {
        UnitAscii(n);
      }
    }
  }

  lemma {:induction false} StringAscii(s: string)
    ensures IsAscii(StrText(s, true), false)
  {
    hide EscapeChar, IsAscii;
    EscapeAllAscii(s);
    assert IsAscii("\"", false) by { QuoteAscii(); }
    AsciiAppend("\"", EscapeAll(s, true), false);
    AsciiAppend("\"" + EscapeAll(s, true), "\"", false);
  }

  lemma QuoteAscii()
    ensures IsAscii("\"", false)
  {
  }

  lemma {:induction false} EscapeAllAscii(s: string)
    ensures IsAscii(EscapeAll(s, true), false)
  {
    hide EscapeChar, IsAscii;
    if s == [] {
      AsciiNothing(false);
    } else {
      EscapeAscii(s[0]);
      EscapeAllAscii(s[1..]);
      AsciiAppend(EscapeChar(s[0], true), EscapeAll(s[1..], true), false);
    }
  }

  lemma ScalarAscii(fp: Rounding, v: Json, opts: DumpOptions, depth: nat)
    requires Valid(fp, v) && opts.ensureAscii && !v.Array? && !v.Object?
    ensures IsAscii(Dump(v, opts, depth), false)
  {
    hide StrText;
    match v {
      case Str(s) => StringAscii(s);
      case Float(f) => FloatAscii(f);
      case _ =>
    }
  }

  lemma DigitsAscii(s: string)
    requires AllDigits(s)
    ensures IsAscii(s, false)
  {
  }

  lemma ExponentAscii(exp: Option<int>)
    ensures IsAscii(ExpText(exp), false)
  {
    hide NatText;
    if exp.Some? {
      DigitsAscii(Padded(if exp.value < 0 then -exp.value else exp.value));
    }
  }

  lemma PointAscii(frac: string)
    requires AllDigits(frac)
    ensures IsAscii(FracText(frac), false)
  {
  }

  lemma NamesAscii(neg: bool)
    ensures IsAscii("NaN", false) && IsAscii(if neg then "-Infinity" else "Infinity", false)
    ensures IsAscii(SignText(neg), false)
  {
  }

  lemma FloatAscii(f: Float)
    requires f.Finite? ==> Canonical(f.d)
    ensures IsAscii(FloatRepr(f), false)
  {
    hide Magnitude, ExpText, FracText, NatText, IsAscii;
    match f {
      case NaN => NamesAscii(false);
      case Infinity(neg) => NamesAscii(neg);
      case Finite(d) =>
        var ip, frac, exp := MagnitudeParts(d.neg, d);
        NamesAscii(d.neg);
        DigitsAscii(ip);
        PointAscii(frac);
        ExponentAscii(exp);
        AsciiAppend(ip, FracText(frac), false);
        AsciiAppend(ip + FracText(frac), ExpText(exp), false);
        AsciiAppend(SignText(d.neg), Magnitude(d), false);
    }
  }

  /** The text of any value in ASCII mode. */
  lemma {:induction false} PrintedIsAscii(fp: Rounding, v: Json, opts: DumpOptions, depth: nat)
    requires Valid(fp, v) && opts.ensureAscii
    ensures IsAscii(Dump(v, opts, depth), opts.indent.Some?)
  {
    hide Dump, StrText, Container, SortByKey;
    match v {
      case Array(items) =>
        ListForm(items, opts, depth);
        var texts := seq(|items|, i requires 0 <= i < |items| => Dump(items[i], opts, depth + 1));
        forall i | 0 <= i < |texts| ensures IsAscii(texts[i], opts.indent.Some?) {
          PrintedIsAscii(fp, items[i], opts, depth + 1);
        }
        ContainerAscii("[", "]", texts, opts, depth);
      case Object(fields) =>
        RecordForm(fields, opts, depth);
        var printed := Printed(fields, opts);
        var texts := MemberTexts(printed, opts, depth + 1);
        forall i | 0 <= i < |texts| ensures IsAscii(texts[i], opts.indent.Some?) {
          if opts.sortKeys {
            SortMember(fields, i);
          }
          assert printed[i] in fields;
          PrintedIsAscii(fp, printed[i].value, opts, depth + 1);
          StringAscii(printed[i].key);
        }
        ContainerAscii("{", "}", texts, opts, depth);
      case _ => ScalarAscii(fp, v, opts, depth);
    }
  }

  // ----- floating point

  /** The number is at least ten to the `k` in magnitude. */
  predicate AtLeast(d: Decimal, k: int) {
    if d.exp >= k then d.coef >= 1 else d.coef >= Pow10(k - d.exp)
  }

  lemma {:induction false} DigitsBound(n: nat)
    requires n > 0
    ensures Pow10(|NatText(n)| - 1) <= n < Pow10(|NatText(n)|)
  {
    if n >= 10 {
      DigitsBound(n / 10);
    }
  }

  lemma {:induction false} PowGrows(m: nat, n: nat)
    requires m <= n
    ensures Pow10(m) <= Pow10(n)
    decreases n - m
  {
    if m < n {
      PowGrows(m, n - 1);
    }
  }

  lemma ScientificIs(d: Decimal, k: int)
    requires d.coef > 0
    ensures Scientific(d) >= k <==> AtLeast(d, k)
  {
    hide NatText, Pow10;
    DigitsBound(d.coef);
    var n := |NatText(d.coef)|;
    if d.exp < k {
      if n - 1 >= k - d.exp {
        PowGrows(k - d.exp, n - 1);
      } else {
        PowGrows(n, k - d.exp);
      }
    }
  }

  /** Below 1e-4 or from 1e16 on: one digit, the others after a point, and an exponent; otherwise
      all digits with a point, and `.0` for whole numbers.  No zero is printed that could be
      left out, and the parts denote the number. */
  lemma FloatForm(neg: bool, d: Decimal) returns (whole: string, frac: string, exp: Option<int>)
    requires Canonical(d) && d.neg == neg
    ensures FloatRepr(Finite(d)) == SignText(neg) + (whole + FracText(frac) + ExpText(exp))
    ensures exp.Some? <==> d.coef != 0 && !(AtLeast(d, -4) && !AtLeast(d, 16))
    ensures IsNatLiteral(whole) && AllDigits(frac)
    ensures exp.Some? ==> |whole| == 1 && whole != "0" && (frac == [] || frac[|frac| - 1] != '0')
    ensures exp.None? ==> frac == "0" || (frac != [] && frac[|frac| - 1] != '0')
    ensures Make(neg, NatVal(whole + frac), (if exp.Some? then exp.value else 0) - |frac|) == d
  {
    hide NatVal, Make, NatText, AtLeast, ExpText, FracText, Magnitude;
    whole, frac, exp := MagnitudeParts(neg, d);
    if d.coef != 0 {
      ScientificIs(d, -4);
      ScientificIs(d, 16);
      LastDigit(d.coef);
      NatTextLead(d.coef);
    }
  }

  lemma LastDigit(n: nat)
    ensures NatText(n)[|NatText(n)| - 1] == Digit(n % 10)
  {
  }

  /** The exponent: a sign and at least two digits, none to spare beyond two. */
  lemma ExponentForm(e: int) returns (digits: string)
    ensures ExpText(Some(e)) == (if e < 0 then "e-" else "e+") + digits
    ensures AllDigits(digits) && NatVal(digits) == (if e < 0 then -e else e)
    ensures |digits| >= 2 && (|digits| > 2 ==> digits[0] != '0')
  {
    hide NatVal, Padded;
    var m := if e < 0 then -e else e;
    digits := Padded(m);
    NatValPadded(m);
    PaddedShape(m);
    assert "e" + ("-" + digits) == "e-" + digits && "e" + ("+" + digits) == "e+" + digits;
  }

  lemma PaddedShape(m: nat)
    ensures |Padded(m)| >= 2 && (|Padded(m)| > 2 ==> Padded(m)[0] != '0')
  {
    NatTextLead(m);
  }
}
