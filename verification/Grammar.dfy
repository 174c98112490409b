/**
 `PyJson::parse` as a grammar over characters.  Every function takes the text still to be
 read and returns what it read together with the text after it; `budget` is the nesting
 still allowed.
 */
module Grammar {
  import opened Decimal
  import opened Json
  import opened Utf8

  datatype Parsed<+T> = Ok(value: T, rest: string) | Err

  const MAX_DEPTH: nat := 512

  predicate IsWs(c: char) {
    c == ' ' || c == '\t' || c == '\n' || c == '\r'
  }

  function SkipWs(t: string): (r: string)
    ensures |r| <= |t|
  {
    if t != [] && IsWs(t[0]) then SkipWs(t[1..]) else t
  }

  predicate Starts(t: string, c: char) {
    t != [] && t[0] == c
  }

  predicate StartsWith(t: string, lit: string) {
    |lit| <= |t| && t[..|lit|] == lit
  }

  // ----- numbers

  function DigitCount(t: string): (n: nat)
    ensures n <= |t| && AllDigits(t[..n])
    ensures n < |t| ==> !IsDigit(t[n])
  {
    if t != [] && IsDigit(t[0]) then 1 + DigitCount(t[1..]) else 0
  }

  function SignLen(t: string): (n: nat)
    ensures n <= |t|
  {
    if Starts(t, '-') then 1 else 0
  }

  function IntLen(t: string): (n: nat)
    ensures n <= |t| && AllDigits(t[..n])
  {
    if Starts(t, '0') then 1 else DigitCount(t)
  }

  /** A point and the digits after it; a point without digits is not taken. */
  function FracLen(t: string): (n: nat)
    ensures n <= |t| && n != 1 && (n > 0 ==> AllDigits(t[1..n]))
  {
    if Starts(t, '.') && 2 <= |t| && IsDigit(t[1]) then
      assert t[1..][..DigitCount(t[1..])] == t[1..1 + DigitCount(t[1..])];
      1 + DigitCount(t[1..])
    else 0
  }

  function ExpMark(t: string): (n: nat)
    requires Starts(t, 'e') || Starts(t, 'E')
    ensures n <= |t|
  {
    if 2 <= |t| && (t[1] == '+' || t[1] == '-') then 2 else 1
  }

  /** An exponent; an exponent mark without digits is not taken. */
  function ExpLen(t: string): (n: nat)
    ensures n <= |t|
    ensures n > 0 ==> (Starts(t, 'e') || Starts(t, 'E')) && ExpMark(t) <= n && AllDigits(t[ExpMark(t)..n])
  {
    if Starts(t, 'e') || Starts(t, 'E') then
      var m := ExpMark(t);
      var k := DigitCount(t[m..]);
      assert t[m..][..k] == t[m..m + k];
      if k == 0 then 0 else m + k
    else 0
  }

  function ExpValue(t: string): int {
    var n := ExpLen(t);
    if n == 0 then 0
    else
      var v := NatVal(t[ExpMark(t)..n]);
      if t[1] == '-' then -(v as int) else v
  }

  /** The exact decimal a float literal denotes: integer digits, fraction, exponent. */
  function LiteralValue(neg: bool, ip: string, frac: string, exp: int): Decimal
    requires AllDigits(ip) && AllDigits(frac)
  {
    Make(neg, NatVal(ip + frac), exp - |frac|)
  }

  function IntegerOf(lit: string): Json
    requires IsIntLiteral(lit)
  {
    if InI128(IntLiteralValue(lit)) then Int(IntLiteralValue(lit)) else BigInt(lit)
  }

  function ParseNumber(fp: Rounding, t: string): (r: Parsed<Json>)
    ensures r.Ok? ==> |r.rest| < |t|
  {
    var s := SignLen(t);
    var a := IntLen(t[s..]);
    if a == 0 then Err
    else
      var ip := t[s..][..a];
      var t1 := t[s + a..];
      var f := FracLen(t1);
      var t2 := t1[f..];
      var e := ExpLen(t2);
      if f == 0 && e == 0 then
        IntLiteralShape(t);
        Ok(IntegerOf(t[..s + a]), t1)
      else
        var frac := if f == 0 then [] else t1[1..f];
        Ok(Float(fp(LiteralValue(s == 1, ip, frac, ExpValue(t2)))), t2[e..])
  }

  lemma IntLiteralShape(t: string)
    requires IntLen(t[SignLen(t)..]) > 0
    ensures IsIntLiteral(t[..SignLen(t) + IntLen(t[SignLen(t)..])])
  {
    var s := SignLen(t);
    var a := IntLen(t[s..]);
    var lit := t[..s + a];
    assert lit[s..] == t[s..][..a];
    assert IsNatLiteral(lit[s..]);
    if s == 0 {
      assert lit[s..] == lit;
    }
  }

  // ----- strings

  function HexVal(c: char): int {
    if IsDigit(c) then c as int - '0' as int
    else if 'a' <= c <= 'f' then c as int - 'a' as int + 10
    else if 'A' <= c <= 'F' then c as int - 'A' as int + 10
    else -1
  }

  predicate IsHex(c: char) {
    HexVal(c) >= 0
  }

  /** `u32::from_str_radix(h, 16)` on the next four characters.  The library also takes a
      leading `+`, so `\u+0ff` is read as U+00FF. */
  function Hex4(t: string): (r: Parsed<nat>)
    ensures r.Ok? ==> |t| >= 4 && r.rest == t[4..] && r.value < 0x10000
  {
    if |t| >= 4 && (IsHex(t[0]) || t[0] == '+') && IsHex(t[1]) && IsHex(t[2]) && IsHex(t[3]) then
      var lead := if t[0] == '+' then 0 else HexVal(t[0]);
      Ok(lead * 4096 + HexVal(t[1]) * 256 + HexVal(t[2]) * 16 + HexVal(t[3]), t[4..])
    else Err
  }

  function ScalarOf(code: int, rest: string): Parsed<char> {
    if IsScalar(code) then Ok(code as char, rest) else Err
  }

  /** After `\u`: one UTF-16 unit, or a surrogate pair. */
  function ParseUnicode(t: string): (r: Parsed<char>)
    ensures r.Ok? ==> |r.rest| < |t|
  {
    match Hex4(t)
    case Err => Err
    case Ok(hi, t1) =>
      if 0xD800 <= hi < 0xDC00 && StartsWith(t1, "\\u") then
        match Hex4(t1[2..])
        case Err => Err
        case Ok(lo, t2) =>
          if 0xDC00 <= lo < 0xE000 then ScalarOf(0x10000 + (hi - 0xD800) * 1024 + (lo - 0xDC00), t2) else Err
      else ScalarOf(hi, t1)
  }

  /** After a backslash. */
  function ParseEscape(t: string): (r: Parsed<char>)
    ensures r.Ok? ==> |r.rest| < |t|
  {
    if t == [] then Err
    else
      var rest := t[1..];
      match t[0]
      case '"' => Ok('"', rest)
      case '\\' => Ok('\\', rest)
      case '/' => Ok('/', rest)
      case 'b' => Ok(8 as char, rest)
      case 'f' => Ok(12 as char, rest)
      case 'n' => Ok('\n', rest)
      case 'r' => Ok('\r', rest)
      case 't' => Ok('\t', rest)
      case 'u' => ParseUnicode(rest)
      case _ => Err
  }

  /** The characters up to the closing quote, appended to `out`. */
  function ParseString(t: string, out: string): (r: Parsed<string>)
    ensures r.Ok? ==> |r.rest| < |t|
    decreases |t|
  {
    if t == [] then Err
    else if t[0] == '"' then Ok(out, t[1..])
    else if t[0] == '\\' then
      match ParseEscape(t[1..])
      case Err => Err
      case Ok(c, rest) => ParseString(rest, out + [c])
    else if (t[0] as int) < 32 then Err
    else ParseString(t[1..], out + [t[0]])
  }

  // ----- values

  function ParseLiteral(t: string): (r: Parsed<Json>)
    ensures r.Ok? ==> |r.rest| < |t|
  {
    if StartsWith(t, "null") then Ok(Null, t[4..])
    else if StartsWith(t, "true") then Ok(Bool(true), t[4..])
    else if StartsWith(t, "false") then Ok(Bool(false), t[5..])
    else if StartsWith(t, "NaN") then Ok(Float(NaN), t[3..])
    else if StartsWith(t, "Infinity") then Ok(Float(Infinity(false)), t[8..])
    else Err
  }

  function ParseValue(fp: Rounding, t: string, budget: nat): (r: Parsed<Json>)
    ensures r.Ok? ==> |r.rest| < |t|
    decreases |t|, 0
  {
    if Starts(t, '{') then
      if budget == 0 then Err
      else if Starts(SkipWs(t[1..]), '}') then Ok(Object([]), SkipWs(t[1..])[1..])
      else ParseFields(fp, SkipWs(t[1..]), budget - 1, [])
    else if Starts(t, '[') then
      if budget == 0 then Err
      else if Starts(SkipWs(t[1..]), ']') then Ok(Array([]), SkipWs(t[1..])[1..])
      else ParseItems(fp, SkipWs(t[1..]), budget - 1, [])
    else if Starts(t, '"') then
      match ParseString(t[1..], [])
      case Err => Err
      case Ok(s, rest) => Ok(Str(s), rest)
    else if Starts(t, '-') || (t != [] && IsDigit(t[0])) then
      if StartsWith(t, "-Infinity") then Ok(Float(Infinity(true)), t[9..]) else ParseNumber(fp, t)
    else ParseLiteral(t)
  }

  /** The items of an array from one item's start, appended to `items`. */
  function ParseItems(fp: Rounding, t: string, budget: nat, items: seq<Json>): (r: Parsed<Json>)
    ensures r.Ok? ==> |r.rest| < |t|
    decreases |t|, 1
  {
    match ParseValue(fp, SkipWs(t), budget)
    case Err => Err
    case Ok(v, t1) =>
      var t2 := SkipWs(t1);
      if Starts(t2, ']') then Ok(Array(items + [v]), t2[1..])
      else if Starts(t2, ',') then ParseItems(fp, t2[1..], budget, items + [v])
      else Err
  }

  /** One `"key": value`, up to the value's end. */
  function ParseField(fp: Rounding, t: string, budget: nat): (r: Parsed<Keyed<Json>>)
    ensures r.Ok? ==> |r.rest| < |t|
    decreases |t|, 1
  {
    if !Starts(t, '"') then Err
    else match ParseString(t[1..], [])
      case Err => Err
      case Ok(k, t1) =>
        var t2 := SkipWs(t1);
        if !Starts(t2, ':') then Err
        else match ParseValue(fp, SkipWs(t2[1..]), budget)
          case Err => Err
          case Ok(v, t3) => Ok(Keyed(k, v), t3)
  }

  /** The fields of an object from one field's start, upserted into `fields`. */
  function ParseFields(fp: Rounding, t: string, budget: nat, fields: seq<Keyed<Json>>): (r: Parsed<Json>)
    ensures r.Ok? ==> |r.rest| < |t|
    decreases |t|, 2
  {
    match ParseField(fp, SkipWs(t), budget)
    case Err => Err
    case Ok(f, t1) =>
      var t2 := SkipWs(t1);
      var fields' := Upsert(fields, f.key, f.value);
      if Starts(t2, '}') then Ok(Object(fields'), t2[1..])
      else if Starts(t2, ',') then ParseFields(fp, t2[1..], budget, fields')
      else Err
  }

  /** `PyJson::parse`: one value, with white space around it, is the whole text. */
  function Parse(fp: Rounding, t: string): Option<Json> {
    match ParseValue(fp, SkipWs(t), MAX_DEPTH)
    case Err => None
    case Ok(v, rest) => if SkipWs(rest) == [] then Some(v) else None
  }
}
