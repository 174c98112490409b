/**
 The documents the parser is for, as syntax trees: every character of a document is in its
 tree, white space included.  Beside the grammar of RFC 8259 it has Python's `NaN` and
 infinities and the `+` that Rust's hexadecimal reader takes; and it lacks surrogate escapes
 outside a pair, which RFC 8259 allows, and documents nested deeper than the parser reads.
 */
module Syntax {
  import opened Decimal
  import opened Grammar
  import opened Json
  import opened Scalars

  /** One character of a string: itself, a short escape, a UTF-16 unit or a surrogate pair. */
  datatype Unit = Plain(c: char) | Short(letter: char) | Hex(h: string) | Pair(hi: string, lo: string)

  datatype Sign = NoSign | Plus | Minus

  datatype ExpPart = NoExp | Exp(mark: char, sign: Sign, digits: string)

  datatype Tree =
    | Word(word: string)
    | Number(neg: bool, whole: string, frac: string, exp: ExpPart)
    | Text(units: seq<Unit>)
    | EmptyList(space: string)
    | List(items: Items)
    | EmptyRecord(space: string)
    | Record(members: Members)

  /** Items up to and including the closing bracket, each with the white space around it. */
  datatype Items =
    | LastItem(before: string, value: Tree, after: string)
    | NextItem(before: string, value: Tree, after: string, more: Items)

  datatype Members =
    | LastMember(before: string, key: seq<Unit>, colon: string, gap: string, value: Tree, after: string)
    | NextMember(before: string, key: seq<Unit>, colon: string, gap: string, value: Tree, after: string, more: Members)

  // ----- which trees are documents

  /** White space is blanks, tabs and line ends. */
  predicate IsSpace(w: string) {
    forall i :: 0 <= i < |w| ==> w[i] == ' ' || w[i] == '\t' || w[i] == '\n' || w[i] == '\r'
  }

  /** What a decimal digit is worth; -1 for any other character. */
  function DigitWorth(c: char): int {
    match c
    case '0' => 0 case '1' => 1 case '2' => 2 case '3' => 3 case '4' => 4
    case '5' => 5 case '6' => 6 case '7' => 7 case '8' => 8 case '9' => 9
    case _ => -1
  }

  /** What a hexadecimal digit of either case is worth; -1 for any other character. */
  function HexWorth(c: char): int {
    match c
    case 'a' => 10 case 'b' => 11 case 'c' => 12 case 'd' => 13 case 'e' => 14 case 'f' => 15
    case 'A' => 10 case 'B' => 11 case 'C' => 12 case 'D' => 13 case 'E' => 14 case 'F' => 15
    case _ => DigitWorth(c)
  }

  /** Four characters the hexadecimal reader takes. */
  predicate IsHex4(h: string) {
    && |h| == 4 && (HexWorth(h[0]) >= 0 || h[0] == '+')
    && HexWorth(h[1]) >= 0 && HexWorth(h[2]) >= 0 && HexWorth(h[3]) >= 0
  }

  function HexNumber(h: string): nat
    requires IsHex4(h)
  {
    (if h[0] == '+' then 0 else HexWorth(h[0])) * 4096 + HexWorth(h[1]) * 256 + HexWorth(h[2]) * 16 + HexWorth(h[3])
  }

  /** Half of a UTF-16 pair. */
  predicate IsSurrogate(n: int) {
    0xD800 <= n < 0xE000
  }

  const LETTERS: string := "\"\\/bfnrt"

  predicate GoodUnit(u: Unit) {
    match u
    case Plain(c) => c != '"' && c != '\\' && c as int >= 32
    case Short(letter) => letter in LETTERS
    case Hex(h) => IsHex4(h) && !IsSurrogate(HexNumber(h))
    case Pair(hi, lo) =>
      IsHex4(hi) && IsHex4(lo) && 0xD800 <= HexNumber(hi) < 0xDC00 && 0xDC00 <= HexNumber(lo) < 0xE000
  }

  predicate GoodUnits(us: seq<Unit>) {
    forall i :: 0 <= i < |us| ==> GoodUnit(us[i])
  }

  predicate GoodExp(e: ExpPart) {
    e.Exp? ==>
      (e.mark == 'e' || e.mark == 'E') && e.digits != [] && AllDigits(e.digits)
  }

  /** A document whose containers nest at most `budget` deep. */
  predicate Good(t: Tree, budget: nat)
    decreases t
  {
    match t
    case Word(w) => w in {"null", "true", "false", "NaN", "Infinity", "-Infinity"}
    case Number(_, whole, frac, exp) => IsNatLiteral(whole) && AllDigits(frac) && GoodExp(exp)
    case Text(us) => GoodUnits(us)
    case EmptyList(space) => IsSpace(space) && budget > 0
    case List(items) => budget > 0 && GoodItems(items, budget - 1)
    case EmptyRecord(space) => IsSpace(space) && budget > 0
    case Record(members) => budget > 0 && GoodMembers(members, budget - 1)
  }

  predicate GoodItems(s: Items, budget: nat)
    decreases s
  {
    IsSpace(s.before) && IsSpace(s.after) && Good(s.value, budget) && (s.NextItem? ==> GoodItems(s.more, budget))
  }

  predicate GoodMembers(s: Members, budget: nat)
    decreases s
  {
    && IsSpace(s.before) && IsSpace(s.colon) && IsSpace(s.gap) && IsSpace(s.after)
    && GoodUnits(s.key) && Good(s.value, budget) && (s.NextMember? ==> GoodMembers(s.more, budget))
  }

  // ----- their texts

  function UnitText(u: Unit): string {
    match u
    case Plain(c) => [c]
    case Short(letter) => ['\\', letter]
    case Hex(h) => "\\u" + h
    case Pair(hi, lo) => "\\u" + (hi + ("\\u" + lo))
  }

  function UnitsText(us: seq<Unit>): string {
    if us == [] then "\"" else UnitText(us[0]) + UnitsText(us[1..])
  }

  function MarkText(mark: char, sign: Sign): string {
    match sign
    case NoSign => [mark]
    case Plus => [mark, '+']
    case Minus => [mark, '-']
  }

  function ExpPartText(e: ExpPart): string {
    if e.NoExp? then "" else MarkText(e.mark, e.sign) + e.digits
  }

  function TreeText(t: Tree): string
    decreases t
  {
    match t
    case Word(w) => w
    case Number(neg, whole, frac, exp) => SignText(neg) + (whole + (FracText(frac) + ExpPartText(exp)))
    case Text(us) => "\"" + UnitsText(us)
    case EmptyList(space) => "[" + (space + "]")
    case List(items) => "[" + ItemsText(items)
    case EmptyRecord(space) => "{" + (space + "}")
    case Record(members) => "{" + MembersText(members)
  }

  function ItemsText(s: Items): string
    decreases s
  {
    s.before + (TreeText(s.value) + (s.after + (if s.LastItem? then "]" else "," + ItemsText(s.more))))
  }

  function MembersText(s: Members): string
    decreases s
  {
    s.before + ("\"" + (UnitsText(s.key) + (s.colon + (":" + (s.gap + (TreeText(s.value)
    + (s.after + (if s.LastMember? then "}" else "," + MembersText(s.more)))))))))
  }

  // ----- and their values

  function LetterValue(letter: char): char {
    match letter
    case 'b' => 8 as char
    case 'f' => 12 as char
    case 'n' => '\n'
    case 'r' => '\r'
    case 't' => '\t'
    case _ => letter
  }

  function UnitValue(u: Unit): char
    requires GoodUnit(u)
  {
    match u
    case Plain(c) => c
    case Short(letter) => LetterValue(letter)
    case Hex(h) => HexNumber(h) as char
    case Pair(hi, lo) => (0x10000 + (HexNumber(hi) - 0xD800) * 1024 + (HexNumber(lo) - 0xDC00)) as char
  }

  function UnitsValue(us: seq<Unit>): string
    requires GoodUnits(us)
  {
    if us == [] then "" else [UnitValue(us[0])] + UnitsValue(us[1..])
  }

  /** What a string of digits is worth, digit by digit from the front. */
  function Worth(digits: string): (n: nat)
    requires AllDigits(digits)
  {
    if digits == [] then 0
    else
      DigitWorths(digits[0]);
      DigitWorth(digits[0]) * Pow10(|digits| - 1) + Worth(digits[1..])
  }

  lemma DigitWorths(c: char)
    ensures IsDigit(c) <==> 0 <= DigitWorth(c)
    ensures IsDigit(c) ==> DigitWorth(c) == DigitVal(c)
  {
  }

  function ExpPartValue(e: ExpPart): int
    requires GoodExp(e)
  {
    if e.NoExp? then 0 else if e.sign.Minus? then -(Worth(e.digits) as int) else Worth(e.digits)
  }

  /** An integer: as a number when it fits 128 bits, as its literal otherwise. */
  function WholeValue(neg: bool, whole: string): Json
    requires AllDigits(whole)
  {
    var n := if neg then -(Worth(whole) as int) else Worth(whole);
    if -0x8000_0000_0000_0000_0000_0000_0000_0000 <= n < 0x8000_0000_0000_0000_0000_0000_0000_0000 then Int(n)
    else BigInt((if neg then "-" else "") + whole)
  }

  /** `digits` times a power of ten, without trailing zeros. */
  function Denoted(neg: bool, digits: string, exp: int): Decimal
    requires AllDigits(digits)
  {
    if digits == [] then Decimal(neg, 0, 0)
    else if digits[|digits| - 1] == '0' then Denoted(neg, digits[..|digits| - 1], exp + 1)
    else Decimal(neg, Worth(digits), exp)
  }

  function WordValue(w: string): Json {
    match w
    case "null" => Null
    case "true" => Bool(true)
    case "false" => Bool(false)
    case "NaN" => Float(NaN)
    case "Infinity" => Float(Infinity(false))
    case _ => Float(Infinity(true))
  }

  /** What a document means: numbers without point and exponent are integers, others are rounded
      decimals, and of repeated keys the last value counts, in the first one's place. */
  function TreeValue(fp: Rounding, t: Tree, budget: nat): Json
    requires Good(t, budget)
    decreases t
  {
    match t
    case Word(w) => WordValue(w)
    case Number(neg, whole, frac, exp) =>
      if frac == [] && exp.NoExp? then WholeValue(neg, whole)
      else Float(fp(Denoted(neg, whole + frac, ExpPartValue(exp) - |frac|)))
    case Text(us) => Str(UnitsValue(us))
    case EmptyList(_) => Array([])
    case List(items) => Array(ItemsValue(fp, items, budget - 1))
    case EmptyRecord(_) => Object([])
    case Record(members) => Object(Collapse([], MembersValue(fp, members, budget - 1)))
  }

  lemma SignedLiteral(neg: bool, whole: string)
    requires IsNatLiteral(whole)
    ensures IsIntLiteral(SignText(neg) + whole)
  {
    if neg {
      assert (SignText(neg) + whole)[1..] == whole;
    } else {
      assert SignText(neg) + whole == whole;
    }
  }

  function ItemsValue(fp: Rounding, s: Items, budget: nat): seq<Json>
    requires GoodItems(s, budget)
    decreases s
  {
    [TreeValue(fp, s.value, budget)] + if s.LastItem? then [] else ItemsValue(fp, s.more, budget)
  }

  function MembersValue(fp: Rounding, s: Members, budget: nat): seq<Keyed<Json>>
    requires GoodMembers(s, budget)
    decreases s
  {
    [Keyed(UnitsValue(s.key), TreeValue(fp, s.value, budget))]
    + if s.LastMember? then [] else MembersValue(fp, s.more, budget)
  }
}
