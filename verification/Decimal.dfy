/**
 Decimal text: digit strings, integers, and floating-point values as the decimals that
 name them.  A finite `f64` is represented by its shortest round-trip decimal, which is what
 both Rust's formatter and Python's `repr` print.
 */
module Decimal {

  predicate IsDigit(c: char) {
    '0' <= c <= '9'
  }

  predicate AllDigits(s: string) {
    forall i :: 0 <= i < |s| ==> IsDigit(s[i])
  }

  function DigitVal(c: char): (r: nat)
    requires IsDigit(c)
    ensures r < 10
  {
    c as int - '0' as int
  }

  function Digit(d: nat): (c: char)
    requires d < 10
    ensures IsDigit(c) && DigitVal(c) == d
  {
    ('0' as int + d) as char
  }

  function NatText(n: nat): (s: string)
    ensures s != [] && AllDigits(s)
  {
    if n < 10 then [Digit(n)] else NatText(n / 10) + [Digit(n % 10)]
  }

  function NatVal(s: string): nat
    requires AllDigits(s)
  {
    if s == [] then 0 else NatVal(s[..|s| - 1]) * 10 + DigitVal(s[|s| - 1])
  }

  function IntText(n: int): string {
    if n < 0 then "-" + NatText(-n) else NatText(n)
  }

  function Zeros(n: nat): (s: string)
    ensures |s| == n && AllDigits(s) && forall i :: 0 <= i < n ==> s[i] == '0'
  {
    seq(n, _ => '0')
  }

  function Pow10(n: nat): (p: nat)
    ensures p > 0
  {
    if n == 0 then 1 else 10 * Pow10(n - 1)
  }

  lemma {:induction false} NatValText(n: nat)
    ensures NatVal(NatText(n)) == n
  {
    if n >= 10 {
      NatValText(n / 10);
      assert NatText(n)[..|NatText(n)| - 1] == NatText(n / 10);
    }
  }

  /** Decimal text has no leading zero, except for zero itself. */
  lemma {:induction false} NatTextLead(n: nat)
    ensures NatText(n)[0] == '0' <==> n == 0
    ensures n == 0 ==> NatText(n) == "0"
  {
    if n >= 10 {
      NatTextLead(n / 10);
    }
  }

  lemma {:induction false} NatValAppend(a: string, b: string)
    requires AllDigits(a) && AllDigits(b)
    ensures NatVal(a + b) == NatVal(a) * Pow10(|b|) + NatVal(b)
  {
    if b == [] {
      assert a + b == a;
    } else {
      var b' := b[..|b| - 1];
      NatValAppend(a, b');
      assert (a + b)[..|a + b| - 1] == a + b';
      assert NatVal(a) * Pow10(|b|) == NatVal(a) * Pow10(|b'|) * 10;
    }
  }

  lemma {:induction false} NatValZeros(n: nat)
    ensures NatVal(Zeros(n)) == 0
  {
    if n > 0 {
      NatValZeros(n - 1);
      assert Zeros(n)[..n - 1] == Zeros(n - 1);
    }
  }

  // ----- floating point

  /** (-1)^neg * coef * 10^exp. */
  datatype Decimal = Decimal(neg: bool, coef: nat, exp: int)

  datatype Float = NaN | Infinity(neg: bool) | Finite(d: Decimal)

  /** `str::parse::<f64>` on the exact decimal a literal denotes.  Every result below holds for
      every such function, IEEE 754 rounding, overflow and underflow included. */
  type Rounding = Decimal -> Float

  predicate Canonical(d: Decimal) {
    if d.coef == 0 then d.exp == 0 else d.coef % 10 != 0
  }

  /** A value the formatter's decimal names: reading that decimal back yields the value. */
  predicate Representable(fp: Rounding, f: Float) {
    f.Finite? ==> Canonical(f.d) && fp(f.d) == f
  }

  /** Reading a literal yields a representable value. */
  ghost predicate Proper(fp: Rounding) {
    forall d :: Representable(fp, fp(d))
  }

  /** The canonical form of a decimal: no trailing zeros in the coefficient. */
  function Make(neg: bool, coef: nat, exp: int): (d: Decimal)
    ensures Canonical(d) && d.neg == neg
    ensures Canonical(Decimal(neg, coef, exp)) ==> d == Decimal(neg, coef, exp)
  {
    if coef == 0 then Decimal(neg, 0, 0)
    else if coef % 10 == 0 then Make(neg, coef / 10, exp + 1)
    else Decimal(neg, coef, exp)
  }

  lemma {:induction false} MakeScale(neg: bool, coef: nat, k: nat, exp: int)
    ensures Make(neg, coef * Pow10(k), exp) == Make(neg, coef, exp + k)
  {
    hide Make;
    if k > 0 {
      TenTimes(coef, Pow10(k - 1));
      MakeTen(neg, coef * Pow10(k - 1), exp);
      MakeScale(neg, coef, k - 1, exp + 1);
    }
  }

  lemma TenTimes(a: nat, b: nat)
    ensures a * (10 * b) == a * b * 10
  {
  }

  lemma MakeTen(neg: bool, coef: nat, exp: int)
    ensures Make(neg, coef * 10, exp) == Make(neg, coef, exp + 1)
  {
  }

  /** `float_repr`: Python's `float.__repr__` with `json.dumps`'s names for the rest. */
  function FloatRepr(f: Float): string {
    match f
    case NaN => "NaN"
    case Infinity(neg) => if neg then "-Infinity" else "Infinity"
    case Finite(d) => (if d.neg then "-" else "") + Magnitude(d)
  }

  /** The decimal exponent of the leading digit. */
  function Scientific(d: Decimal): int {
    d.exp + |NatText(d.coef)| - 1
  }

  function Magnitude(d: Decimal): string {
    var digits := NatText(d.coef);
    if d.coef != 0 && !(-4 <= Scientific(d) < 16) then
      Mantissa(digits) + "e" + Exponent(Scientific(d))
    else Positional(digits, d.exp)
  }

  function Mantissa(digits: string): string
    requires digits != []
  {
    if |digits| == 1 then digits else digits[..1] + "." + digits[1..]
  }

  function Exponent(e: int): string {
    if e < 0 then "-" + Padded(-e) else "+" + Padded(e)
  }

  /** `{:02}`. */
  function Padded(n: nat): (s: string)
    ensures s != [] && AllDigits(s)
  {
    if n < 10 then "0" + NatText(n) else NatText(n)
  }

  function Positional(digits: string, exp: int): string {
    if exp >= 0 then digits + Zeros(exp) + ".0"
    else if |digits| > -exp then digits[..|digits| + exp] + "." + digits[|digits| + exp..]
    else "0." + Zeros(-exp - |digits|) + digits
  }

  lemma NatValPadded(n: nat)
    ensures NatVal(Padded(n)) == n
  {
    NatValText(n);
    if n < 10 {
      NatValAppend("0", NatText(n));
      assert NatVal("0") == 0;
    }
  }
}
