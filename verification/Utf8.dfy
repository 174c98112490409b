/**
 UTF-8 as Rust strings hold it, and the order it induces.  A Rust `str` is a byte
 sequence; `char` values are Unicode scalars, which is what Dafny's `char` is too.
 */
module Utf8 {

  datatype Option<+T> = None | Some(value: T)

  type byte = b: int | 0 <= b < 256

  function EncodeChar(c: char): (r: seq<byte>)
    ensures 1 <= |r| <= 4
    ensures |r| == 1 <==> r[0] < 0x80
    ensures forall i :: 1 <= i < |r| ==> 0x80 <= r[i] < 0xC0
    ensures 1 < |r| ==> 0xC0 <= r[0]
  {
    var n := c as int;
    if n < 0x80 then [n]
    else if n < 0x800 then [0xC0 + n / 64, 0x80 + n % 64]
    else if n < 0x10000 then [0xE0 + n / 64 / 64, 0x80 + n / 64 % 64, 0x80 + n % 64]
    else [0xF0 + n / 64 / 64 / 64, 0x80 + n / 64 / 64 % 64, 0x80 + n / 64 % 64, 0x80 + n % 64]
  }

  /** A scalar in 7, 11, 16 or 21 bits, six to a byte but for the first. */
  lemma EncodedForm(c: char)
    ensures
      var (n, b) := (c as int, EncodeChar(c));
      && (n <= 0x7F ==> b == [n])
      && (0x80 <= n <= 0x7FF ==> |b| == 2 && b[0] as int * 64 + b[1] == n + 0x3080)
      && (0x800 <= n <= 0xFFFF ==> |b| == 3 && b[0] as int * 4096 + b[1] as int * 64 + b[2] == n + 0xE2080)
      && (0x10000 <= n ==>
            |b| == 4 && b[0] as int * 262144 + b[1] as int * 4096 + b[2] as int * 64 + b[3] == n + 0x3C82080)
  {
    CharBytes(c);
  }

  function Encode(s: string): seq<byte> {
    if s == [] then [] else EncodeChar(s[0]) + Encode(s[1..])
  }

  predicate Continuation(b: byte) {
    0x80 <= b < 0xC0
  }

  predicate IsScalar(n: int) {
    0 <= n < 0xD800 || 0xE000 <= n < 0x110000
  }

  function Code2(a: int, b: int): int {
    (a - 0xC0) * 64 + (b - 0x80)
  }

  function Code3(a: int, b: int, c: int): int {
    ((a - 0xE0) * 64 + (b - 0x80)) * 64 + (c - 0x80)
  }

  function Code4(a: int, b: int, c: int, d: int): int {
    (((a - 0xF0) * 64 + (b - 0x80)) * 64 + (c - 0x80)) * 64 + (d - 0x80)
  }

  /** The first scalar of `b` and the number of bytes it takes, if `b` starts well formed. */
  function DecodeFirst(b: seq<byte>): (r: Option<(char, nat)>)
    ensures r.Some? ==> 1 <= r.value.1 <= |b|
  {
    if b == [] then None
    else if b[0] < 0x80 then Some((b[0] as char, 1))
    else if 0xC2 <= b[0] < 0xE0 && 2 <= |b| && Continuation(b[1]) then
      Some((Code2(b[0], b[1]) as char, 2))
    else if 0xE0 <= b[0] < 0xF0 && 3 <= |b| && Continuation(b[1]) && Continuation(b[2]) then
      var n := Code3(b[0], b[1], b[2]);
      if 0x800 <= n && IsScalar(n) then Some((n as char, 3)) else None
    else if 0xF0 <= b[0] < 0xF8 && 4 <= |b| && Continuation(b[1]) && Continuation(b[2]) && Continuation(b[3]) then
      var n := Code4(b[0], b[1], b[2], b[3]);
      if 0x10000 <= n && IsScalar(n) then Some((n as char, 4)) else None
    else None
  }

  /** `str::from_utf8`: the scalars of a well-formed byte sequence. */
  function Decode(b: seq<byte>): (r: Option<string>)
    decreases |b|
  {
    if b == [] then Some([])
    else match DecodeFirst(b)
      case None => None
      case Some((c, n)) =>
        match Decode(b[n..])
        case None => None
        case Some(s) => Some([c] + s)
  }

  lemma DecodeFirstEncode(c: char, x: seq<byte>)
    ensures DecodeFirst(EncodeChar(c) + x) == Some((c, |EncodeChar(c)|))
  {
    var b := EncodeChar(c) + x;
    CharBytes(c);
    assert b[..|EncodeChar(c)|] == EncodeChar(c);
  }

  /** A character's code point as a polynomial in its bytes. */
  lemma CharBytes(c: char)
    ensures
      var b := EncodeChar(c);
      c as int == if |b| == 1 then b[0] else if |b| == 2 then Code2(b[0], b[1])
                  else if |b| == 3 then Code3(b[0], b[1], b[2]) else Code4(b[0], b[1], b[2], b[3])
  {
    var n := c as int;
    assert n == n / 64 * 64 + n % 64;
    assert n / 64 == n / 64 / 64 * 64 + n / 64 % 64;
  }

  lemma BytesChar(a: int, b: int, c: int, d: int)
    requires 0 <= a && 0x80 <= b < 0xC0 && 0x80 <= c < 0xC0 && 0x80 <= d < 0xC0
    ensures Code2(a + 0xC0, b) / 64 == a && Code2(a + 0xC0, b) % 64 == b - 0x80
    ensures Code3(a + 0xE0, b, c) / 64 == Code2(a + 0xC0, b) && Code3(a + 0xE0, b, c) % 64 == c - 0x80
    ensures Code4(a + 0xF0, b, c, d) / 64 == Code3(a + 0xE0, b, c) && Code4(a + 0xF0, b, c, d) % 64 == d - 0x80
  {
  }

  lemma EncodeDecodeFirst(b: seq<byte>)
    requires DecodeFirst(b).Some?
    ensures EncodeChar(DecodeFirst(b).value.0) == b[..DecodeFirst(b).value.1]
  {
    var (c, k) := DecodeFirst(b).value;
    var n := c as int;
    if k == 2 {
      BytesChar(b[0] - 0xC0, b[1], 0x80, 0x80);
      assert [0xC0 + n / 64, 0x80 + n % 64] == b[..k];
    } else if k == 3 {
      BytesChar(b[0] - 0xE0, b[1], b[2], 0x80);
      assert [0xE0 + n / 64 / 64, 0x80 + n / 64 % 64, 0x80 + n % 64] == b[..k];
    } else if k == 4 {
      BytesChar(b[0] - 0xF0, b[1], b[2], b[3]);
      assert [0xF0 + n / 64 / 64 / 64, 0x80 + n / 64 / 64 % 64, 0x80 + n / 64 % 64, 0x80 + n % 64] == b[..k];
    }
  }

  /** Decoding undoes encoding: UTF-8 loses nothing. */
  lemma {:induction false} DecodeEncode(s: string)
    ensures Decode(Encode(s)) == Some(s)
  {
    if s != [] {
      DecodeFirstEncode(s[0], Encode(s[1..]));
      DecodeEncode(s[1..]);
      var b := EncodeChar(s[0]) + Encode(s[1..]);
      assert b[|EncodeChar(s[0])|..] == Encode(s[1..]);
      assert [s[0]] + s[1..] == s;
    }
  }

  /** Encoding undoes decoding: every well-formed byte sequence is one encoding. */
  lemma {:induction false} EncodeDecode(b: seq<byte>)
    requires Decode(b).Some?
    ensures Encode(Decode(b).value) == b
    decreases |b|
  {
    hide DecodeFirst, EncodeChar;
    if b != [] {
      var (c, n) := DecodeFirst(b).value;
      EncodeDecodeFirst(b);
      EncodeDecode(b[n..]);
      assert Decode(b).value[1..] == Decode(b[n..]).value;
      assert b[..n] + b[n..] == b;
    }
  }

  lemma EncodeInjective(s: string, t: string)
    requires Encode(s) == Encode(t)
    ensures s == t
  {
    DecodeEncode(s);
    DecodeEncode(t);
  }

  lemma {:induction false} EncodeAppend(s: string, t: string)
    ensures Encode(s + t) == Encode(s) + Encode(t)
  {
    hide EncodeChar;
    if s == [] {
      assert s + t == t;
    } else {
      EncodeAppend(s[1..], t);
      assert (s + t)[1..] == s[1..] + t;
    }
  }

  /** An offset at which the text ends, or whose byte is not a continuation byte, falls between
      two characters: the text splits there.  This is `str::is_char_boundary`. */
  lemma {:induction false} SplitAt(s: string, j: nat) returns (a: string, b: string)
    requires j <= |Encode(s)|
    requires j < |Encode(s)| ==> !Continuation(Encode(s)[j])
    ensures s == a + b && Encode(a) == Encode(s)[..j] && Encode(b) == Encode(s)[j..]
  {
    if j == 0 {
      a, b := [], s;
    } else {
      var n := |EncodeChar(s[0])|;
      assert n <= j;
      var a', b' := SplitAt(s[1..], j - n);
      a, b := [s[0]] + a', b';
      assert a[1..] == a';
      assert s == [s[0]] + s[1..] == a + b;
      assert Encode(s)[..j] == EncodeChar(s[0]) + Encode(s[1..])[..j - n];
    }
  }

  // ----- lexicographic order

  /** Strict lexicographic order on sequences of numbers: `Ord` for `[u8]`, and Python's `str`
      comparison when the numbers are code points. */
  predicate LexLess(a: seq<int>, b: seq<int>) {
    b != [] && (a == [] || a[0] < b[0] || (a[0] == b[0] && LexLess(a[1..], b[1..])))
  }

  /** Two sequences that agree up to `k` and no further: the one that ends there or has the
      smaller number there comes first. */
  lemma LexExactly(a: seq<int>, b: seq<int>, k: nat)
    requires k <= |a| && k <= |b| && a[..k] == b[..k] && (k < |a| && k < |b| ==> a[k] != b[k])
    ensures LexLess(a, b) <==> k < |b| && (k == |a| || a[k] < b[k])
  {
    LexCommonPrefix(a[..k], a[k..], b[k..]);
    assert a == a[..k] + a[k..] && b == a[..k] + b[k..];
  }

  function CodePoints(s: string): seq<int> {
    seq(|s|, i requires 0 <= i < |s| => s[i] as int)
  }

  lemma {:induction false} LexCommonPrefix(p: seq<int>, a: seq<int>, b: seq<int>)
    ensures LexLess(p + a, p + b) <==> LexLess(a, b)
  {
    if p == [] {
      assert p + a == a && p + b == b;
    } else {
      LexCommonPrefix(p[1..], a, b);
      assert (p + a)[1..] == p[1..] + a;
      assert (p + b)[1..] == p[1..] + b;
    }
  }

  lemma {:induction false} LexDecide(p: seq<int>, a: seq<int>, b: seq<int>)
    requires a != [] && b != [] && a[0] < b[0]
    ensures LexLess(p + a, p + b) && !LexLess(p + b, p + a)
  {
    LexCommonPrefix(p, a, b);
    LexCommonPrefix(p, b, a);
  }

  /** Smaller code points have smaller encodings, and neither is a prefix of the other. */
  lemma EncodeCharOrder(c: char, d: char, x: seq<byte>, y: seq<byte>)
    requires c < d
    ensures LexLess(EncodeChar(c) + x, EncodeChar(d) + y)
    ensures !LexLess(EncodeChar(d) + y, EncodeChar(c) + x)
  {
    var a, b := EncodeChar(c), EncodeChar(d);
    var k := FirstDifference(c, d);
    assert a + x == a[..k] + (a[k..] + x);
    assert b + y == a[..k] + (b[k..] + y);
    LexDecide(a[..k], a[k..] + x, b[k..] + y);
  }

  lemma FirstDifference(c: char, d: char) returns (k: nat)
    requires c < d
    ensures k < |EncodeChar(c)| && k < |EncodeChar(d)|
    ensures EncodeChar(c)[..k] == EncodeChar(d)[..k] && EncodeChar(c)[k] < EncodeChar(d)[k]
  {
    var a, b := EncodeChar(c), EncodeChar(d);
    LengthOrder(c, d);
    if |a| < |b| {
      k := 0;
    } else {
      CharBytes(c);
      CharBytes(d);
      k := FirstSmallerByte(a, b);
    }
  }

  lemma LengthOrder(c: char, d: char)
    requires c < d
    ensures |EncodeChar(c)| <= |EncodeChar(d)|
    ensures |EncodeChar(c)| < |EncodeChar(d)| ==> EncodeChar(c)[0] < EncodeChar(d)[0]
  {
  }

  lemma FirstSmallerByte(a: seq<byte>, b: seq<byte>) returns (k: nat)
    requires 1 <= |a| == |b| <= 4
    requires forall i :: 1 <= i < |a| ==> Continuation(a[i]) && Continuation(b[i])
    requires |a| == 1 ==> a[0] < b[0]
    requires |a| == 2 ==> Code2(a[0], a[1]) < Code2(b[0], b[1])
    requires |a| == 3 ==> Code3(a[0], a[1], a[2]) < Code3(b[0], b[1], b[2])
    requires |a| == 4 ==> Code4(a[0], a[1], a[2], a[3]) < Code4(b[0], b[1], b[2], b[3])
    ensures k < |a| && a[..k] == b[..k] && a[k] < b[k]
  {
    k := 0;
    while k < |a| && a[k] == b[k]
      invariant k <= |a| && a[..k] == b[..k]
    {
      k := k + 1;
    }
  }

  /** Rust compares strings by UTF-8 bytes, Python by code point; the two orders are the same. */
  lemma {:induction false} ByteOrderIsCodePointOrder(s: string, t: string)
    ensures LexLess(Encode(s), Encode(t)) <==> LexLess(CodePoints(s), CodePoints(t))
  {
    if s != [] && t != [] {
      assert CodePoints(s)[1..] == CodePoints(s[1..]);
      assert CodePoints(t)[1..] == CodePoints(t[1..]);
      if s[0] == t[0] {
        ByteOrderIsCodePointOrder(s[1..], t[1..]);
        LexCommonPrefix(EncodeChar(s[0]), Encode(s[1..]), Encode(t[1..]));
      } else if s[0] < t[0] {
        EncodeCharOrder(s[0], t[0], Encode(s[1..]), Encode(t[1..]));
      } else {
        EncodeCharOrder(t[0], s[0], Encode(t[1..]), Encode(s[1..]));
      }
    }
  }

  lemma {:induction false} LexTransitive(a: seq<int>, b: seq<int>, c: seq<int>)
    requires LexLess(a, b) && LexLess(b, c)
    ensures LexLess(a, c)
  {
    if a != [] && a[0] == b[0] && b[0] == c[0] {
      LexTransitive(a[1..], b[1..], c[1..]);
    }
  }

  lemma {:induction false} LexIrreflexive(a: seq<int>)
    ensures !LexLess(a, a)
  {
    if a != [] {
      LexIrreflexive(a[1..]);
    }
  }

  lemma {:induction false} LexTotal(a: seq<int>, b: seq<int>)
    ensures a == b || LexLess(a, b) || LexLess(b, a)
  {
    if a != [] && b != [] && a[0] == b[0] {
      LexTotal(a[1..], b[1..]);
      assert a == [a[0]] + a[1..] && b == [b[0]] + b[1..];
    }
  }
}
