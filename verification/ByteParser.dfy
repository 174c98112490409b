/**
 `Parser`, as the program runs it: an index into UTF-8 bytes that advances in loops.  Every
 method is proved to do what the character grammar says, to keep the index inside the text,
 and to cut text only between characters.
 */
module ByteParser {
  import opened Decimal
  import opened Grammar
  import opened Json
  import opened Scalars
  import opened Utf8

  datatype Outcome<+T> = Success(value: T) | Failure

  predicate Ascii(c: char) {
    c as int < 0x80
  }

  predicate AllAscii(s: string) {
    forall k :: 0 <= k < |s| ==> Ascii(s[k])
  }

  // ----- bytes and the characters they encode

  lemma FirstByte(t: string)
    ensures t == [] <==> Encode(t) == []
    ensures t != [] && Ascii(t[0]) ==> Encode(t)[0] == t[0] as int && Encode(t)[1..] == Encode(t[1..])
    ensures t != [] && !Ascii(t[0]) ==> Encode(t)[0] >= 0xC0
  {
  }

  /** An ASCII byte at the front is an ASCII character at the front. */
  lemma FrontByte(t: string, c: char)
    requires Ascii(c)
    ensures Starts(t, c) <==> Encode(t) != [] && Encode(t)[0] == c as int
  {
    hide Encode;
    FirstByte(t);
  }

  lemma {:induction false} AsciiPrefix(t: string, lit: string)
    requires AllAscii(lit)
    ensures |Encode(lit)| == |lit|
    ensures StartsWith(t, lit) <==> |lit| <= |Encode(t)| && Encode(t)[..|lit|] == Encode(lit)
    ensures StartsWith(t, lit) ==> Encode(t)[|lit|..] == Encode(t[|lit|..])
    decreases |lit|
  {
    if lit == [] {
      assert t[0..] == t && Encode(t)[0..] == Encode(t);
    } else {
      hide Encode;
      FirstByte(lit);
      FirstByte(t);
      if t != [] && Ascii(t[0]) {
        AsciiPrefix(t[1..], lit[1..]);
        PrefixStep(t, lit);
        BytePrefixStep(Encode(t), Encode(lit), |lit|);
        if StartsWith(t, lit) {
          assert t[1..][|lit| - 1..] == t[|lit|..];
        }
      } else {
        AsciiPrefix([], lit[1..]);
        assert |Encode(lit)| == |lit|;
        if |lit| <= |Encode(t)| {
          assert Encode(t)[..|lit|][0] == Encode(t)[0];
        }
        if |lit| <= |t| {
          assert t[..|lit|][0] == t[0];
        }
      }
    }
  }

  lemma PrefixStep(t: string, lit: string)
    requires t != [] && lit != []
    ensures StartsWith(t, lit) <==> t[0] == lit[0] && StartsWith(t[1..], lit[1..])
  {
    if |lit| <= |t| {
      assert t[..|lit|] == [t[0]] + t[1..][..|lit| - 1];
      assert lit == [lit[0]] + lit[1..];
    }
  }

  lemma BytePrefixStep(b: seq<byte>, l: seq<byte>, n: nat)
    requires b != [] && |l| == n > 0
    ensures (n <= |b| && b[..n] == l) <==> (b[0] == l[0] && n - 1 <= |b[1..]| && b[1..][..n - 1] == l[1..])
    ensures n <= |b| ==> b[1..][n - 1..] == b[n..]
  {
    if n <= |b| {
      assert b[..n] == [b[0]] + b[1..][..n - 1];
      assert l == [l[0]] + l[1..];
    }
  }

  /** The value of four bytes as hexadecimal digits, as `u32::from_str_radix` reads them. */
  function ByteHexVal(b: byte): int {
    if Ascii(b as char) then HexVal(b as char) else -1
  }

  function RadixValue(h: seq<byte>): Option<nat>
    requires |h| == 4
  {
    if (ByteHexVal(h[0]) >= 0 || h[0] == '+' as int)
       && ByteHexVal(h[1]) >= 0 && ByteHexVal(h[2]) >= 0 && ByteHexVal(h[3]) >= 0 then
      var lead := if h[0] == '+' as int then 0 else ByteHexVal(h[0]);
      Some(lead * 4096 + ByteHexVal(h[1]) * 256 + ByteHexVal(h[2]) * 16 + ByteHexVal(h[3]))
    else None
  }

  lemma {:induction false} AsciiBytes(lit: string)
    requires AllAscii(lit)
    ensures |Encode(lit)| == |lit| && forall k :: 0 <= k < |lit| ==> Encode(lit)[k] == lit[k] as int
  {
    if lit != [] {
      AsciiBytes(lit[1..]);
      FirstByte(lit);
    }
  }

  /** The first `n` characters are ASCII exactly when the first `n` bytes are, and then they
      are the same numbers. */
  lemma {:induction false} AsciiFront(t: string, n: nat)
    ensures (n <= |t| && AllAscii(t[..n])) <==> (n <= |Encode(t)| && forall k :: 0 <= k < n ==> Encode(t)[k] < 0x80)
    ensures n <= |t| && AllAscii(t[..n]) ==>
              (forall k :: 0 <= k < n ==> Encode(t)[k] == t[k] as int) && Encode(t)[n..] == Encode(t[n..])
    decreases n
  {
    hide Encode;
    var u := Encode(t);
    FirstByte(t);
    if n == 0 {
      assert t[0..] == t && u[0..] == u;
    } else if t != [] {
      if Ascii(t[0]) {
        AsciiFront(t[1..], n - 1);
        assert n <= |t| ==> t[..n] == [t[0]] + t[1..][..n - 1];
        assert n <= |u| ==> forall k :: 0 < k < n ==> u[k] == u[1..][k - 1];
        assert n <= |t| ==> t[1..][n - 1..] == t[n..];
        assert n <= |u| ==> u[1..][n - 1..] == u[n..];
      } else {
        assert n <= |t| ==> t[..n][0] == t[0];
      }
    }
  }

  /** Reading four hexadecimal bytes is reading four hexadecimal characters. */
  lemma Hex4Bytes(t: string)
    ensures
      var u := Encode(t);
      if |u| >= 4 && (|u| > 4 ==> !Continuation(u[4])) && RadixValue(u[..4]).Some?
      then |t| >= 4 && Hex4(t) == Ok(RadixValue(u[..4]).value, t[4..]) && Encode(t[4..]) == u[4..]
      else Hex4(t).Err?
  {
    hide Encode, HexVal;
    var u := Encode(t);
    AsciiFront(t, 4);
    if |t| >= 4 {
      HexAscii(t[0]);
      HexAscii(t[1]);
      HexAscii(t[2]);
      HexAscii(t[3]);
      Lead(t[4..]);
    }
  }

  lemma HexAscii(c: char)
    ensures IsHex(c) || c == '+' ==> Ascii(c)
  {
  }

  lemma Lead(t: string)
    ensures Encode(t) != [] ==> !Continuation(Encode(t)[0])
  {
  }

  predicate PlainByte(b: byte) {
    b != '"' as int && b != '\\' as int && b >= 0x20
  }

  /** A run of plain bytes is a run of plain characters. */
  lemma {:induction false} PlainRun(a: string, b: string, out: string)
    requires forall k :: 0 <= k < |Encode(a)| ==> PlainByte(Encode(a)[k])
    ensures ParseString(a + b, out) == ParseString(b, out + a)
    decreases |a|
  {
    if a == [] {
      assert a + b == b && out + a == out;
    } else {
      var u := Encode(a);
      assert u[|EncodeChar(a[0])|..] == Encode(a[1..]);
      assert u[0] == EncodeChar(a[0])[0];
      FirstByte(a);
      PlainRun(a[1..], b, out + [a[0]]);
      assert (a + b)[1..] == a[1..] + b;
      assert out + [a[0]] + a[1..] == out + a;
    }
  }

  /** What an exponent denotes depends only on its own characters. */
  lemma ExpPrefix(t: string)
    ensures ExpLen(t[..ExpLen(t)]) == ExpLen(t) && ExpValue(t[..ExpLen(t)]) == ExpValue(t)
  {
    var n := ExpLen(t);
    if n > 0 {
      var u, m := t[..n], ExpMark(t);
      assert u[m..n] == t[m..n] && u[m..] == t[m..n];
      assert t[m..n] + [] == t[m..n];
      DigitCountExact(t[m..n], []);
    }
  }

  lemma NextByte(t: string)
    requires t != [] && Ascii(t[0])
    ensures
      var u := Encode(t);
      (|u| >= 2 && '0' as int <= u[1] <= '9' as int) <==> (|t| >= 2 && IsDigit(t[1]))
  {
    FirstByte(t);
    FirstByte(t[1..]);
  }

  predicate NumberChar(c: char) {
    IsDigit(c) || c == '-' || c == '+' || c == '.' || c == 'e' || c == 'E'
  }

  /** The bytes of a prefix of number characters are that prefix. */
  lemma AsciiSlice(t: string, n: nat)
    requires n <= |t| && forall k :: 0 <= k < n ==> NumberChar(t[k])
    ensures |Encode(t)| >= n && Encode(t)[..n] == Encode(t[..n])
  {
    hide Encode;
    assert t == t[..n] + t[n..];
    EncodeAppend(t[..n], t[n..]);
    AsciiBytes(t[..n]);
  }

  lemma FracSlice(t: string)
    requires FracLen(t) > 0
    ensures |Encode(t)| >= FracLen(t) && Encode(t)[1..FracLen(t)] == Encode(t[1..FracLen(t)])
  {
    hide Encode;
    var f := FracLen(t);
    FirstByte(t);
    assert t[1..][..f - 1] == t[1..f];
    AsciiSlice(t[1..], f - 1);
    assert Encode(t)[1..][..f - 1] == Encode(t)[1..f];
  }

  lemma SubSlice<T>(s: seq<T>, a: nat, b: nat, c: nat)
    requires b <= c && a + c <= |s|
    ensures s[a..][b..c] == s[a + b..a + c]
  {
  }

  lemma LiteralChars(lit: string)
    requires IsIntLiteral(lit)
    ensures forall k :: 0 <= k < |lit| ==> NumberChar(lit[k])
  {
    if lit[0] == '-' {
      assert forall k :: 0 < k < |lit| ==> lit[k] == lit[1..][k - 1];
    }
  }

  lemma ExpChars(t: string)
    ensures forall k :: 0 <= k < ExpLen(t) ==> NumberChar(t[k])
  {
    var n := ExpLen(t);
    if n > 0 {
      assert forall k :: ExpMark(t) <= k < n ==> t[k] == t[ExpMark(t)..n][k - ExpMark(t)];
    }
  }

  /** `ParseNumber`, from the texts after its parts. */
  lemma NumberParts(fp: Rounding, t: string, t0: string, t1: string, t2: string)
    requires t0 == t[SignLen(t)..] && IntLen(t0) > 0 && t1 == t0[IntLen(t0)..] && t2 == t1[FracLen(t1)..]
    ensures
      var lit := t[..SignLen(t) + IntLen(t0)];
      var frac := if FracLen(t1) == 0 then [] else t1[1..FracLen(t1)];
      && IsIntLiteral(lit)
      && ParseNumber(fp, t) ==
        if FracLen(t1) == 0 && ExpLen(t2) == 0 then Ok(IntegerOf(lit), t2[ExpLen(t2)..])
        else Ok(Float(fp(LiteralValue(SignLen(t) == 1, t0[..IntLen(t0)], frac, ExpValue(t2)))), t2[ExpLen(t2)..])
  {
    hide IntLen, FracLen, ExpLen, ExpValue, LiteralValue, IntegerOf, IsIntLiteral;
    IntLiteralShape(t);
    assert t1 == t[SignLen(t) + IntLen(t0)..];
    assert t1[0..] == t1 && t2[0..] == t2;
  }

  class Parser {
    const fp: Rounding
    const s: seq<byte>
    var i: nat
    var depth: nat
    ghost var rest: string

    /** The index is inside the text and between two characters; `rest` is what follows. */
    ghost predicate Inv()
      reads this
    {
      i <= |s| && s[i..] == Encode(rest) && depth <= MAX_DEPTH
    }

    ghost predicate Agrees<T>(r: Outcome<T>, expected: Parsed<T>, d: nat)
      reads this
    {
      match expected
      case Ok(v, t) => r == Success(v) && Inv() && rest == t && depth == d
      case Err => r.Failure? && depth >= d
    }

    constructor (fp: Rounding, s: seq<byte>)
      requires Decode(s).Some?
      ensures this.fp == fp && this.s == s
      ensures Inv() && i == 0 && depth == 0 && Decode(s) == Some(rest)
    {
      this.fp, this.s, i, depth := fp, s, 0, 0;
      rest := Decode(s).value;
      EncodeDecode(s);
      assert s[0..] == s;
    }

    /** Whether the next character is `c`, from the next byte. */
    predicate Peek(c: char)
      reads this
      requires Inv() && Ascii(c)
      ensures Peek(c) <==> Starts(rest, c)
    {
      FrontByte(rest, c);
      assert i < |s| ==> s[i..][0] == s[i];
      i < |s| && s[i] == c as int
    }

    /** Step over one ASCII character. */
    method Bump()
      requires Inv() && rest != [] && Ascii(rest[0])
      modifies this
      ensures Inv() && rest == old(rest)[1..] && i == old(i) + 1 && depth == old(depth) && old(i) < |s|
    {
      FirstByte(rest);
      assert s[i..][1..] == s[i + 1..];
      i := i + 1;
      rest := rest[1..];
    }

    method Ws()
      requires Inv()
      modifies this
      ensures Inv() && rest == SkipWs(old(rest)) && i >= old(i) && depth == old(depth)
    {
      while Peek(' ') || Peek('\t') || Peek('\n') || Peek('\r')
        invariant Inv() && SkipWs(rest) == SkipWs(old(rest)) && i >= old(i) && depth == old(depth)
        decreases |s| - i
      {
        Bump();
      }
    }

    method Eat(lit: string) returns (found: bool)
      requires Inv() && AllAscii(lit)
      modifies this
      ensures Inv() && depth == old(depth)
      ensures found == StartsWith(old(rest), lit)
      ensures found ==> rest == old(rest)[|lit|..] && i == old(i) + |lit|
      ensures !found ==> rest == old(rest) && i == old(i)
    {
      AsciiPrefix(rest, lit);
      found := |lit| <= |s| - i && s[i..i + |lit|] == Encode(lit);
      assert |lit| <= |s| - i ==> s[i..i + |lit|] == s[i..][..|lit|];
      if found {
        assert s[i..][|lit|..] == s[i + |lit|..];
        i := i + |lit|;
        rest := rest[|lit|..];
      }
    }

    // ----- numbers

    /** `&text[a..b]`.  The precondition is what keeps the slice from panicking: both ends fall
        between characters, so the bytes are some text `t`. */
    method Slice(a: nat, b: nat, ghost t: string) returns (r: string)
      requires a <= b <= |s| && s[a..b] == Encode(t)
      ensures r == t
    {
      DecodeEncode(t);
      r := Decode(s[a..b]).value;
    }

    predicate PeekDigit()
      reads this
      requires Inv()
      ensures PeekDigit() <==> rest != [] && IsDigit(rest[0])
    {
      FirstByte(rest);
      assert i < |s| ==> s[i..][0] == s[i];
      i < |s| && '0' as int <= s[i] <= '9' as int
    }

    method Digits() returns (n: nat)
      requires Inv()
      modifies this
      ensures Inv() && n == DigitCount(old(rest)) && rest == old(rest)[n..] && i == old(i) + n && depth == old(depth)
    {
      n := 0;
      while PeekDigit()
        invariant Inv() && n <= |old(rest)| && rest == old(rest)[n..] && i == old(i) + n && depth == old(depth)
        invariant DigitCount(old(rest)) == n + DigitCount(rest)
        decreases |s| - i
      {
        Bump();
        n := n + 1;
      }
    }

    method IntPart() returns (n: nat)
      requires Inv()
      modifies this
      ensures Inv() && n == IntLen(old(rest)) && rest == old(rest)[n..] && i == old(i) + n && depth == old(depth)
    {
      if Peek('0') {
        Bump();
        n := 1;
      } else {
        n := Digits();
      }
    }

    method FracPart() returns (n: nat)
      requires Inv()
      modifies this
      ensures Inv() && n == FracLen(old(rest)) && rest == old(rest)[n..] && i == old(i) + n && depth == old(depth)
    {
      n := 0;
      if Peek('.') {
        NextByte(rest);
        assert s[i..] == Encode(rest);
        assert |s[i..]| >= 2 ==> s[i..][1] == s[i + 1];
        if i + 1 < |s| && '0' as int <= s[i + 1] <= '9' as int {
          Bump();
          var d := Digits();
          n := 1 + d;
        }
      }
      assert old(rest)[0..] == old(rest);
    }

    /** Step over an exponent's mark and sign. */
    method Mark() returns (m: nat)
      requires Inv() && (Starts(rest, 'e') || Starts(rest, 'E'))
      modifies this
      ensures Inv() && m == ExpMark(old(rest)) && rest == old(rest)[m..] && i == old(i) + m && depth == old(depth)
    {
      Bump();
      m := 1;
      if Peek('+') || Peek('-') {
        Bump();
        m := 2;
      }
    }

    method ExpPart() returns (n: nat)
      requires Inv()
      modifies this
      ensures Inv() && n == ExpLen(old(rest)) && rest == old(rest)[n..] && i == old(i) + n && depth == old(depth)
    {
      hide ExpMark, Encode, DigitCount;
      n := 0;
      ghost var t := rest;
      if Peek('e') || Peek('E') {
        var save := i;
        var m := Mark();
        var d := Digits();
        if d == 0 {
          i := save;
          rest := t;
        } else {
          n := m + d;
        }
      }
      assert t[0..] == t;
    }

    /** `lit.parse::<i128>()`, falling back to the literal. */
    method IntegerText(start: nat, end: nat, ghost t: string) returns (v: Json)
      requires start <= end <= |s| && s[start..] == Encode(t) && end - start <= |t|
      requires IsIntLiteral(t[..end - start])
      ensures v == IntegerOf(t[..end - start])
    {
      hide Encode, IntegerOf;
      ghost var n := end - start;
      LiteralChars(t[..n]);
      assert forall k :: 0 <= k < n ==> t[..n][k] == t[k];
      AsciiSlice(t, n);
      assert s[start..end] == s[start..][..n];
      var text := Slice(start, end, t[..n]);
      v := IntegerOf(text);
    }

    /** `lit.parse::<f64>()` on the parts of the literal. */
    method FloatText(neg: bool, j0: nat, j1: nat, j2: nat, end: nat, ghost t0: string, ghost t1: string,
        ghost t2: string)
      returns (v: Json)
      requires j0 <= j1 <= j2 <= end <= |s|
      requires s[j0..] == Encode(t0) && s[j1..] == Encode(t1) && s[j2..] == Encode(t2)
      requires j1 - j0 <= |t0| && AllDigits(t0[..j1 - j0])
      requires j2 - j1 == FracLen(t1) && end - j2 == ExpLen(t2)
      ensures v == Float(fp(LiteralValue(neg, t0[..j1 - j0], if j2 == j1 then [] else t1[1..j2 - j1], ExpValue(t2))))
    {
      hide Encode, FracLen, ExpLen, ExpValue, LiteralValue;
      assert forall k :: 0 <= k < j1 - j0 ==> t0[..j1 - j0][k] == t0[k];
      AsciiSlice(t0, j1 - j0);
      assert s[j0..j1] == s[j0..][..j1 - j0];
      var ip := Slice(j0, j1, t0[..j1 - j0]);
      var frac := [];
      if j2 > j1 {
        FracSlice(t1);
        SubSlice(s, j1, 1, j2 - j1);
        frac := Slice(j1 + 1, j2, t1[1..j2 - j1]);
      }
      ExpChars(t2);
      AsciiSlice(t2, end - j2);
      assert s[j2..end] == s[j2..][..end - j2];
      var exp := Slice(j2, end, t2[..end - j2]);
      ExpPrefix(t2);
      v := Float(fp(LiteralValue(neg, ip, frac, ExpValue(exp))));
    }

    method Number() returns (r: Outcome<Json>)
      requires Inv()
      modifies this
      ensures Agrees(r, ParseNumber(fp, old(rest)), old(depth))
    {
      hide Encode, IntLen, FracLen, ExpLen, ExpValue, LiteralValue, IntegerOf, IsIntLiteral;
      ghost var t := rest;
      var start := i;
      var neg := Peek('-');
      if neg {
        Bump();
      }
      var j0 := i;
      ghost var t0 := rest;
      assert t0 == t[SignLen(t)..];
      var a := IntPart();
      if a == 0 {
        return Failure;
      }
      var j1 := i;
      ghost var t1 := rest;
      var f := FracPart();
      var j2 := i;
      ghost var t2 := rest;
      var e := ExpPart();
      var v: Json;
      if f == 0 && e == 0 {
        IntLiteralShape(t);
        v := IntegerText(start, i, t);
      } else {
        v := FloatText(neg, j0, j1, j2, i, t0, t1, t2);
      }
      NumberParts(fp, t, t0, t1, t2);
      r := Success(v);
    }

    // ----- strings

    /** `text.get(i..i + 4)` and `u32::from_str_radix(_, 16)`. */
    method FourHex() returns (r: Outcome<nat>)
      requires Inv()
      modifies this
      ensures Agrees(r, Hex4(old(rest)), old(depth))
    {
      hide Encode, Hex4, RadixValue;
      Hex4Bytes(rest);
      assert i + 4 < |s| ==> s[i..][4] == s[i + 4];
      if i + 4 <= |s| && (i + 4 < |s| ==> !Continuation(s[i + 4])) {
        assert s[i..i + 4] == s[i..][..4];
        var v := RadixValue(s[i..i + 4]);
        if v.Some? {
          assert s[i..][4..] == s[i + 4..];
          i := i + 4;
          rest := rest[4..];
          return Success(v.value);
        }
      }
      r := Failure;
    }

    /** After `\\u`. */
    method Unicode() returns (r: Outcome<char>)
      requires Inv()
      modifies this
      ensures Agrees(r, ParseUnicode(old(rest)), old(depth))
    {
      hide Encode, Hex4;
      var hi := FourHex();
      if hi.Failure? {
        return Failure;
      }
      var code := hi.value;
      if 0xD800 <= hi.value < 0xDC00 {
        var paired := Eat("\\u");
        if paired {
          var lo := FourHex();
          if lo.Failure? || !(0xDC00 <= lo.value < 0xE000) {
            return Failure;
          }
          code := 0x10000 + (hi.value - 0xD800) * 1024 + (lo.value - 0xDC00);
        }
      }
      if !IsScalar(code) {
        return Failure;
      }
      r := Success(code as char);
    }

    /** After a backslash. */
    method Escape() returns (r: Outcome<char>)
      requires Inv()
      modifies this
      ensures Agrees(r, ParseEscape(old(rest)), old(depth))
    {
      hide Encode, ParseUnicode;
      FirstByte(rest);
      assert i < |s| ==> s[i..][0] == s[i];
      if i == |s| || s[i] >= 0x80 {
        return Failure;
      }
      var c := s[i] as char;
      Bump();
      match c {
        case '"' => r := Success('"');
        case '\\' => r := Success('\\');
        case '/' => r := Success('/');
        case 'b' => r := Success(8 as char);
        case 'f' => r := Success(12 as char);
        case 'n' => r := Success('\n');
        case 'r' => r := Success('\r');
        case 't' => r := Success('\t');
        case 'u' => r := Unicode();
        case _ => r := Failure;
      }
    }

    /** The longest run of bytes that need no escape, as text. */
    method Run() returns (text: string)
      requires Inv()
      modifies this
      ensures Inv() && i >= old(i) && depth == old(depth) && old(rest) == text + rest
      ensures forall k :: 0 <= k < |Encode(text)| ==> PlainByte(Encode(text)[k])
      ensures i < |s| ==> !PlainByte(s[i])
    {
      hide Encode;
      var run := i;
      while i < |s| && PlainByte(s[i])
        invariant run <= i <= |s| && rest == old(rest) && depth == old(depth)
        invariant forall k :: run <= k < i ==> PlainByte(s[k])
      {
        i := i + 1;
      }
      assert i < |s| ==> s[run..][i - run] == s[i];
      ghost var a, b := SplitAt(rest, i - run);
      assert s[run..i] == s[run..][..i - run] && s[i..] == s[run..][i - run..];
      text := Slice(run, i, a);
      rest := b;
    }

    /** From the opening quote to after the closing one. */
    method String() returns (r: Outcome<string>)
      requires Inv() && Starts(rest, '"')
      modifies this
      ensures Agrees(r, ParseString(old(rest)[1..], []), old(depth))
    {
      hide Encode, ParseEscape;
      Bump();
      ghost var t := rest;
      var out := [];
      while true
        invariant Inv() && depth == old(depth)
        invariant ParseString(rest, out) == ParseString(t, [])
        decreases |rest|
      {
        var run := Run();
        PlainRun(run, rest, out);
        out := out + run;
        FirstByte(rest);
        assert i < |s| ==> s[i..][0] == s[i];
        if i == |s| {
          return Failure;
        } else if s[i] == '"' as int {
          Bump();
          return Success(out);
        } else if s[i] == '\\' as int {
          Bump();
          var c := Escape();
          if c.Failure? {
            return Failure;
          }
          out := out + [c.value];
        } else {
          return Failure;
        }
      }
    }

    // ----- values

    method Literal() returns (r: Outcome<Json>)
      requires Inv()
      modifies this
      ensures Agrees(r, ParseLiteral(old(rest)), old(depth))
    {
      hide StartsWith;
      var found := Eat("null");
      if found {
        return Success(Null);
      }
      found := Eat("true");
      if found {
        return Success(Bool(true));
      }
      found := Eat("false");
      if found {
        return Success(Bool(false));
      }
      found := Eat("NaN");
      if found {
        return Success(Float(NaN));
      }
      found := Eat("Infinity");
      r := if found then Success(Float(Infinity(false))) else Failure;
    }

    method Value() returns (r: Outcome<Json>)
      requires Inv()
      modifies this
      ensures Agrees(r, ParseValue(fp, old(rest), MAX_DEPTH - old(depth)), old(depth))
      decreases |rest|, 2
    {
      hide Encode, ParseItems, ParseFields, ParseString, ParseNumber, ParseLiteral, SkipWs, StartsWith;
      if Peek('{') || Peek('[') {
        var isObject := Peek('{');
        depth := depth + 1;
        if depth > MAX_DEPTH {
          return Failure;
        }
        if isObject {
          r := Fields();
        } else {
          r := Items();
        }
        depth := depth - 1;
      } else if Peek('"') {
        var text := String();
        r := if text.Failure? then Failure else Success(Str(text.value));
      } else if Peek('-') || PeekDigit() {
        var found := Eat("-Infinity");
        if found {
          r := Success(Float(Infinity(true)));
        } else {
          r := Number();
        }
      } else {
        r := Literal();
      }
    }

    /** What an array's text means once its bracket is open. */
    ghost function ItemsSpec(t: string, budget: nat): Parsed<Json> {
      if Starts(SkipWs(t), ']') then Ok(Array([]), SkipWs(t)[1..]) else ParseItems(fp, SkipWs(t), budget, [])
    }

    method Items() returns (r: Outcome<Json>)
      requires Inv() && Starts(rest, '[')
      modifies this
      ensures Agrees(r, ItemsSpec(old(rest)[1..], MAX_DEPTH - old(depth)), old(depth))
      decreases |rest|, 1
    {
      hide Encode, SkipWs, ParseValue;
      Bump();
      Ws();
      ghost var t, budget := rest, MAX_DEPTH - depth;
      var items := [];
      if Peek(']') {
        Bump();
        return Success(Array(items));
      }
      while true
        invariant Inv() && depth == old(depth) && |rest| < |old(rest)|
        invariant ParseItems(fp, rest, budget, items) == ParseItems(fp, t, budget, [])
        decreases |rest|
      {
        Ws();
        var v := Value();
        if v.Failure? {
          return Failure;
        }
        items := items + [v.value];
        Ws();
        if Peek(']') {
          Bump();
          return Success(Array(items));
        }
        if !Peek(',') {
          return Failure;
        }
        Bump();
      }
    }

    ghost function FieldsSpec(t: string, budget: nat): Parsed<Json> {
      if Starts(SkipWs(t), '}') then Ok(Object([]), SkipWs(t)[1..]) else ParseFields(fp, SkipWs(t), budget, [])
    }

    method FieldEntry() returns (r: Outcome<Keyed<Json>>)
      requires Inv()
      modifies this
      ensures Agrees(r, ParseField(fp, old(rest), MAX_DEPTH - old(depth)), old(depth))
      decreases |rest|, 3
    {
      hide Encode, SkipWs, ParseValue, ParseString;
      if !Peek('"') {
        return Failure;
      }
      var k := String();
      if k.Failure? {
        return Failure;
      }
      Ws();
      if !Peek(':') {
        return Failure;
      }
      Bump();
      Ws();
      var v := Value();
      if v.Failure? {
        return Failure;
      }
      r := Success(Keyed(k.value, v.value));
    }

    method Fields() returns (r: Outcome<Json>)
      requires Inv() && Starts(rest, '{')
      modifies this
      ensures Agrees(r, FieldsSpec(old(rest)[1..], MAX_DEPTH - old(depth)), old(depth))
      decreases |rest|, 1
    {
      hide Encode, SkipWs, ParseField, Upsert;
      Bump();
      Ws();
      ghost var t, budget := rest, MAX_DEPTH - depth;
      var fields: seq<Keyed<Json>> := [];
      if Peek('}') {
        Bump();
        return Success(Object(fields));
      }
      while true
        invariant Inv() && depth == old(depth) && |rest| < |old(rest)|
        invariant ParseFields(fp, rest, budget, fields) == ParseFields(fp, t, budget, [])
        decreases |rest|
      {
        Ws();
        var f := FieldEntry();
        if f.Failure? {
          return Failure;
        }
        fields := Upsert(fields, f.value.key, f.value.value);
        Ws();
        if Peek('}') {
          Bump();
          return Success(Object(fields));
        }
        if !Peek(',') {
          return Failure;
        }
        Bump();
      }
    }
  }

  /** `PyJson::parse`: on every UTF-8 text the byte-level parser terminates and returns what
      the character grammar says. */
  method ParseText(fp: Rounding, s: seq<byte>) returns (r: Outcome<Json>)
    requires Decode(s).Some?
    ensures match Parse(fp, Decode(s).value)
            case Some(v) => r == Success(v)
            case None => r.Failure?
  {
    hide Encode, ParseValue, SkipWs;
    var p := new Parser(fp, s);
    p.Ws();
    r := p.Value();
    if r.Success? {
      p.Ws();
      FirstByte(p.rest);
      if p.i != |s| {
        r := Failure;
      }
    }
  }
}
