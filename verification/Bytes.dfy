/** Fixed-width little-endian integers. */
module Bytes {
  import opened Utf8

  /** `n.to_le_bytes()`, `width` bytes. */
  function LittleEndian(n: nat, width: nat): (r: seq<byte>)
    ensures |r| == width
  {
    if width == 0 then [] else [n % 256] + LittleEndian(n / 256, width - 1)
  }

  function Power256(width: nat): (p: nat)
    ensures p > 0
  {
    if width == 0 then 1 else 256 * Power256(width - 1)
  }

  lemma {:induction false} LittleEndianInjective(m: nat, n: nat, width: nat)
    requires m < Power256(width) && n < Power256(width) && LittleEndian(m, width) == LittleEndian(n, width)
    ensures m == n
  {
    if width > 0 {
      var a, b := LittleEndian(m, width), LittleEndian(n, width);
      assert a[0] == b[0] && a[1..] == b[1..];
      assert a[1..] == LittleEndian(m / 256, width - 1) && b[1..] == LittleEndian(n / 256, width - 1);
      LittleEndianInjective(m / 256, n / 256, width - 1);
      assert m == m / 256 * 256 + m % 256 && n == n / 256 * 256 + n % 256;
    }
  }

  function FromLittleEndian(b: seq<byte>): nat {
    if b == [] then 0 else b[0] + 256 * FromLittleEndian(b[1..])
  }

  /** Reading back what `to_le_bytes` wrote. */
  lemma {:induction false} LittleEndianRoundTrip(n: nat, width: nat)
    requires n < Power256(width)
    ensures FromLittleEndian(LittleEndian(n, width)) == n
  {
    if width > 0 {
      var r := LittleEndian(n, width);
      assert r[1..] == LittleEndian(n / 256, width - 1);
      LittleEndianRoundTrip(n / 256, width - 1);
    }
  }

  /** The digits to base 256, the lowest first. */
  lemma LowestFirst(n: nat)
    ensures LittleEndian(n, 4) == [n % 256, n / 0x100 % 256, n / 0x1_0000 % 256, n / 0x100_0000 % 256]
    ensures LittleEndian(n, 8) == LittleEndian(n, 4) + LittleEndian(n / 0x1_0000_0000, 4)
  {
    hide LittleEndian;
    Quotients(n);
    FourAt(n);
    EightAt(n);
  }

  lemma Quotients(n: nat)
    ensures n / 256 / 256 == n / 0x1_0000 && n / 256 / 256 / 256 == n / 0x100_0000
    ensures n / 256 / 256 / 256 / 256 == n / 0x1_0000_0000
  {
  }

  lemma EightAt(n: nat)
    ensures LittleEndian(n, 8) == LittleEndian(n, 4) + LittleEndian(n / 256 / 256 / 256 / 256, 4)
  {
    hide LittleEndian;
    var a := n / 256;
    var b := a / 256;
    var c := b / 256;
    FourAt(n);
    Byte(n, 7);
    Byte(a, 6);
    Byte(b, 5);
    Byte(c, 4);
    Prefixed(n % 256, a % 256, b % 256, c % 256, LittleEndian(c / 256, 4));
  }

  lemma Prefixed(w: byte, x: byte, y: byte, z: byte, rest: seq<byte>)
    ensures [w] + ([x] + ([y] + ([z] + rest))) == [w, x, y, z] + rest
  {
  }

  lemma Byte(n: nat, width: nat)
    ensures LittleEndian(n, width + 1) == [n % 256] + LittleEndian(n / 256, width)
  {
  }

  lemma FourAt(n: nat)
    ensures LittleEndian(n, 4) == [n % 256, n / 256 % 256, n / 256 / 256 % 256, n / 256 / 256 / 256 % 256]
  {
    assert LittleEndian(n / 256, 3) == [n / 256 % 256] + LittleEndian(n / 256 / 256, 2);
    assert LittleEndian(n / 256 / 256, 2) == [n / 256 / 256 % 256] + LittleEndian(n / 256 / 256 / 256, 1);
    assert LittleEndian(n / 256 / 256 / 256, 1) == [n / 256 / 256 / 256 % 256];
  }

  /** Writing back what was read. */
  lemma {:induction false} FromLittleEndianRoundTrip(b: seq<byte>)
    ensures LittleEndian(FromLittleEndian(b), |b|) == b
  {
    if b != [] {
      FromLittleEndianRoundTrip(b[1..]);
      assert b == [b[0]] + b[1..];
    }
  }

  lemma EightBytes()
    ensures Power256(8) == 0x1_0000_0000_0000_0000
  {
    assert Power256(2) == 0x1_0000;
    assert Power256(4) == 0x1_0000_0000;
    assert Power256(6) == 0x1_0000_0000_0000;
  }
}
