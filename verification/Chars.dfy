/** Character classes of Rust's standard library. */
module Chars {

  /** `char::is_whitespace`: the Unicode property White_Space. */
  predicate IsWhitespace(c: char) {
    var n := c as int;
    || 0x9 <= n <= 0xD
    || n == 0x20 || n == 0x85 || n == 0xA0 || n == 0x1680
    || 0x2000 <= n <= 0x200A
    || n == 0x2028 || n == 0x2029 || n == 0x202F || n == 0x205F || n == 0x3000
  }

  function TrimStart(s: string): string {
    if s != [] && IsWhitespace(s[0]) then TrimStart(s[1..]) else s
  }

  function TrimEnd(s: string): string {
    if s != [] && IsWhitespace(s[|s| - 1]) then TrimEnd(s[..|s| - 1]) else s
  }

  /** `str::trim`. */
  function Trim(s: string): string {
    TrimEnd(TrimStart(s))
  }

  /** The 25 white-space characters. */
  lemma WhitespaceIs(c: char)
    ensures IsWhitespace(c) <==>
              c as int in {9, 10, 11, 12, 13, 32, 133, 160, 5760, 8192, 8193, 8194, 8195, 8196, 8197, 8198, 8199,
                           8200, 8201, 8202, 8232, 8233, 8239, 8287, 12288}
  {
  }

  predicate Blank(s: string) {
    forall i :: 0 <= i < |s| ==> IsWhitespace(s[i])
  }

  /** No white space at either end. */
  predicate Tight(s: string) {
    s == [] || (!IsWhitespace(s[0]) && !IsWhitespace(s[|s| - 1]))
  }

  lemma {:induction false} TrimStartExactly(a: string, s: string)
    requires Blank(a) && (s == [] || !IsWhitespace(s[0]))
    ensures TrimStart(a + s) == s
  {
    hide IsWhitespace;
    if a == [] {
      assert a + s == s;
    } else {
      assert (a + s)[1..] == a[1..] + s;
      TrimStartExactly(a[1..], s);
    }
  }

  lemma {:induction false} TrimEndExactly(s: string, b: string)
    requires Blank(b) && (s == [] || !IsWhitespace(s[|s| - 1]))
    ensures TrimEnd(s + b) == s
  {
    hide IsWhitespace;
    if b == [] {
      assert s + b == s;
    } else {
      assert (s + b)[..|s + b| - 1] == s + b[..|b| - 1];
      TrimEndExactly(s, b[..|b| - 1]);
    }
  }

  /** Trimming takes the white space off both ends and nothing else. */
  lemma TrimExactly(a: string, s: string, b: string)
    requires Blank(a) && Blank(b) && Tight(s)
    ensures Trim(a + s + b) == s
  {
    hide IsWhitespace;
    if s == [] {
      assert a + s + b == (a + b) + [];
      TrimStartExactly(a + b, []);
    } else {
      assert a + s + b == a + (s + b);
      TrimStartExactly(a, s + b);
      TrimEndExactly(s, b);
    }
  }

  lemma {:induction false} TrimParts(s: string) returns (a: string, b: string)
    ensures s == a + Trim(s) + b && Blank(a) && Blank(b) && Tight(Trim(s))
  {
    hide IsWhitespace;
    a := StartParts(s);
    b := EndParts(TrimStart(s));
    assert TrimStart(s) == Trim(s) + b;
    assert s == a + (Trim(s) + b) == a + Trim(s) + b;
    if Trim(s) != [] {
      assert Trim(s)[0] == TrimStart(s)[0];
    }
  }

  lemma {:induction false} StartParts(s: string) returns (a: string)
    ensures s == a + TrimStart(s) && Blank(a)
    ensures TrimStart(s) == [] || !IsWhitespace(TrimStart(s)[0])
  {
    hide IsWhitespace;
    a := [];
    if s != [] && IsWhitespace(s[0]) {
      var rest := StartParts(s[1..]);
      a := [s[0]] + rest;
      assert s == [s[0]] + s[1..];
    }
  }

  lemma {:induction false} EndParts(s: string) returns (b: string)
    ensures s == TrimEnd(s) + b && Blank(b)
    ensures TrimEnd(s) == [] || !IsWhitespace(TrimEnd(s)[|TrimEnd(s)| - 1])
  {
    hide IsWhitespace;
    b := [];
    if s != [] && IsWhitespace(s[|s| - 1]) {
      var rest := EndParts(s[..|s| - 1]);
      b := rest + [s[|s| - 1]];
      assert s == s[..|s| - 1] + [s[|s| - 1]];
    }
  }
}
