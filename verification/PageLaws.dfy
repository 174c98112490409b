/**
 What an output page says: its text is JSON that reads back as the page, and its base64 bodies
 decode to the bytes they were made from.
 */
module PageLaws {
  import opened Decimal
  import opened Grammar
  import opened Json
  import opened Pages
  import opened Printer
  import opened RoundTrip
  import opened Spool
  import opened TextForm
  import opened Utf8

  // ----- base64

  /** The value of a base64 character, by section 4 of RFC 4648. */
  function SextetValue(c: char): int {
    if 'A' <= c <= 'Z' then c as int - 65
    else if 'a' <= c <= 'z' then c as int - 71
    else if '0' <= c <= '9' then c as int + 4
    else if c == '+' then 62
    else if c == '/' then 63
    else -1
  }

  lemma SextetHasValue(n: nat)
    requires n < 64
    ensures SextetValue(Sextet(n)) == n
  {
  }

  /** The bytes of one group of four characters. */
  function Group(s: string): (r: Option<seq<byte>>)
    requires |s| == 4
  {
    var (v, w, x, y) := (SextetValue(s[0]), SextetValue(s[1]), SextetValue(s[2]), SextetValue(s[3]));
    if v < 0 || w < 0 then None
    else if s[2] == '=' && s[3] == '=' then Some([(v * 64 + w) / 16])
    else if x < 0 then None
    else if s[3] == '=' then Some([(v * 64 + w) / 16, (w * 64 + x) / 4 % 256])
    else if y < 0 then None
    else Some([(v * 64 + w) / 16, (w * 64 + x) / 4 % 256, (x * 64 + y) % 256])
  }

  function FromBase64(s: string): Option<seq<byte>> {
    if s == [] then Some([])
    else if |s| < 4 || Group(s[..4]).None? || FromBase64(s[4..]).None? then None
    else Some(Group(s[..4]).value + FromBase64(s[4..]).value)
  }

  lemma FirstByte(a: byte, b: byte)
    ensures (a / 4 * 64 + (a % 4 * 16 + b / 16)) / 16 == a
  {
  }

  lemma SecondByte(a: byte, b: byte, c: byte)
    ensures ((a % 4 * 16 + b / 16) * 64 + (b % 16 * 4 + c / 64)) / 4 % 256 == b
  {
  }

  lemma ThirdByte(b: byte, c: byte)
    ensures ((b % 16 * 4 + c / 64) * 64 + c % 64) % 256 == c
  {
  }

  lemma OneReads(a: byte)
    ensures Group([Sextet(a / 4), Sextet(a % 4 * 16), '=', '=']) == Some([a])
  {
    hide Sextet, SextetValue;
    SextetHasValue(a / 4);
    SextetHasValue(a % 4 * 16);
    FirstByte(a, 0);
  }

  lemma TwoRead(a: byte, b: byte)
    ensures Group([Sextet(a / 4), Sextet(a % 4 * 16 + b / 16), Sextet(b % 16 * 4), '=']) == Some([a, b])
  {
    hide Sextet, SextetValue;
    Padding();
    SextetHasValue(a / 4);
    SextetHasValue(a % 4 * 16 + b / 16);
    SextetHasValue(b % 16 * 4);
    FirstByte(a, b);
    SecondByte(a, b, 0);
  }

  function Quad(a: byte, b: byte, c: byte): (r: string)
    ensures |r| == 4
  {
    [Sextet(a / 4), Sextet(a % 4 * 16 + b / 16), Sextet(b % 16 * 4 + c / 64), Sextet(c % 64)]
  }

  lemma Unfold(b: seq<byte>)
    requires |b| >= 3
    ensures Base64(b) == Quad(b[0], b[1], b[2]) + Base64(b[3..])
    ensures Base64(b[..3]) == Quad(b[0], b[1], b[2])
  {
    hide Sextet;
    var first := b[..3];
    assert first[3..] == [];
    var q := Quad(b[0], b[1], b[2]);
    assert Base64(first) == q + Base64(first[3..]);
    assert q + "" == q;
  }

  lemma ThreeRead(a: byte, b: byte, c: byte)
    ensures Group(Quad(a, b, c)) == Some([a, b, c])
  {
    hide Sextet, SextetValue;
    Padding();
    SextetHasValue(a / 4);
    SextetHasValue(a % 4 * 16 + b / 16);
    SextetHasValue(b % 16 * 4 + c / 64);
    SextetHasValue(c % 64);
    FirstByte(a, b);
    SecondByte(a, b, c);
    ThirdByte(b, c);
  }

  lemma GroupReads(b: seq<byte>)
    requires 1 <= |b| <= 3
    ensures |Base64(b)| == 4 && Group(Base64(b)) == Some(b)
  {
    hide Sextet, Group, Quad;
    if |b| == 1 {
      OneReads(b[0]);
      assert b == [b[0]];
    } else if |b| == 2 {
      TwoRead(b[0], b[1]);
      assert b == [b[0], b[1]];
    } else {
      ThreeRead(b[0], b[1], b[2]);
      Unfold(b);
      assert b[..3] == b == [b[0], b[1], b[2]];
    }
  }

  lemma Padding()
    ensures SextetValue('=') == -1
  {
  }

  /** Decoding undoes encoding. */
  lemma {:induction false} Base64RoundTrip(b: seq<byte>)
    ensures FromBase64(Base64(b)) == Some(b)
  {
    hide Group, Sextet;
    if b != [] {
      var n := if |b| < 3 then |b| else 3;
      var first, rest := b[..n], b[n..];
      GroupReads(first);
      Base64RoundTrip(rest);
      GroupFirst(b);
      var s := Base64(b);
      assert s[..4] == Base64(first) && s[4..] == Base64(rest);
      assert first + rest == b;
    }
  }

  lemma GroupFirst(b: seq<byte>)
    requires b != []
    ensures var n := if |b| < 3 then |b| else 3; Base64(b) == Base64(b[..n]) + Base64(b[n..])
  {
    if |b| < 3 {
      assert b[..|b|] == b && b[|b|..] == [];
      assert Base64([]) == "" && Base64(b) + "" == Base64(b);
    } else {
      hide Base64, Quad;
      Unfold(b);
    }
  }

  // ----- the page as JSON

  const COMPACT := DumpOptions(false, true, false, None)

  function FrameJson(f: Frame): Json {
    Object([
      Keyed("sequence", Int(f.sequence)),
      Keyed("stream", Str(if f.stream == Stdout then "stdout" else "stderr")),
      Keyed("bytes", Str(Base64(f.bytes)))])
  }

  function FrameJsons(frames: seq<Frame>): (r: seq<Json>)
    ensures |r| == |frames| && forall i :: 0 <= i < |frames| ==> r[i] == FrameJson(frames[i])
  {
    seq(|frames|, i requires 0 <= i < |frames| => FrameJson(frames[i]))
  }

  function PageJson(p: OutputPage): Json {
    Object([
      Keyed("chunks", Array(FrameJsons(p.chunks))),
      Keyed("next_cursor", Int(p.nextCursor)),
      Keyed("truncated", Bool(p.truncated)),
      Keyed("eof", Bool(p.eof))])
  }

  /** A text printed without escapes. */
  predicate NeedsNoEscape(s: string) {
    forall i :: 0 <= i < |s| ==> ' ' <= s[i] <= '~' && s[i] != '"' && s[i] != '\\'
  }

  lemma {:induction false} PrintedPlainly(s: string)
    requires NeedsNoEscape(s)
    ensures EscapeAll(s, false) == s
    ensures StrText(s, false) == "\"" + s + "\""
  {
    if s != [] {
      PrintedPlainly(s[1..]);
      assert EscapeChar(s[0], false) == [s[0]];
      assert s == [s[0]] + s[1..];
    }
  }

  lemma {:induction false} Base64Plain(b: seq<byte>)
    ensures NeedsNoEscape(Base64(b))
  {
    if |b| >= 3 {
      Base64Plain(b[3..]);
    }
  }

  lemma MemberPlain(key: string, quoted: string, value: string)
    requires NeedsNoEscape(key) && quoted == "\"" + key + "\""
    ensures MemberText(key, value, COMPACT) == quoted + ":" + value
  {
    PrintedPlainly(key);
  }

  lemma ScalarTexts(n: int, b: bool, s: string, depth: nat)
    requires NeedsNoEscape(s)
    ensures Dump(Int(n), COMPACT, depth) == IntText(n) && Dump(Bool(b), COMPACT, depth) == BoolText(b)
    ensures Dump(Str(s), COMPACT, depth) == "\"" + s + "\""
  {
    hide EscapeAll;
    PrintedPlainly(s);
  }

  lemma Joined3(a: string, b: string, c: string)
    ensures JoinBy(",", [a, b, c]) == a + "," + (b + "," + c)
  {
    assert [a, b, c][1..] == [b, c] && [b, c][1..] == [c];
    assert JoinBy(",", [b, c]) == b + "," + JoinBy(",", [c]);
  }

  lemma Joined4(a: string, b: string, c: string, d: string)
    ensures JoinBy(",", [a, b, c, d]) == a + "," + (b + "," + (c + "," + d))
  {
    assert [a, b, c, d][1..] == [b, c, d];
    assert JoinBy(",", [a, b, c, d]) == a + "," + JoinBy(",", [b, c, d]);
    Joined3(b, c, d);
  }

  lemma FrameGlue(n: string, s: string, b: string)
    ensures "{" + (("\"sequence\"" + ":" + n) + "," + (("\"stream\"" + ":" + ("\"" + s + "\"")) + ","
                  + ("\"bytes\"" + ":" + ("\"" + b + "\"")))) + "}"
         == "{\"sequence\":" + n + ",\"stream\":\"" + s + "\",\"bytes\":\"" + b + "\"}"
  {
  }

  lemma FrameMembers(f: Frame, depth: nat)
    ensures MemberTexts(FrameJson(f).fields, COMPACT, depth) ==
              ["\"sequence\"" + ":" + NatText(f.sequence),
               "\"stream\"" + ":" + ("\"" + StreamText(f.stream) + "\""),
               "\"bytes\"" + ":" + ("\"" + Base64(f.bytes) + "\"")]
  {
    hide NatText, Base64, Dump, MemberText;
    Base64Plain(f.bytes);
    ScalarTexts(f.sequence, true, Base64(f.bytes), depth);
    ScalarTexts(0, true, StreamText(f.stream), depth);
    MemberPlain("sequence", "\"sequence\"", NatText(f.sequence));
    MemberPlain("stream", "\"stream\"", "\"" + StreamText(f.stream) + "\"");
    MemberPlain("bytes", "\"bytes\"", "\"" + Base64(f.bytes) + "\"");
  }

  lemma FrameIsJson(f: Frame, depth: nat)
    ensures Dump(FrameJson(f), COMPACT, depth) == FrameText(f)
  {
    hide NatText, Base64, Dump, JoinBy, MemberTexts, StreamText;
    RecordForm(FrameJson(f).fields, COMPACT, depth);
    FrameMembers(f, depth + 1);
    var (n, s, b) := (NatText(f.sequence), StreamText(f.stream), Base64(f.bytes));
    Joined3("\"sequence\"" + ":" + n, "\"stream\"" + ":" + ("\"" + s + "\""), "\"bytes\"" + ":" + ("\"" + b + "\""));
    FrameGlue(n, s, b);
  }

  lemma {:induction false} JoinLast(sep: string, texts: seq<string>, x: string)
    requires texts != []
    ensures JoinBy(sep, texts + [x]) == JoinBy(sep, texts) + sep + x
  {
    if |texts| == 1 {
      assert (texts + [x])[1..] == [x];
    } else {
      JoinLast(sep, texts[1..], x);
      assert (texts + [x])[1..] == texts[1..] + [x];
      var more := JoinBy(sep, texts[1..]);
      assert texts[0] + sep + (more + sep + x) == (texts[0] + sep + more) + sep + x;
    }
  }

  function Texts(frames: seq<Frame>): seq<string> {
    seq(|frames|, i requires 0 <= i < |frames| => FrameText(frames[i]))
  }

  lemma {:induction false} FramesJoined(frames: seq<Frame>)
    ensures FramesText(frames) == JoinBy(",", Texts(frames))
  {
    hide FrameText, JoinBy;
    if |frames| > 1 {
      var n := |frames| - 1;
      FramesJoined(frames[..n]);
      JoinLast(",", Texts(frames[..n]), FrameText(frames[n]));
      assert Texts(frames) == Texts(frames[..n]) + [FrameText(frames[n])];
    } else {
      JoinShort(Texts(frames));
    }
  }

  lemma JoinShort(texts: seq<string>)
    requires |texts| <= 1
    ensures JoinBy(",", texts) == if texts == [] then "" else texts[0]
  {
  }

  lemma ChunksAreJson(frames: seq<Frame>, depth: nat)
    ensures Dump(Array(FrameJsons(frames)), COMPACT, depth) == "[" + FramesText(frames) + "]"
  {
    hide FrameText, JoinBy, Dump, FrameJson, FramesText;
    var items := FrameJsons(frames);
    ListForm(items, COMPACT, depth);
    FramesJoined(frames);
    forall i | 0 <= i < |frames| ensures Dump(items[i], COMPACT, depth + 1) == FrameText(frames[i]) {
      FrameIsJson(frames[i], depth + 1);
    }
    if frames == [] {
      JoinShort(Texts(frames));
    } else {
      assert seq(|items|, i requires 0 <= i < |items| => Dump(items[i], COMPACT, depth + 1)) == Texts(frames);
    }
  }

  lemma Flatten(a: string, b: string, c: string, d: string, e: string, f: string, g: string, h: string, i: string)
    ensures a + b + c + d + e + f + g + h + i == a + (b + (c + (d + (e + (f + (g + (h + i)))))))
  {
    assert a + b + c + d + e + f + g + (h + i) == a + b + c + d + e + f + g + h + i;
    assert a + b + c + d + e + (f + (g + (h + i))) == a + b + c + d + e + f + g + (h + i);
    assert a + b + c + (d + (e + (f + (g + (h + i))))) == a + b + c + d + e + (f + (g + (h + i)));
  }

  lemma FlagsGlue(t: string, e: string)
    ensures ("\"truncated\"" + ":" + t) + "," + ("\"eof\"" + ":" + e) + "}"
         == "\"truncated\":" + (t + (",\"eof\":" + (e + "}")))
  {
  }

  lemma CursorGlue(c: string, n: string, rest: string, tail: string)
    requires tail == "\"truncated\":" + rest
    ensures "{" + (("\"chunks\"" + ":" + ("[" + c + "]")) + "," + (("\"next_cursor\"" + ":" + n) + "," + tail))
         == "{\"chunks\":[" + (c + ("],\"next_cursor\":" + (n + (",\"truncated\":" + rest))))
  {
  }

  lemma PageGlue(c: string, n: string, t: string, e: string)
    ensures "{" + (("\"chunks\"" + ":" + ("[" + c + "]")) + "," + (("\"next_cursor\"" + ":" + n) + ","
                  + (("\"truncated\"" + ":" + t) + "," + ("\"eof\"" + ":" + e)))) + "}"
         == "{\"chunks\":[" + c + "],\"next_cursor\":" + n + ",\"truncated\":" + t + ",\"eof\":" + e + "}"
  {
    var flags := ("\"truncated\"" + ":" + t) + "," + ("\"eof\"" + ":" + e);
    Brace("\"chunks\"" + ":" + ("[" + c + "]"), "\"next_cursor\"" + ":" + n, flags);
    FlagsGlue(t, e);
    CursorGlue(c, n, t + (",\"eof\":" + (e + "}")), flags + "}");
    Flatten("{\"chunks\":[", c, "],\"next_cursor\":", n, ",\"truncated\":", t, ",\"eof\":", e, "}");
  }

  lemma Brace(a: string, b: string, c: string)
    ensures "{" + (a + "," + (b + "," + c)) + "}" == "{" + (a + "," + (b + "," + (c + "}")))
  {
  }

  lemma PageMembers(p: OutputPage, depth: nat)
    ensures MemberTexts(PageJson(p).fields, COMPACT, depth) ==
              ["\"chunks\"" + ":" + ("[" + FramesText(p.chunks) + "]"),
               "\"next_cursor\"" + ":" + NatText(p.nextCursor),
               "\"truncated\"" + ":" + BoolText(p.truncated),
               "\"eof\"" + ":" + BoolText(p.eof)]
  {
    hide NatText, FramesText, Dump, MemberText, FrameJson, BoolText;
    ChunksAreJson(p.chunks, depth);
    ScalarTexts(p.nextCursor, p.truncated, "", depth);
    ScalarTexts(0, p.eof, "", depth);
    MemberPlain("chunks", "\"chunks\"", "[" + FramesText(p.chunks) + "]");
    MemberPlain("next_cursor", "\"next_cursor\"", NatText(p.nextCursor));
    MemberPlain("truncated", "\"truncated\"", BoolText(p.truncated));
    MemberPlain("eof", "\"eof\"", BoolText(p.eof));
  }

  /** A page's text is the compact JSON of its frames, cursor and flags. */
  lemma PageIsJson(p: OutputPage)
    ensures PageText(p) == Dumps(PageJson(p), COMPACT)
  {
    hide NatText, FramesText, Dump, JoinBy, MemberTexts, BoolText, FrameJson;
    RecordForm(PageJson(p).fields, COMPACT, 0);
    PageMembers(p, 1);
    var (c, n, t, e) := (FramesText(p.chunks), NatText(p.nextCursor), BoolText(p.truncated), BoolText(p.eof));
    Joined4("\"chunks\"" + ":" + ("[" + c + "]"), "\"next_cursor\"" + ":" + n, "\"truncated\"" + ":" + t,
            "\"eof\"" + ":" + e);
    PageGlue(c, n, t, e);
  }

  lemma FrameGood(fp: Rounding, f: Frame)
    requires f.sequence <= U64_MAX
    ensures Valid(fp, FrameJson(f)) && Fits(FrameJson(f), 1) && Distinct(FrameJson(f))
  {
    hide Base64;
    assert |"sequence"| == 8 && |"stream"| == 6 && |"bytes"| == 5;
  }

  /** A page reads back: the text is parsed as the object it was made from, and each body decodes
      to its frame's bytes. */
  lemma PageReads(fp: Rounding, p: OutputPage)
    requires p.nextCursor <= U64_MAX && forall i :: 0 <= i < |p.chunks| ==> p.chunks[i].sequence <= U64_MAX
    ensures Parse(fp, PageText(p)) == Some(PageJson(p))
    ensures forall i :: 0 <= i < |p.chunks| ==> FromBase64(Base64(p.chunks[i].bytes)) == Some(p.chunks[i].bytes)
  {
    hide FrameJson, PageText, Base64, Dump, Parse, FromBase64;
    PageIsJson(p);
    PageGood(fp, p);
    ParseDumpsExact(fp, PageJson(p), COMPACT);
    forall i | 0 <= i < |p.chunks| ensures FromBase64(Base64(p.chunks[i].bytes)) == Some(p.chunks[i].bytes) {
      Base64RoundTrip(p.chunks[i].bytes);
    }
  }

  lemma PageGood(fp: Rounding, p: OutputPage)
    requires p.nextCursor <= U64_MAX && forall i :: 0 <= i < |p.chunks| ==> p.chunks[i].sequence <= U64_MAX
    ensures Valid(fp, PageJson(p)) && Fits(PageJson(p), MAX_DEPTH) && Distinct(PageJson(p))
  {
    hide FrameJson;
    forall i | 0 <= i < |p.chunks|
      ensures Valid(fp, FrameJson(p.chunks[i])) && Distinct(FrameJson(p.chunks[i]))
      ensures Fits(FrameJson(p.chunks[i]), MAX_DEPTH - 2)
    {
      FrameGood(fp, p.chunks[i]);
      FrameShallow(p.chunks[i], MAX_DEPTH - 2);
    }
    assert |"chunks"| == 6 && |"next_cursor"| == 11 && |"truncated"| == 9 && |"eof"| == 3;
  }

  lemma FrameShallow(f: Frame, n: nat)
    requires n >= 1
    ensures Fits(FrameJson(f), n)
  {
    hide Base64;
  }
}
