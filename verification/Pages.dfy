/**
 The size of an output page on the wire: JSON with base64 bodies, as section 4 of RFC 4648
 defines them.
 */
module Pages {
  import opened Decimal
  import opened Spool
  import opened Utf8

  const U64_MAX: nat := 0xFFFF_FFFF_FFFF_FFFF

  /** A six-bit number: capitals, small letters, digits, `+` and `/`. */
  function Sextet(n: nat): char
    requires n < 64
  {
    if n < 26 then ('A' as int + n) as char
    else if n < 52 then ('a' as int + (n - 26)) as char
    else if n < 62 then ('0' as int + (n - 52)) as char
    else if n == 62 then '+'
    else '/'
  }

  /** Standard base64 with padding. */
  function Base64(b: seq<byte>): string {
    if b == [] then ""
    else if |b| == 1 then [Sextet(b[0] / 4), Sextet(b[0] % 4 * 16), '=', '=']
    else if |b| == 2 then [Sextet(b[0] / 4), Sextet(b[0] % 4 * 16 + b[1] / 16), Sextet(b[1] % 16 * 4), '=']
    else [Sextet(b[0] / 4), Sextet(b[0] % 4 * 16 + b[1] / 16), Sextet(b[1] % 16 * 4 + b[2] / 64), Sextet(b[2] % 64)]
         + Base64(b[3..])
  }

  lemma {:induction false} Base64Length(b: seq<byte>)
    ensures |Base64(b)| == 4 * ((|b| + 2) / 3)
    ensures 4 * |b| <= 3 * |Base64(b)| <= 4 * (|b| + 2)
  {
    hide Sextet;
    if |b| >= 3 {
      Base64Length(b[3..]);
    }
  }

  function StreamText(s: Stream): string {
    match s case Stdout => "stdout" case Stderr => "stderr"
  }

  function BoolText(b: bool): string {
    if b then "true" else "false"
  }

  function FrameText(f: Frame): string {
    "{\"sequence\":" + NatText(f.sequence) + ",\"stream\":\"" + StreamText(f.stream)
    + "\",\"bytes\":\"" + Base64(f.bytes) + "\"}"
  }

  function FramesText(frames: seq<Frame>): string {
    if frames == [] then ""
    else if |frames| == 1 then FrameText(frames[0])
    else FramesText(frames[..|frames| - 1]) + "," + FrameText(frames[|frames| - 1])
  }

  function PageText(p: OutputPage): string {
    "{\"chunks\":[" + FramesText(p.chunks) + "],\"next_cursor\":" + NatText(p.nextCursor)
    + ",\"truncated\":" + BoolText(p.truncated) + ",\"eof\":" + BoolText(p.eof) + "}"
  }

  lemma {:induction false} NatTextLength(n: nat, k: nat)
    requires k > 0 && n < Pow10(k)
    ensures |NatText(n)| <= k
  {
    if n >= 10 {
      assert k > 1 by {
        assert Pow10(1) == 10;
      }
      NatTextLength(n / 10, k - 1);
    }
  }

  lemma U64TextLength(n: nat)
    requires n <= U64_MAX
    ensures |NatText(n)| <= 20
  {
    assert Pow10(5) == 100_000;
    assert Pow10(10) == 10_000_000_000;
    assert Pow10(15) == 1_000_000_000_000_000;
    assert Pow10(20) == 100_000_000_000_000_000_000;
    NatTextLength(n, 20);
  }

  /** One frame takes less than 4/3 of its charge, by more than 60 bytes. */
  lemma FrameTextLength(f: Frame)
    requires f.sequence <= U64_MAX
    ensures 3 * (|FrameText(f)| + 1) + 180 <= 4 * (|f.bytes| + OUTPUT_CHUNK_OVERHEAD_BYTES)
  {
    hide NatText, Base64;
    U64TextLength(f.sequence);
    Base64Length(f.bytes);
  }

  lemma {:induction false} FramesTextLength(frames: seq<Frame>)
    requires forall i :: 0 <= i < |frames| ==> frames[i].sequence <= U64_MAX
    ensures 3 * |FramesText(frames)| + 180 * |frames| <= 4 * Charge(frames)
  {
    hide FrameText;
    if frames != [] {
      var last := frames[|frames| - 1];
      FrameTextLength(last);
      FramesTextLength(frames[..|frames| - 1]);
      if |frames| == 1 {
        assert frames[0] == last && frames[..0] == [];
      }
    }
  }

  lemma FrameTextShape(p: OutputPage)
    requires p.nextCursor <= U64_MAX
    ensures |PageText(p)| <= |FramesText(p.chunks)| + 81
  {
    hide FramesText, NatText;
    U64TextLength(p.nextCursor);
  }

  /** A page whose frames, each charged its bytes plus 96, fit a budget encodes to at most 4/3 of
      the budget plus 1024 bytes, whatever the mix of frame sizes and sequence numbers. */
  lemma PageWithinBudget(p: OutputPage, budget: nat)
    requires p.nextCursor <= U64_MAX && Charge(p.chunks) <= budget
    requires forall i :: 0 <= i < |p.chunks| ==> p.chunks[i].sequence <= U64_MAX
    ensures |PageText(p)| <= budget * 4 / 3 + 1024
  {
    hide PageText, FramesText, Charge;
    FramesTextLength(p.chunks);
    FrameTextShape(p);
  }

  /** Every page the spool serves stays within that bound, even when its single frame alone
      exceeds the requested size. */
  lemma ServedPageWithinBudget(frames: seq<Frame>, cursor: nat, maxBytes: nat, truncated: bool, eof: bool)
    requires WellNumbered(frames) && |frames| <= U64_MAX && cursor <= |frames| && MAX_FRAME_BYTES <= maxBytes
    ensures
      var end := PageEnd(frames, cursor, maxBytes);
      |PageText(OutputPage(frames[cursor..end], end, truncated, eof))| <= maxBytes * 4 / 3 + 1024
  {
    hide PageText, FramesText, Charge, PageEnd;
    var end := PageEnd(frames, cursor, maxBytes);
    var p := OutputPage(frames[cursor..end], end, truncated, eof);
    PageShape(frames, cursor, maxBytes);
    FramesTextLength(p.chunks);
    FrameTextShape(p);
    if end == cursor {
      ChargeSmall(p.chunks);
    } else if end == cursor + 1 {
      assert p.chunks == [frames[cursor]];
      ChargeSmall(p.chunks);
    }
  }

  lemma ChargeSmall(frames: seq<Frame>)
    requires |frames| <= 1 && forall i :: 0 <= i < |frames| ==> |frames[i].bytes| <= MAX_FRAME_BYTES
    ensures Charge(frames) <= MAX_FRAME_BYTES + OUTPUT_CHUNK_OVERHEAD_BYTES
  {
    if |frames| == 1 {
      assert frames[..0] == [];
    }
  }

  lemma FrameHoldsBase64(f: Frame)
    ensures |FrameText(f)| >= |Base64(f.bytes)| + 40
  {
    hide NatText, Base64;
  }

  /** A page of no frame or of several stays within 4/3 of its budget, and a page of one frame
      within 4/3 of that frame and 112 bytes. */
  lemma ServedPageWithinRatio(frames: seq<Frame>, cursor: nat, maxBytes: nat, truncated: bool, eof: bool)
    requires WellNumbered(frames) && |frames| <= U64_MAX && cursor <= |frames| && MAX_FRAME_BYTES <= maxBytes
    ensures
      var end := PageEnd(frames, cursor, maxBytes);
      var size := |PageText(OutputPage(frames[cursor..end], end, truncated, eof))|;
      if end == cursor + 1 then 3 * size <= 4 * (|frames[cursor].bytes| + 112) else 3 * size <= 4 * maxBytes
  {
    hide PageText, FramesText, Charge, PageEnd;
    var end := PageEnd(frames, cursor, maxBytes);
    var p := OutputPage(frames[cursor..end], end, truncated, eof);
    PageShape(frames, cursor, maxBytes);
    FramesTextLength(p.chunks);
    FrameTextShape(p);
    if end == cursor {
      ChargeSmall(p.chunks);
      NoFrames();
    } else if end == cursor + 1 {
      assert p.chunks == [frames[cursor]];
      ChargeOne(frames[cursor]);
    }
  }

  /** The size of a page of one frame. */
  function SingleSize(f: Frame, next: nat, truncated: bool, eof: bool): nat {
    90 + |NatText(f.sequence)| + |NatText(next)| + |BoolText(truncated)| + |BoolText(eof)| + 4 * ((|f.bytes| + 2) / 3)
  }

  lemma SinglePage(f: Frame, next: nat, truncated: bool, eof: bool)
    ensures |PageText(OutputPage([f], next, truncated, eof))| == SingleSize(f, next, truncated, eof)
  {
    hide NatText, Base64, BoolText;
    Base64Length(f.bytes);
    assert |StreamText(f.stream)| == 6;
    assert FramesText([f]) == FrameText(f);
  }

  /** A page exceeds 4/3 of its budget exactly when it is a single frame of that size. */
  lemma ServedPageExactly(frames: seq<Frame>, cursor: nat, maxBytes: nat, truncated: bool, eof: bool)
    requires WellNumbered(frames) && |frames| <= U64_MAX && cursor <= |frames| && MAX_FRAME_BYTES <= maxBytes
    ensures
      var end := PageEnd(frames, cursor, maxBytes);
      3 * |PageText(OutputPage(frames[cursor..end], end, truncated, eof))| > 4 * maxBytes <==>
        end == cursor + 1 && 3 * SingleSize(frames[cursor], end, truncated, eof) > 4 * maxBytes
  {
    hide PageText, PageEnd, SingleSize;
    var end := PageEnd(frames, cursor, maxBytes);
    ServedPageWithinRatio(frames, cursor, maxBytes, truncated, eof);
    if end == cursor + 1 {
      assert frames[cursor..end] == [frames[cursor]];
      SinglePage(frames[cursor], end, truncated, eof);
    }
  }

  lemma NoFrames()
    ensures FramesText([]) == ""
  {
  }

  lemma ChargeOne(f: Frame)
    ensures Charge([f]) == |f.bytes| + OUTPUT_CHUNK_OVERHEAD_BYTES
  {
    assert [f][..0] == [];
  }

  /** A page of one full frame, served for the smallest budget, exceeds 4/3 of it. */
  lemma FullFrameExceeds(f: Frame, truncated: bool, eof: bool)
    requires f.sequence == 0 && |f.bytes| == MAX_FRAME_BYTES
    ensures PageEnd([f], 0, MAX_FRAME_BYTES) == 1
    ensures 3 * |PageText(OutputPage([f][0..1], 1, truncated, eof))| > 4 * MAX_FRAME_BYTES
  {
    hide FrameText, Charge, NatText;
    PageShape([f], 0, MAX_FRAME_BYTES);
    assert [f][0..1] == [f];
    FrameHoldsBase64(f);
    Base64Length(f.bytes);
  }
}
