/**
 The output spool: numbered frames of at most 4096 bytes up to a byte budget, read back in
 pages that charge each frame its encoding overhead.
 */
module Spool {
  import opened Utf8

  datatype Stream = Stdout | Stderr

  datatype Chunk = Chunk(stream: Stream, bytes: seq<byte>)

  datatype Frame = Frame(sequence: nat, stream: Stream, bytes: seq<byte>)

  const MAX_FRAME_BYTES: nat := 4096

  function Min(a: nat, b: nat): nat {
    if a < b then a else b
  }

  // ----- what is stored

  /** Bytes with the stream they came from. */
  function Tagged(stream: Stream, bytes: seq<byte>): (r: seq<(Stream, byte)>)
    ensures |r| == |bytes|
  {
    seq(|bytes|, i requires 0 <= i < |bytes| => (stream, bytes[i]))
  }

  /** Everything a list of chunks carries, in order. */
  function Content(chunks: seq<Chunk>): seq<(Stream, byte)> {
    if chunks == [] then []
    else Content(chunks[..|chunks| - 1]) + Tagged(chunks[|chunks| - 1].stream, chunks[|chunks| - 1].bytes)
  }

  function FrameContent(frames: seq<Frame>): seq<(Stream, byte)> {
    if frames == [] then []
    else FrameContent(frames[..|frames| - 1]) + Tagged(frames[|frames| - 1].stream, frames[|frames| - 1].bytes)
  }

  /** Frames are numbered from zero and none is empty or longer than the limit. */
  ghost predicate WellNumbered(frames: seq<Frame>) {
    forall i :: 0 <= i < |frames| ==> frames[i].sequence == i && 0 < |frames[i].bytes| <= MAX_FRAME_BYTES
  }

  lemma TaggedAppend(stream: Stream, a: seq<byte>, b: seq<byte>)
    ensures Tagged(stream, a + b) == Tagged(stream, a) + Tagged(stream, b)
  {
  }

  lemma FrameContentAppend(frames: seq<Frame>, f: Frame)
    ensures FrameContent(frames + [f]) == FrameContent(frames) + Tagged(f.stream, f.bytes)
  {
    assert (frames + [f])[..|frames|] == frames;
  }

  lemma ContentAppend(chunks: seq<Chunk>, c: Chunk)
    ensures Content(chunks + [c]) == Content(chunks) + Tagged(c.stream, c.bytes)
  {
    assert (chunks + [c])[..|chunks|] == chunks;
  }

  class Spool {
    var frames: seq<Frame>
    var payloadBytes: nat
    const maxPayloadBytes: nat
    var truncated: bool
    /** Every chunk handed to the spool, in order. */
    ghost var received: seq<Chunk>

    /** The stored frames hold the longest prefix of everything received that fits the budget,
        and the spool says whether anything was cut. */
    ghost predicate Valid()
      reads this
    {
      && WellNumbered(frames)
      && payloadBytes == |FrameContent(frames)|
      && FrameContent(frames) == Content(received)[..Min(maxPayloadBytes, |Content(received)|)]
      && (truncated <==> |Content(received)| > maxPayloadBytes)
    }

    constructor (max: nat)
      ensures Valid() && frames == [] && received == [] && !truncated && maxPayloadBytes == max
    {
      frames, payloadBytes, truncated, received := [], 0, false, [];
      maxPayloadBytes := max;
    }

    /** `append`: cut to the budget, then one frame per 4096 bytes. */
    method Append(chunk: Chunk) returns (nextSequence: nat, cut: bool)
      requires Valid()
      modifies this
      ensures Valid() && received == old(received) + [chunk]
      ensures nextSequence == |frames| >= |old(frames)| && cut == truncated
      ensures old(frames) <= frames && (old(truncated) ==> truncated)
      ensures forall i :: |old(frames)| <= i < |frames| - 1 ==> |frames[i].bytes| == 4096
    {
      hide FrameContent, Content, Tagged;
      assert Tagged(chunk.stream, chunk.bytes[..0]) == [] && FrameContent(frames) + [] == FrameContent(frames);
      var available := if payloadBytes < maxPayloadBytes then maxPayloadBytes - payloadBytes else 0;
      var stored := Min(|chunk.bytes|, available);
      ghost var base, before := FrameContent(frames), frames;
      var i := 0;
      while i < stored
        invariant i <= stored && received == old(received) && truncated == old(truncated)
        invariant before <= frames && WellNumbered(frames) && payloadBytes == |FrameContent(frames)|
        invariant FrameContent(frames) == base + Tagged(chunk.stream, chunk.bytes[..i])
        invariant forall j :: |before| <= j < |frames| ==>
                    |frames[j].bytes| == 4096 || (i == stored && j == |frames| - 1)
      {
        var n := Min(MAX_FRAME_BYTES, stored - i);
        var part := chunk.bytes[i..i + n];
        FrameContentAppend(frames, Frame(|frames|, chunk.stream, part));
        TaggedAppend(chunk.stream, chunk.bytes[..i], part);
        assert chunk.bytes[..i] + part == chunk.bytes[..i + n];
        frames := frames + [Frame(|frames|, chunk.stream, part)];
        payloadBytes := payloadBytes + n;
        i := i + n;
      }
      truncated := truncated || stored < |chunk.bytes|;
      PrefixGrows(received, chunk, maxPayloadBytes, stored);
      received := received + [chunk];
      nextSequence, cut := |frames|, truncated;
    }

    /** `page`: whole frames from `cursor` on, the first always, further ones while the charge
        stays within `maxBytes`. */
    method Page(cursor: nat, maxBytes: nat, over: bool) returns (r: Option<OutputPage>)
      requires Valid()
      ensures r.None? <==> !(4096 <= maxBytes <= 1_048_576 && cursor <= |frames|)
      ensures r.Some? ==>
                && cursor <= r.value.nextCursor <= |frames|
                && r.value.chunks == frames[cursor..r.value.nextCursor]
                && r.value.nextCursor == PageEnd(frames, cursor, maxBytes)
                && r.value.truncated == truncated
                && (r.value.eof <==> over && r.value.nextCursor == |frames|)
    {
      hide Charge, FrameContent, Content;
      if !(MAX_FRAME_BYTES <= maxBytes <= MAX_PAGE_BYTES) || cursor > |frames| {
        return None;
      }
      var expected, total := cursor, 0;
      var chunks: seq<Frame> := [];
      ChargeNothing();
      while expected < |frames|
        invariant cursor <= expected <= |frames| && chunks == frames[cursor..expected] && total == Charge(chunks)
        invariant PageEnd(frames, cursor, maxBytes) == PageFrom(frames, cursor, expected, maxBytes)
      {
        var cost := |frames[expected].bytes| + OUTPUT_CHUNK_OVERHEAD_BYTES;
        ChargeAppend(chunks, frames[expected]);
        assert chunks + [frames[expected]] == frames[cursor..expected + 1];
        if chunks != [] && total + cost > maxBytes {
          break;
        }
        total := total + cost;
        chunks := chunks + [frames[expected]];
        expected := expected + 1;
      }
      r := Some(OutputPage(chunks, expected, truncated, over && expected == |frames|));
    }
  }

  // ----- pages

  const OUTPUT_CHUNK_OVERHEAD_BYTES: nat := 96
  const MAX_PAGE_BYTES: nat := 1024 * 1024

  datatype OutputPage = OutputPage(chunks: seq<Frame>, nextCursor: nat, truncated: bool, eof: bool)

  /** What a page is charged for its frames. */
  function Charge(frames: seq<Frame>): nat {
    if frames == [] then 0
    else Charge(frames[..|frames| - 1]) + |frames[|frames| - 1].bytes| + OUTPUT_CHUNK_OVERHEAD_BYTES
  }

  lemma ChargeNothing()
    ensures Charge([]) == 0
  {
  }

  lemma ChargeAppend(frames: seq<Frame>, f: Frame)
    ensures Charge(frames + [f]) == Charge(frames) + |f.bytes| + 96
  {
    assert (frames + [f])[..|frames|] == frames;
  }

  /** Where the page from `cursor`, already holding the frames up to `at`, ends. */
  function PageFrom(frames: seq<Frame>, cursor: nat, at: nat, maxBytes: nat): (end: nat)
    requires cursor <= at <= |frames|
    ensures at <= end <= |frames|
    decreases |frames| - at
  {
    if at == |frames| || (at > cursor && Charge(frames[cursor..at + 1]) > maxBytes) then at
    else PageFrom(frames, cursor, at + 1, maxBytes)
  }

  function PageEnd(frames: seq<Frame>, cursor: nat, maxBytes: nat): (end: nat)
    requires cursor <= |frames|
    ensures cursor <= end <= |frames|
  {
    PageFrom(frames, cursor, cursor, maxBytes)
  }

  /** A page with more to read is not empty, fits its budget unless it is a single frame, and
      could not have taken one more frame. */
  lemma PageShape(frames: seq<Frame>, cursor: nat, maxBytes: nat)
    requires cursor <= |frames|
    ensures
      var end := PageEnd(frames, cursor, maxBytes);
      && (cursor < |frames| ==> cursor < end)
      && (end > cursor + 1 ==> Charge(frames[cursor..end]) <= maxBytes)
      && (cursor < end < |frames| ==> Charge(frames[cursor..end + 1]) > maxBytes)
  {
    hide Charge;
    if cursor < |frames| {
      PageFromShape(frames, cursor, cursor + 1, maxBytes);
    }
  }

  lemma {:induction false} PageFromShape(frames: seq<Frame>, cursor: nat, at: nat, maxBytes: nat)
    requires cursor < at <= |frames|
    requires at > cursor + 1 ==> Charge(frames[cursor..at]) <= maxBytes
    ensures
      var end := PageFrom(frames, cursor, at, maxBytes);
      && (end > cursor + 1 ==> Charge(frames[cursor..end]) <= maxBytes)
      && (end < |frames| ==> Charge(frames[cursor..end + 1]) > maxBytes)
    decreases |frames| - at
  {
    hide Charge;
    if at < |frames| && Charge(frames[cursor..at + 1]) <= maxBytes {
      PageFromShape(frames, cursor, at + 1, maxBytes);
    }
  }

  /** The pages a reader gets by following `nextCursor`. */
  function AllPages(frames: seq<Frame>, cursor: nat, maxBytes: nat): seq<Frame>
    requires cursor <= |frames|
    decreases |frames| - cursor
  {
    var end := PageEnd(frames, cursor, maxBytes);
    if end <= cursor then [] else frames[cursor..end] + AllPages(frames, end, maxBytes)
  }

  /** Following the cursor reads every frame exactly once, in order, for every page size. */
  lemma {:induction false} PagesReadEverything(frames: seq<Frame>, cursor: nat, maxBytes: nat)
    requires cursor <= |frames|
    ensures AllPages(frames, cursor, maxBytes) == frames[cursor..]
    decreases |frames| - cursor
  {
    hide PageEnd;
    PageShape(frames, cursor, maxBytes);
    var end := PageEnd(frames, cursor, maxBytes);
    if cursor < end {
      PagesReadEverything(frames, end, maxBytes);
      assert frames[cursor..] == frames[cursor..end] + frames[end..];
    }
  }

  /** Appending to the stored prefix what still fits keeps it the longest prefix that fits. */
  lemma PrefixGrows(received: seq<Chunk>, c: Chunk, max: nat, stored: nat)
    requires var n := Min(max, |Content(received)|);
      stored == Min(|c.bytes|, if n < max then max - n else 0)
    ensures
      var all := Content(received + [c]);
      && all[..Min(max, |all|)]
           == Content(received)[..Min(max, |Content(received)|)] + Tagged(c.stream, c.bytes[..stored])
      && (|all| > max <==> |Content(received)| > max || stored < |c.bytes|)
  {
    hide Content, Tagged;
    ContentAppend(received, c);
    TaggedFront(c.stream, c.bytes, stored);
    LongestPrefix(Content(received), Tagged(c.stream, c.bytes), max, stored);
  }

  lemma TaggedFront(stream: Stream, bytes: seq<byte>, n: nat)
    requires n <= |bytes|
    ensures Tagged(stream, bytes[..n]) == Tagged(stream, bytes)[..n]
  {
  }

  lemma LongestPrefix<T>(a: seq<T>, b: seq<T>, max: nat, stored: nat)
    requires stored == Min(|b|, if |a| < max then max - |a| else 0)
    ensures (a + b)[..Min(max, |a + b|)] == a[..Min(max, |a|)] + b[..stored]
    ensures |a + b| > max <==> |a| > max || stored < |b|
  {
    if |a| < max {
      assert (a + b)[..|a| + stored] == a + b[..stored] && a[..|a|] == a;
    } else {
      assert (a + b)[..max] == a[..max] && b[..0] == [];
    }
  }
}
