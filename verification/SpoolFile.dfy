/**
 The spool's file format, and reopening it after a crash with the cursor the job state last
 committed.
 */
module SpoolFile {
  import opened Bytes
  import opened Spool
  import opened Utf8

  /** A checksum of 32 bytes. */
  ghost predicate IsHash(hash: seq<byte> -> seq<byte>) {
    forall b :: |hash(b)| == 32
  }

  const MAGIC: seq<byte> := [0x41, 0x58, 0x4F, 0x31]

  function StreamByte(s: Stream): byte {
    match s case Stdout => 0 case Stderr => 1
  }

  /** Length, sequence number and stream: what the checksum covers besides the payload. */
  function Head(f: Frame): (r: seq<byte>)
    ensures |r| == 13
  {
    LittleEndian(|f.bytes|, 4) + LittleEndian(f.sequence, 8) + [StreamByte(f.stream)]
  }

  function FrameBytes(hash: seq<byte> -> seq<byte>, f: Frame): seq<byte> {
    MAGIC + Head(f) + hash(Head(f) + f.bytes) + f.bytes
  }

  function FileBytes(hash: seq<byte> -> seq<byte>, frames: seq<Frame>): seq<byte> {
    if frames == [] then [] else FrameBytes(hash, frames[0]) + FileBytes(hash, frames[1..])
  }

  /** The frame at the front of `b` and its length, or none if it is torn or does not check. */
  function ReadFrame(hash: seq<byte> -> seq<byte>, b: seq<byte>): (r: Option<(Frame, nat)>)
    ensures r.Some? ==> 49 <= r.value.1 <= |b|
  {
    if |b| < 49 || b[..4] != MAGIC then None
    else
      var n := FromLittleEndian(b[4..8]);
      if n > MAX_FRAME_BYTES || b[16] > 1 || |b| < 49 + n then None
      else
        var bytes := b[49..49 + n];
        if hash(b[4..17] + bytes) != b[17..49] then None
        else Some((Frame(FromLittleEndian(b[8..16]), if b[16] == 0 then Stdout else Stderr, bytes), 49 + n))
  }

  /** `Spool::open`: read `committed` frames numbered from `next`; what follows is discarded. */
  function Reopen(hash: seq<byte> -> seq<byte>, b: seq<byte>, next: nat, committed: nat): Option<seq<Frame>>
    requires next <= committed
    decreases committed - next
  {
    if next == committed then Some([])
    else match ReadFrame(hash, b)
      case None => None
      case Some((f, n)) =>
        if f.sequence != next then None
        else match Reopen(hash, b[n..], next + 1, committed)
          case None => None
          case Some(more) => Some([f] + more)
  }

  lemma HeadParts(f: Frame)
    requires |f.bytes| <= MAX_FRAME_BYTES && f.sequence < 0x1_0000_0000_0000_0000
    ensures FromLittleEndian(Head(f)[..4]) == |f.bytes|
    ensures FromLittleEndian(Head(f)[4..12]) == f.sequence
    ensures Head(f)[12] == StreamByte(f.stream)
  {
    assert Head(f)[..4] == LittleEndian(|f.bytes|, 4);
    assert Head(f)[4..12] == LittleEndian(f.sequence, 8);
    EightBytes();
    assert Power256(2) == 0x1_0000;
    assert Power256(4) == 0x1_0000_0000;
    LittleEndianRoundTrip(|f.bytes|, 4);
    LittleEndianRoundTrip(f.sequence, 8);
  }

  lemma Slices(magic: seq<byte>, head: seq<byte>, sum: seq<byte>, bytes: seq<byte>, x: seq<byte>)
    requires |magic| == 4 && |head| == 13 && |sum| == 32
    ensures
      var b := magic + head + sum + bytes + x;
      && |b| == 49 + |bytes| + |x| && b[..4] == magic && b[4..17] == head && b[17..49] == sum
      && b[49..49 + |bytes|] == bytes && b[49 + |bytes|..] == x
      && b[4..8] == head[..4] && b[8..16] == head[4..12] && b[16] == head[12]
  {
  }

  /** A written frame is read back, whatever follows it in the file. */
  lemma ReadWritten(hash: seq<byte> -> seq<byte>, f: Frame, x: seq<byte>)
    requires IsHash(hash) && |f.bytes| <= MAX_FRAME_BYTES && f.sequence < 0x1_0000_0000_0000_0000
    ensures ReadFrame(hash, FrameBytes(hash, f) + x) == Some((f, |FrameBytes(hash, f)|))
    ensures (FrameBytes(hash, f) + x)[|FrameBytes(hash, f)|..] == x
  {
    hide Head, FromLittleEndian;
    HeadParts(f);
    Slices(MAGIC, Head(f), hash(Head(f) + f.bytes), f.bytes, x);
  }

  /** A frame on disk: `AXO1`, the length in 4 bytes, the number in 8, the stream in 1, the
      checksum of those 13 and the payload in 32, and the payload. */
  lemma FrameLayout(hash: seq<byte> -> seq<byte>, f: Frame)
    requires IsHash(hash)
    ensures
      var b := FrameBytes(hash, f);
      && |b| == 49 + |f.bytes| && b[..4] == [65, 88, 79, 49]
      && b[4..8] == LittleEndian(|f.bytes|, 4) && b[8..16] == LittleEndian(f.sequence, 8)
      && b[16] == (if f.stream == Stdout then 0 else 1)
      && b[17..49] == hash(b[4..17] + f.bytes) && b[49..] == f.bytes
  {
    var head := Head(f);
    var b := FrameBytes(hash, f);
    assert head[..4] == LittleEndian(|f.bytes|, 4) && head[4..12] == LittleEndian(f.sequence, 8);
    hide Head, LittleEndian;
    assert b + [] == b;
    Slices(MAGIC, head, hash(head + f.bytes), f.bytes, []);
  }

  /** Only bytes that some frame is written as are read as that frame: a changed byte that the
      checksum tells is never read. */
  lemma ReadIsWritten(hash: seq<byte> -> seq<byte>, b: seq<byte>)
    requires ReadFrame(hash, b).Some?
    ensures
      var (f, n) := ReadFrame(hash, b).value;
      b[..n] == FrameBytes(hash, f) && |f.bytes| <= 4096
  {
    hide FromLittleEndian, LittleEndian;
    var (f, n) := ReadFrame(hash, b).value;
    FromLittleEndianRoundTrip(b[4..8]);
    FromLittleEndianRoundTrip(b[8..16]);
    assert b[4..17] == b[4..8] + b[8..16] + [b[16]];
    assert Head(f) == b[4..17];
    assert b[..n] == b[..4] + b[4..17] + b[17..49] + b[49..n];
  }

  /** Reopening at a committed cursor recovers exactly the committed frames, whatever complete,
      torn or foreign bytes come after them. */
  lemma {:induction false} ReopenCommitted(hash: seq<byte> -> seq<byte>, frames: seq<Frame>, next: nat, tail: seq<byte>)
    requires IsHash(hash) && next + |frames| <= 0x1_0000_0000_0000_0000
    requires forall i :: 0 <= i < |frames| ==> frames[i].sequence == next + i && |frames[i].bytes| <= MAX_FRAME_BYTES
    ensures Reopen(hash, FileBytes(hash, frames) + tail, next, next + |frames|) == Some(frames)
    decreases |frames|
  {
    hide ReadFrame, FrameBytes;
    if frames != [] {
      var x := FileBytes(hash, frames[1..]) + tail;
      assert FileBytes(hash, frames) + tail == FrameBytes(hash, frames[0]) + x;
      ReadWritten(hash, frames[0], x);
      ReopenCommitted(hash, frames[1..], next + 1, tail);
      assert frames == [frames[0]] + frames[1..];
    }
  }

  lemma {:induction false} FileBytesAppend(hash: seq<byte> -> seq<byte>, a: seq<Frame>, b: seq<Frame>)
    ensures FileBytes(hash, a + b) == FileBytes(hash, a) + FileBytes(hash, b)
  {
    hide FrameBytes;
    if a == [] {
      assert a + b == b;
    } else {
      FileBytesAppend(hash, a[1..], b);
      assert (a + b)[1..] == a[1..] + b;
    }
  }

  /** A crash in the middle of an append loses nothing that was published: the file holds the
      frames and any prefix of the next one, and reopening at any committed cursor gives the
      frames before it. */
  lemma CrashKeepsPublished(hash: seq<byte> -> seq<byte>, frames: seq<Frame>, committed: nat, torn: seq<byte>)
    requires IsHash(hash) && WellNumbered(frames) && committed <= |frames| <= 0x1_0000_0000_0000_0000
    ensures Reopen(hash, FileBytes(hash, frames) + torn, 0, committed) == Some(frames[..committed])
  {
    hide FileBytes, Reopen;
    assert frames == frames[..committed] + frames[committed..];
    FileBytesAppend(hash, frames[..committed], frames[committed..]);
    var tail := FileBytes(hash, frames[committed..]) + torn;
    assert FileBytes(hash, frames) + torn == FileBytes(hash, frames[..committed]) + tail;
    ReopenCommitted(hash, frames[..committed], 0, tail);
  }
}
