/**
 Length-prefixed frames on a byte stream, for the three formats of the repository.  All
 have a four-byte header that determines how many bytes follow it.
 */
module Frames {
  type byte = n: int | 0 <= n < 256
  type bytes = seq<byte>

  const HEADER := 4

  /**
   Messages between drone and base carry a little-endian length, the entries of the log map
   a big-endian one.  A MultiWii frame has a three-byte preamble and a one-byte payload
   length, and ends with a command code, the payload and a checksum.
   */
  datatype Format = LittleEndian | BigEndian | MultiWiiFrame

  function LittleEndianNumber(b: bytes): nat
    requires |b| == 4
  {
    b[0] as int + 0x100 * (b[1] as int) + 0x1_0000 * (b[2] as int) + 0x100_0000 * (b[3] as int)
  }

  /** The number of bytes behind a header. */
  function BodyLength(fmt: Format, header: bytes): nat
    requires |header| == HEADER
  {
    match fmt
    case LittleEndian => LittleEndianNumber(header)
    case BigEndian => LittleEndianNumber([header[3], header[2], header[1], header[0]])
    case MultiWiiFrame => header[3] as int + 2
  }

  function LittleEndianBytes(n: nat): (b: bytes)
    requires n < 0x1_0000_0000
    ensures |b| == 4
  {
    [n % 0x100, n / 0x100 % 0x100, n / 0x1_0000 % 0x100, n / 0x100_0000]
  }

  function BigEndianBytes(n: nat): (b: bytes)
    requires n < 0x1_0000_0000
    ensures |b| == 4
  {
    [n / 0x100_0000, n / 0x1_0000 % 0x100, n / 0x100 % 0x100, n % 0x100]
  }

  lemma LengthRoundTrip(n: nat)
    requires n < 0x1_0000_0000
    ensures BodyLength(LittleEndian, LittleEndianBytes(n)) == n && BodyLength(BigEndian, BigEndianBytes(n)) == n
  {
    assert n / 0x100 / 0x100 == n / 0x1_0000 && n / 0x1_0000 / 0x100 == n / 0x100_0000;
  }

  lemma LengthBytesUnique(b: bytes)
    requires |b| == 4
    ensures LittleEndianNumber(b) < 0x1_0000_0000 && LittleEndianBytes(LittleEndianNumber(b)) == b
  {
    var n := LittleEndianNumber(b);
    assert n / 0x100 == b[1] as int + 0x100 * (b[2] as int) + 0x1_0000 * (b[3] as int);
    assert n / 0x1_0000 == b[2] as int + 0x100 * (b[3] as int);
    assert n / 0x100_0000 == b[3];
  }

  /** Too short to be a frame: the header is incomplete, or bytes behind it are missing. */
  predicate Partial(fmt: Format, s: bytes) {
    |s| < HEADER || |s| < HEADER + BodyLength(fmt, s[..HEADER])
  }

  predicate IsFrame(fmt: Format, s: bytes) {
    |s| >= HEADER && |s| == HEADER + BodyLength(fmt, s[..HEADER])
  }

  /** The frames of a stream in order, and the partial frame at its end. */
  function Split(fmt: Format, s: bytes): (r: (seq<bytes>, bytes))
    ensures Partial(fmt, r.1)
    decreases |s|
  {
    if Partial(fmt, s) then ([], s)
    else
      var n := HEADER + BodyLength(fmt, s[..HEADER]);
      var (frames, held) := Split(fmt, s[n..]);
      ([s[..n]] + frames, held)
  }

  function Join(frames: seq<bytes>): bytes {
    if frames == [] then [] else frames[0] + Join(frames[1..])
  }

  /** Splitting loses nothing: the frames and the rest make up the stream, and each frame is complete. */
  lemma {:induction false} JoinSplit(fmt: Format, s: bytes)
    ensures var (frames, held) := Split(fmt, s);
            Join(frames) + held == s && forall i :: 0 <= i < |frames| ==> IsFrame(fmt, frames[i])
    decreases |s|
  {
    hide BodyLength;
    if !Partial(fmt, s) {
      var n := HEADER + BodyLength(fmt, s[..HEADER]);
      JoinSplit(fmt, s[n..]);
      var (frames, held) := Split(fmt, s);
      assert frames[1..] == Split(fmt, s[n..]).0;
      assert s[..n] + (Join(frames[1..]) + held) == s;
      assert s[..n][..HEADER] == s[..HEADER];
    }
  }

  /** Splitting is unique: a stream of frames and a partial frame splits into exactly these. */
  lemma {:induction false} SplitJoin(fmt: Format, frames: seq<bytes>, held: bytes)
    requires Partial(fmt, held) && forall i :: 0 <= i < |frames| ==> IsFrame(fmt, frames[i])
    ensures Split(fmt, Join(frames) + held) == (frames, held)
  {
    var s := Join(frames) + held;
    if frames == [] {
      assert s == held;
    } else {
      var f := frames[0];
      assert s == f + (Join(frames[1..]) + held);
      assert s[..HEADER] == f[..HEADER] && s[..|f|] == f && s[|f|..] == Join(frames[1..]) + held;
      SplitJoin(fmt, frames[1..], held);
      assert [f] + frames[1..] == frames;
    }
  }

  /** The first frame of a stream is not affected by what follows. */
  lemma FirstFrame(fmt: Format, s: bytes, more: bytes)
    requires !Partial(fmt, s)
    ensures var n := HEADER + BodyLength(fmt, s[..HEADER]);
            && Split(fmt, s + more).0 == [s[..n]] + Split(fmt, s[n..] + more).0
            && Split(fmt, s + more).1 == Split(fmt, s[n..] + more).1
  {
    hide BodyLength;
    var n := HEADER + BodyLength(fmt, s[..HEADER]);
    assert (s + more)[..HEADER] == s[..HEADER];
    assert (s + more)[..n] == s[..n] && (s + more)[n..] == s[n..] + more;
  }

  /** What arrives later only concerns the partial frame. */
  lemma {:induction false} SplitExtend(fmt: Format, s: bytes, more: bytes)
    ensures var (frames, held) := Split(fmt, s);
            var (next, rest) := Split(fmt, held + more);
            Split(fmt, s + more) == (frames + next, rest)
    decreases |s|
  {
    hide BodyLength;
    if !Partial(fmt, s) {
      var n := HEADER + BodyLength(fmt, s[..HEADER]);
      FirstFrame(fmt, s, more);
      SplitExtend(fmt, s[n..], more);
      var (frames, held) := Split(fmt, s[n..]);
      var (next, rest) := Split(fmt, held + more);
      assert [s[..n]] + (frames + next) == ([s[..n]] + frames) + next;
    } else {
      assert [] + Split(fmt, s + more).0 == Split(fmt, s + more).0;
    }
  }

  /** A stream that is a frame splits into it. */
  lemma SplitFrame(fmt: Format, f: bytes)
    requires IsFrame(fmt, f)
    ensures Split(fmt, f) == ([f], [])
  {
    assert Join([f]) == f + Join([]) == f + [] == f;
    SplitJoin(fmt, [f], []);
  }

  /** Bytes that leave the partial frame partial are added to it. */
  lemma SplitKeeps(fmt: Format, s: bytes, more: bytes)
    requires Partial(fmt, Split(fmt, s).1 + more)
    ensures Split(fmt, s + more) == (Split(fmt, s).0, Split(fmt, s).1 + more)
  {
    SplitExtend(fmt, s, more);
    assert Split(fmt, s).0 + [] == Split(fmt, s).0;
  }

  /** Bytes that complete the partial frame add it to the frames. */
  lemma SplitCompletes(fmt: Format, s: bytes, more: bytes)
    requires IsFrame(fmt, Split(fmt, s).1 + more)
    ensures Split(fmt, s + more) == (Split(fmt, s).0 + [Split(fmt, s).1 + more], [])
  {
    SplitExtend(fmt, s, more);
    SplitFrame(fmt, Split(fmt, s).1 + more);
  }

  lemma {:induction false} JoinAppend(frames: seq<bytes>, frame: bytes)
    ensures Join(frames + [frame]) == Join(frames) + frame
  {
    if frames == [] {
      assert [] + [frame] == [frame];
    } else {
      JoinAppend(frames[1..], frame);
      assert (frames + [frame])[1..] == frames[1..] + [frame];
    }
  }

  lemma {:induction false} JoinConcat(frames: seq<bytes>, k: nat)
    requires k <= |frames|
    ensures Join(frames) == Join(frames[..k]) + Join(frames[k..])
  {
    if k == 0 {
      assert frames[..0] == [] && frames[0..] == frames;
    } else {
      JoinConcat(frames[1..], k - 1);
      assert frames[..k][1..] == frames[1..][..k-1] && frames[1..][k-1..] == frames[k..];
    }
  }

  lemma EmptyIsPartial(fmt: Format)
    ensures Partial(fmt, []) && Split(fmt, []) == ([], [])
  {
  }

  /**
   The refinement shared by the receivers: on a stream that joins the frames `all`, what has
   been consumed splits into the first of them, in order and once each, and a partial frame;
   when nothing is left to read it splits into all of them.
   */
  lemma SplitIsPrefix(fmt: Format, all: seq<bytes>, consumed: bytes, incoming: bytes)
    requires forall i :: 0 <= i < |all| ==> IsFrame(fmt, all[i])
    requires consumed + incoming == Join(all)
    ensures var (frames, held) := Split(fmt, consumed);
            && frames <= all
            && held + incoming == Join(all[|frames|..])
            && (incoming == [] ==> frames == all && held == [])
  {
    hide Partial, IsFrame;
    var (frames, held) := Split(fmt, consumed);
    assert Join(all) + [] == Join(all);
    EmptyIsPartial(fmt);
    SplitJoin(fmt, all, []);
    SplitExtend(fmt, consumed, incoming);
    var next := Split(fmt, held + incoming).0;
    assert all == frames + next && all[|frames|..] == next;
    JoinSplit(fmt, held + incoming);
    assert Join(next) + [] == Join(next);
    if incoming == [] {
      assert consumed + [] == consumed;
    }
  }

  /** Every header met in the stream announces at most `limit` bytes. */
  predicate Bounded(fmt: Format, s: bytes, limit: nat)
    decreases |s|
  {
    |s| >= HEADER ==>
      var n := BodyLength(fmt, s[..HEADER]);
      n <= limit && (|s| >= HEADER + n ==> Bounded(fmt, s[HEADER+n..], limit))
  }

  lemma {:induction false} BoundedPrefix(fmt: Format, s: bytes, more: bytes, limit: nat)
    requires Bounded(fmt, s + more, limit)
    ensures Bounded(fmt, s, limit)
    decreases |s|
  {
    hide BodyLength;
    if |s| >= HEADER {
      assert (s + more)[..HEADER] == s[..HEADER];
      var n := BodyLength(fmt, s[..HEADER]);
      if |s| >= HEADER + n {
        assert (s + more)[HEADER+n..] == s[HEADER+n..] + more;
        BoundedPrefix(fmt, s[HEADER+n..], more, limit);
      }
    }
  }

  /** The bound holds of a partial frame in the middle of a bounded stream. */
  lemma {:induction false} BoundedHeld(fmt: Format, s: bytes, more: bytes, limit: nat)
    requires Bounded(fmt, s + more, limit) && |Split(fmt, s).1| >= HEADER
    ensures BodyLength(fmt, Split(fmt, s).1[..HEADER]) <= limit
    decreases |s|
  {
    hide BodyLength;
    assert (s + more)[..HEADER] == s[..HEADER];
    if !Partial(fmt, s) {
      var n := HEADER + BodyLength(fmt, s[..HEADER]);
      assert (s + more)[n..] == s[n..] + more;
      BoundedHeld(fmt, s[n..], more, limit);
    }
  }

  /** Streams of bounded frames are bounded. */
  lemma {:induction false} BoundedJoin(fmt: Format, frames: seq<bytes>, limit: nat)
    requires forall i :: 0 <= i < |frames| ==> IsFrame(fmt, frames[i]) && |frames[i]| <= HEADER + limit
    ensures Bounded(fmt, Join(frames), limit)
  {
    if frames != [] {
      var f, s := frames[0], Join(frames);
      assert s[..HEADER] == f[..HEADER] && s[|f|..] == Join(frames[1..]);
      BoundedJoin(fmt, frames[1..], limit);
    }
  }
}
