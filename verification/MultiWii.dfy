/**
 `MultiWii`: commands to the flight board and their replies.  A frame is a three-byte
 preamble, the payload length, the command code, the payload and a checksum.  `char` is
 unsigned on the target (32-bit ARM), so a length byte counts up to 255.
 */
module MultiWii {
  import opened Division
  import opened Frames
  import opened Wire

  const BUFFER_LENGTH := 256
  /** The longest payload whose frame fits the buffers; the code does not check it. */
  const MAX_PAYLOAD := 250

  function Xor(a: byte, b: byte): byte {
    ((a as bv8) ^ (b as bv8)) as int
  }

  function Checksum(s: bytes): byte {
    if s == [] then 0 else Xor(Checksum(s[..|s|-1]), s[|s|-1])
  }

  /** What the checksum covers: the length, the command and the payload. */
  function Body(command: byte, payload: bytes): bytes
    requires |payload| < 256
  {
    [|payload|, command] + payload
  }

  /** The frame of a command, with the preamble `$M<`. */
  function CommandFrame(command: byte, payload: bytes): bytes
    requires |payload| < 256
  {
    [36, 77, 60] + Body(command, payload) + [Checksum(Body(command, payload))]
  }

  lemma CommandFrameIsFrame(command: byte, payload: bytes)
    requires |payload| < 256
    ensures var f := CommandFrame(command, payload);
            IsFrame(MultiWiiFrame, f) && f[4] == command && f[5..|f|-1] == payload
  {
  }

  function Pow2(k: nat): (p: nat)
    ensures p >= 1
  {
    if k == 0 then 1 else 2 * Pow2(k - 1)
  }

  /** Bit `k` of a number. */
  predicate Bit(n: nat, k: nat) {
    n / Pow2(k) % 2 == 1
  }

  lemma HalfVector(x: bv8)
    ensures (x as int) / 2 == (x >> 1) as int && (x as int) % 2 == (x & 1) as int
  {
  }

  lemma Recast(x: bv8)
    ensures (x as int) as bv8 == x
  {
  }

  lemma HalfByte(a: byte)
    ensures (a / 2) as bv8 == (a as bv8) >> 1 && a % 2 == ((a as bv8) & 1) as int
  {
    HalfVector(a as bv8);
    Recast((a as bv8) >> 1);
  }

  lemma XorVector(x: bv8, y: bv8)
    ensures (x ^ y) >> 1 == (x >> 1) ^ (y >> 1)
    ensures (x ^ y) & 1 == 0 <==> x & 1 == y & 1
  {
  }

  lemma LowBit(x: bv8)
    ensures (x & 1) as int == if x & 1 == 0 then 0 else 1
  {
    assert x & 1 == 0 || x & 1 == 1;
  }

  lemma XorHalf(a: byte, b: byte)
    ensures Xor(a, b) / 2 == Xor(a / 2, b / 2)
  {
    HalfByte(a);
    HalfByte(b);
    HalfVector((a as bv8) ^ (b as bv8));
    XorVector(a as bv8, b as bv8);
  }

  lemma XorParity(a: byte, b: byte)
    ensures Xor(a, b) % 2 == if a % 2 == b % 2 then 0 else 1
  {
    var x, y := a as bv8, b as bv8;
    HalfByte(a);
    HalfByte(b);
    HalfVector(x ^ y);
    XorVector(x, y);
    LowBit(x);
    LowBit(y);
    LowBit(x ^ y);
  }

  /** A bit of the exclusive or is set exactly if it is set in one of the two only. */
  lemma {:induction false} XorBit(a: byte, b: byte, k: nat)
    ensures Bit(Xor(a, b), k) <==> Bit(a, k) != Bit(b, k)
  {
    XorHalf(a, b);
    XorParity(a, b);
    hide Xor;
    if k > 0 {
      XorBit(a / 2, b / 2, k - 1);
      QuotientOfQuotient(a, 2, Pow2(k - 1));
      QuotientOfQuotient(b, 2, Pow2(k - 1));
      QuotientOfQuotient(Xor(a, b), 2, Pow2(k - 1));
    }
  }

  /** How many of some bytes have bit `k` set. */
  function BitCount(s: bytes, k: nat): nat {
    if s == [] then 0 else BitCount(s[..|s|-1], k) + if Bit(s[|s|-1], k) then 1 else 0
  }

  lemma ZeroBit(k: nat)
    ensures !Bit(0, k)
  {
  }

  lemma {:induction false} ChecksumBit(s: bytes, k: nat)
    ensures Bit(Checksum(s), k) <==> BitCount(s, k) % 2 == 1
  {
    hide Xor, Bit;
    if s == [] {
      ZeroBit(k);
    } else {
      ChecksumBit(s[..|s|-1], k);
      XorBit(Checksum(s[..|s|-1]), s[|s|-1], k);
    }
  }

  /** A bit of the last byte of a frame is set exactly if it is set in an odd number of the bytes from the length through the payload. */
  lemma LastByteBit(command: byte, payload: bytes, k: nat)
    requires |payload| < 256
    ensures var f := CommandFrame(command, payload);
            Bit(f[|f|-1], k) <==> BitCount(f[3..|f|-1], k) % 2 == 1
  {
    var f, body := CommandFrame(command, payload), Body(command, payload);
    assert f[3..|f|-1] == body;
    ChecksumBit(body, k);
  }

  lemma CountMore(s: bytes, b: byte, k: nat)
    ensures BitCount(s + [b], k) == BitCount(s, k) + if Bit(b, k) then 1 else 0
  {
    assert (s + [b])[..|s|] == s;
  }

  lemma BehindPreamble(command: byte, payload: bytes)
    requires |payload| < 256
    ensures CommandFrame(command, payload)[3..] == Body(command, payload) + [Checksum(Body(command, payload))]
  {
    hide Checksum, Body;
    var tail := Body(command, payload) + [Checksum(Body(command, payload))];
    assert CommandFrame(command, payload) == [36, 77, 60] + tail;
  }

  lemma Evened(n: nat, odd: bool)
    requires odd <==> n % 2 == 1
    ensures (n + if odd then 1 else 0) % 2 == 0
  {
  }

  /** From the length field through the checksum every bit of a frame is set in an even number of bytes. */
  lemma ChecksumCancels(command: byte, payload: bytes, k: nat)
    requires |payload| < 256
    ensures BitCount(CommandFrame(command, payload)[3..], k) % 2 == 0
  {
    var body := Body(command, payload);
    hide Bit, BitCount, Checksum, CommandFrame, Body, Xor;
    ChecksumBit(body, k);
    CountMore(body, Checksum(body), k);
    BehindPreamble(command, payload);
    Evened(BitCount(body, k), Bit(Checksum(body), k));
  }

  /** A reply as the caller sees it. */
  datatype Response = Response(command: byte, data: bytes)

  datatype Received = Nothing | Reply(response: Response) | Exception

  /** What `recv` returns for a frame. */
  predicate ReadFrom(frame: bytes, response: Response) {
    |frame| >= 6 && response == Response(frame[4], frame[5..|frame|-1])
  }

  class MultiWii {
    const source: Source
    const sink: Sink
    const send: array<byte>
    const recv: array<byte>
    var idx: nat
    ghost var frames: seq<bytes>

    constructor (source: Source, sink: Sink)
      requires source.consumed == [] && Bounded(MultiWiiFrame, source.incoming, MAX_PAYLOAD + 2)
      ensures this.source == source && this.sink == sink && Valid() && frames == [] && Ready()
      ensures fresh(send) && fresh(recv)
    {
      this.source, this.sink := source, sink;
      send, recv := new byte[BUFFER_LENGTH], new byte[BUFFER_LENGTH];
      idx, frames := 0, [];
      new;
      send[0], send[1], send[2] := 36, 77, 60;
      assert source.Stream() == source.incoming;
    }

    /** The send buffer begins with the preamble. */
    ghost predicate Ready()
      reads send
    {
      send.Length == BUFFER_LENGTH && send[..3] == [36, 77, 60]
    }

    /** `sendCMD`: builds the frame in the send buffer and writes it. */
    method SendCommand(command: byte, payload: bytes) returns (ok: bool)
      requires Ready() && |payload| <= MAX_PAYLOAD && sink as object != send
      modifies send, sink
      ensures Ready()
      ensures ok ==> sink.sent == old(sink.sent) + CommandFrame(command, payload)
      ensures old(sink.sent) <= sink.sent <= old(sink.sent) + CommandFrame(command, payload)
      ensures Break !in old(sink.script) && Block !in old(sink.script) ==> ok
    {
      var n := |payload|;
      send[3] := n;
      send[4] := command;
      forall i | 0 <= i < n {
        send[5+i] := payload[i];
      }
      assert send[3..n+5] == Body(command, payload);
      FoldChecksum(n, Body(command, payload));
      ok := sink.SerialWriteFull(send[..n+6]);
    }

    lemma ChecksumMore(body: bytes, k: nat)
      requires k < |body|
      ensures Checksum(body[..k+1]) == Xor(Checksum(body[..k]), body[k])
      ensures Checksum(body[..0]) == 0
    {
      assert body[..k+1][..k] == body[..k];
    }

    /** The checksum loop of `sendCMD`, which folds the body into the last byte of the frame. */
    method FoldChecksum(n: nat, ghost body: bytes)
      requires Ready() && n <= MAX_PAYLOAD && |body| == n + 2 && send[3..n+5] == body
      modifies send
      ensures Ready() && send[..n+6] == [36, 77, 60] + body + [Checksum(body)]
    {
      hide Checksum, Xor;
      ChecksumMore(body, 0);
      send[n+5] := 0;
      var i := 3;
      while i < n + 5
        invariant 3 <= i <= n + 5 && send[..3] == [36, 77, 60] && send[3..n+5] == body
        invariant send[n+5] == Checksum(body[..i-3])
      {
        ChecksumMore(body, i - 3);
        assert send[i] == body[i-3];
        send[n+5] := Xor(send[n+5], send[i]);
        i := i + 1;
      }
      assert body[..n+2] == body;
    }

    /** What was consumed splits into the frames returned and the partial frame in the buffer. */
    ghost predicate Valid()
      reads this, source, recv
    {
      && recv.Length == BUFFER_LENGTH && idx <= BUFFER_LENGTH
      && Split(MultiWiiFrame, source.consumed) == (frames, recv[..idx])
      && Bounded(MultiWiiFrame, source.Stream(), MAX_PAYLOAD + 2)
    }

    ghost predicate Separate() {
      source as object != this && source as object != recv && send != recv
    }

    /** Reads towards `want` bytes in the buffer, which stays short of a frame or becomes one. */
    method Fill(want: nat) returns (ok: bool)
      requires Valid() && Separate() && idx < want <= BUFFER_LENGTH
      requires want == HEADER || (idx >= HEADER && want == HEADER + BodyLength(MultiWiiFrame, recv[..HEADER]))
      modifies `idx, `frames, source, recv
      ensures source.Stream() == old(source.Stream()) && recv.Length == BUFFER_LENGTH && old(idx) <= idx <= want
      ensures old(idx) >= HEADER ==> recv[..HEADER] == old(recv[..HEADER])
      ensures idx < want || want == HEADER ==> Valid() && frames == old(frames)
      ensures idx == want != HEADER ==>
                && IsFrame(MultiWiiFrame, recv[..idx]) && frames == old(frames) + [recv[..idx]]
                && Split(MultiWiiFrame, source.consumed) == (frames, [])
      ensures !ok ==> idx == old(idx)
      ensures Flowing(old(source.script)) && old(source.script) != [] ==>
                && ok && Flowing(source.script) && |source.script| == |old(source.script)| - 1
                && |source.incoming| <= |old(source.incoming)| && (old(source.incoming) != [] ==> |source.incoming| < |old(source.incoming)|)
    {
      var got, more := source.ReadRetrying(recv, idx, want - idx);
      if got.Got? {
        idx := idx + got.n;
      }
      if old(idx) >= HEADER {
        assert recv[..HEADER] == recv[..idx][..HEADER] && old(recv[..HEADER]) == old(recv[..idx])[..HEADER];
      }
      Advance(old(source.consumed), more, want);
      if idx == want && want != HEADER {
        frames := frames + [recv[..idx]];
      }
      ok := !got.Failed?;
    }

    static lemma Advance(consumed: bytes, more: bytes, want: nat)
      requires var held := Split(MultiWiiFrame, consumed).1;
               && |held + more| <= want
               && (want == HEADER || (|held| >= HEADER && want == HEADER + BodyLength(MultiWiiFrame, held[..HEADER])))
      ensures var (frames, held) := Split(MultiWiiFrame, consumed);
              if |held + more| < want || want == HEADER
              then Split(MultiWiiFrame, consumed + more) == (frames, held + more)
              else IsFrame(MultiWiiFrame, held + more) && Split(MultiWiiFrame, consumed + more) == (frames + [held + more], [])
    {
      var held := Split(MultiWiiFrame, consumed).1;
      if |held| >= HEADER {
        assert (held + more)[..HEADER] == held[..HEADER];
      }
      if |held + more| < want || want == HEADER {
        SplitKeeps(MultiWiiFrame, consumed, more);
      } else {
        SplitCompletes(MultiWiiFrame, consumed, more);
      }
    }

    /** `recv`: returns a reply just when its last byte has arrived. */
    method Recv() returns (r: Received)
      requires Valid() && Separate()
      modifies this, source, recv
      ensures Valid() && source.Stream() == old(source.Stream())
      ensures !r.Reply? ==> frames == old(frames)
      ensures Flowing(old(source.script)) && |old(source.script)| >= 2 ==>
                && r != Exception && Flowing(source.script) && |source.script| >= |old(source.script)| - 2
                && |source.incoming| <= |old(source.incoming)| && (old(source.incoming) != [] ==> |source.incoming| < |old(source.incoming)|)
      ensures r.Reply? ==>
                && |frames| == |old(frames)| + 1 && frames[..|old(frames)|] == old(frames)
                && ReadFrom(frames[|old(frames)|], r.response)
    {
      if idx < HEADER {
        var ok := Fill(HEADER);
        if !ok {
          return Exception;
        }
        if idx < HEADER {
          return Nothing;
        }
      }
      HeldIsBounded();
      var len := recv[3] as int + 6;
      if idx != len {
        var ok := Fill(len);
        if !ok {
          return Exception;
        }
        if idx != len {
          return Nothing;
        }
      }
      ghost var f := recv[..len];
      var data := recv[5..5+(len-6)];
      r := Reply(Response(recv[4], data));
      assert f[5..|f|-1] == data;
      idx := 0;
      assert recv[..idx] == [];
    }

    /** A complete header announces a frame that fits the buffer and is not complete yet. */
    lemma HeldIsBounded()
      requires Valid() && idx >= HEADER
      ensures BodyLength(MultiWiiFrame, recv[..HEADER]) == recv[3] as int + 2 <= MAX_PAYLOAD + 2
      ensures idx < recv[3] as int + 6
    {
      BoundedHeld(MultiWiiFrame, source.consumed, source.incoming, MAX_PAYLOAD + 2);
      assert recv[..idx][..HEADER] == recv[..HEADER];
      assert Partial(MultiWiiFrame, recv[..idx]);
    }
  }

  datatype Command = Command(code: byte, payload: bytes)

  ghost predicate Short(commands: seq<Command>) {
    forall i :: 0 <= i < |commands| ==> |commands[i].payload| <= MAX_PAYLOAD
  }

  ghost function CommandFrames(commands: seq<Command>): (frames: seq<bytes>)
    requires Short(commands)
    ensures |frames| == |commands|
    ensures forall i :: 0 <= i < |frames| ==> frames[i] == CommandFrame(commands[i].code, commands[i].payload)
  {
    seq(|commands|, i requires 0 <= i < |commands| => CommandFrame(commands[i].code, commands[i].payload))
  }

  /** What `recv` takes from a frame is what was sent. */
  predicate Shows(frame: bytes, c: Command) {
    ReadFrom(frame, Response(c.code, c.payload))
  }

  /** The frames of commands are frames within the receiver's bound, and show the commands. */
  lemma CommandFramesAreFrames(sent: seq<Command>)
    requires Short(sent)
    ensures forall i :: 0 <= i < |sent| ==> IsFrame(MultiWiiFrame, CommandFrames(sent)[i]) && Shows(CommandFrames(sent)[i], sent[i])
    ensures Bounded(MultiWiiFrame, Join(CommandFrames(sent)), MAX_PAYLOAD + 2)
  {
    var all := CommandFrames(sent);
    forall i | 0 <= i < |sent| ensures IsFrame(MultiWiiFrame, all[i]) && Shows(all[i], sent[i]) {
      CommandFrameIsFrame(sent[i].code, sent[i].payload);
    }
    BoundedJoin(MultiWiiFrame, all, MAX_PAYLOAD + 2);
  }

  /** Any run of `recv` over the stream of a sender: the replies are the first commands sent, in order. */
  lemma RepliesArePrefix(sent: seq<Command>, consumed: bytes, incoming: bytes)
    requires Short(sent) && consumed + incoming == Join(CommandFrames(sent))
    ensures var (frames, held) := Split(MultiWiiFrame, consumed);
            && |frames| <= |sent|
            && (forall i :: 0 <= i < |frames| ==> Shows(frames[i], sent[i]))
            && (incoming == [] ==> |frames| == |sent| && held == [])
  {
    hide CommandFrame, Shows, BodyLength;
    CommandFramesAreFrames(sent);
    SplitIsPrefix(MultiWiiFrame, CommandFrames(sent), consumed, incoming);
  }

  /** Reads that transfer something, two for each call, and a call for each byte, suffice. */
  ghost predicate Enough(script: seq<Event>, incoming: bytes, calls: nat) {
    Flowing(script) && |script| >= 2 * calls && |incoming| <= calls
  }

  lemma RepliesShow(sent: seq<Command>, frames: seq<bytes>, replies: seq<Response>)
    requires |replies| == |frames| <= |sent|
    requires forall i :: 0 <= i < |frames| ==> Shows(frames[i], sent[i]) && ReadFrom(frames[i], replies[i])
    ensures forall i :: 0 <= i < |replies| ==> replies[i] == Response(sent[i].code, sent[i].payload)
  {
  }

  /** Calls `recv` a number of times: for every script the replies are those sent, in order and once each. */
  method ReceiveReplies(board: MultiWii, ghost sent: seq<Command>, calls: nat) returns (replies: seq<Response>)
    requires board.Valid() && board.Separate() && board.frames == []
    requires Short(sent) && board.source.Stream() == Join(CommandFrames(sent))
    modifies board, board.source, board.recv
    ensures |replies| <= |sent| && forall i :: 0 <= i < |replies| ==> replies[i] == Response(sent[i].code, sent[i].payload)
    ensures board.source.incoming == [] ==> |replies| == |sent|
    ensures old(Enough(board.source.script, board.source.incoming, calls)) ==> |replies| == |sent|
  {
    hide CommandFrames, Split, Bounded, ReadFrom;
    ghost var enough := Enough(board.source.script, board.source.incoming, calls);
    replies := [];
    for call := 0 to calls
      invariant board.Valid() && board.source.Stream() == Join(CommandFrames(sent))
      invariant |replies| == |board.frames| && (enough ==> Enough(board.source.script, board.source.incoming, calls - call))
      invariant forall i :: 0 <= i < |replies| ==> ReadFrom(board.frames[i], replies[i])
    {
      ghost var before := board.frames;
      var r := board.Recv();
      if r.Reply? {
        assert forall i :: 0 <= i < |before| ==> board.frames[i] == before[i];
        replies := replies + [r.response];
      }
    }
    RepliesArePrefix(sent, board.source.consumed, board.source.incoming);
    RepliesShow(sent, board.frames, replies);
  }
}
