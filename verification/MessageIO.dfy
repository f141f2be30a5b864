/**
 `IO::sendMessage`, the base's `SendMessage` and `IO::recvMessage`: messages as bytes with a
 little-endian length in front.  The receiver keeps a partial message between calls.
 */
module MessageIO {
  import opened Frames
  import opened Wire

  /** The size of the receive buffer; the code does not check lengths against it. */
  const BUFFER_LENGTH := 4096

  /** A serialised message on the wire. */
  function Encode(message: bytes): bytes
    requires |message| < 0x1_0000_0000
  {
    LittleEndianBytes(|message|) + message
  }

  lemma EncodeIsFrame(message: bytes)
    requires |message| < 0x1_0000_0000
    ensures IsFrame(LittleEndian, Encode(message)) && Encode(message)[HEADER..] == message
  {
    LengthRoundTrip(|message|);
    assert Encode(message)[..HEADER] == LittleEndianBytes(|message|);
  }

  /** The base's `SendMessage`. */
  method BaseSendMessage(sink: Sink, message: bytes) returns (ok: bool)
    requires |message| < 0x1_0000_0000
    modifies sink
    ensures ok ==> sink.sent == old(sink.sent) + Encode(message)
    ensures Break !in old(sink.script) ==> ok
    ensures forall e :: e in sink.script ==> e in old(sink.script)
    ensures old(sink.sent) <= sink.sent <= old(sink.sent) + Encode(message)
  {
    var _, written := sink.ConnWrite(LittleEndianBytes(|message|));
    if !written {
      return false;
    }
    ok := sink.BaseWriteFull(message);
    assert old(sink.sent) + LittleEndianBytes(|message|) + message == old(sink.sent) + Encode(message);
  }

  /** What `recvMessage` gives its caller: false, true with a message, or an exception. */
  datatype Received = Nothing | Message(payload: bytes) | Disconnected

  lemma HeaderOf(n: nat, payload: bytes)
    requires n < 0x1_0000_0000
    ensures var s := LittleEndianBytes(n) + payload;
            |s| >= HEADER && BodyLength(LittleEndian, s[..HEADER]) == n
  {
    LengthRoundTrip(n);
    assert (LittleEndianBytes(n) + payload)[..HEADER] == LittleEndianBytes(n);
  }

  class IO {
    const source: Source
    const sink: Sink
    const buffer: array<byte>
    /** Whether `ParseFromArray` accepts a payload. */
    const parses: bytes -> bool
    var iter: nat
    var recvLen: nat
    var connected: bool
    ghost var frames: seq<bytes>

    constructor (source: Source, sink: Sink, parses: bytes -> bool)
      requires source.consumed == [] && Bounded(LittleEndian, source.incoming, BUFFER_LENGTH)
      ensures this.source == source && this.sink == sink && this.parses == parses && Valid() && connected && frames == [] && fresh(buffer)
    {
      this.source, this.sink, this.parses := source, sink, parses;
      buffer := new byte[BUFFER_LENGTH];
      iter, recvLen, connected, frames := 0, 0, true, [];
      new;
      EmptyIsPartial(LittleEndian);
      assert Held() == [] && source.Stream() == source.incoming;
    }

    /** The part of the next frame that has been read: the length is kept apart from the payload. */
    ghost function Held(): bytes
      requires iter <= buffer.Length && recvLen < 0x1_0000_0000
      reads this, buffer
    {
      (if recvLen == 0 then [] else LittleEndianBytes(recvLen)) + buffer[..iter]
    }

    /**
     The bytes consumed from the stream split into the frames delivered and the bytes held.
     */
    ghost predicate Valid()
      reads this, source, buffer
    {
      && buffer.Length == BUFFER_LENGTH
      && (if recvLen == 0 then iter < HEADER else iter < recvLen <= BUFFER_LENGTH)
      && Split(LittleEndian, source.consumed) == (frames, Held())
      && Bounded(LittleEndian, source.Stream(), BUFFER_LENGTH)
    }

    /** The receiver's buffers are its own. */
    ghost predicate Separate() {
      source as object != this && source as object != buffer
    }

    method Disconnect()
      modifies `connected
      ensures !connected
    {
      connected := false;
    }

    /**
     `sendMessage`: puts the same frame on the wire as the base does.  False is the exception,
     after which the connection is given up; only a broken wire or an earlier end of the
     connection causes it.
     */
    method SendMessage(message: bytes) returns (ok: bool)
      requires |message| < 0x1_0000_0000
      modifies `connected, sink
      ensures ok == connected && (ok ==> old(connected) && sink.sent == old(sink.sent) + Encode(message))
      ensures old(sink.sent) <= sink.sent <= old(sink.sent) + Encode(message)
      ensures !old(connected) ==> sink.sent == old(sink.sent)
      ensures old(connected) && Break !in old(sink.script) ==> ok
      ensures forall e :: e in sink.script ==> e in old(sink.script)
    {
      if !connected {
        return false;
      }
      ok := sink.WriteFull(LittleEndianBytes(|message|));
      if ok {
        ok := sink.WriteFull(message);
        assert old(sink.sent) + LittleEndianBytes(|message|) + message == old(sink.sent) + Encode(message);
      }
      if !ok {
        Disconnect();
      }
    }

    /** Reads towards `want` bytes in the buffer; the bytes read are appended to those held. */
    method Fill(want: nat) returns (r: Count, ghost more: bytes)
      requires iter < want <= buffer.Length
      modifies `iter, source, buffer
      ensures iter == old(iter) + |more| <= want && buffer[..iter] == old(buffer[..iter]) + more
      ensures source.consumed == old(source.consumed) + more && source.Stream() == old(source.Stream())
      ensures r.Got? || (more == [] && !r.Interrupted?)
      ensures Flowing(old(source.script)) && old(source.script) != [] ==>
                && r.Got? && Flowing(source.script) && |source.script| == |old(source.script)| - 1
                && (old(source.incoming) != [] ==> more != [])
    {
      r, more := source.ReadRetrying(buffer, iter, want - iter);
      if r.Got? {
        iter := iter + r.n;
      }
    }

    /**
     `recvMessage`.  Whatever the calls below transfer, the frames delivered and the bytes
     held always make up exactly what was consumed, and a message is returned just when its
     last byte has arrived.
     */
    method RecvMessage() returns (r: Received)
      requires connected ==> Valid() && Separate()
      modifies this, source, buffer
      ensures !old(connected) ==> r == Disconnected
      ensures r == Disconnected <==> !connected
      ensures connected ==> Valid()
      ensures r == Nothing ==> frames == old(frames)
      ensures r.Message? ==> |r.payload| < 0x1_0000_0000 && frames == old(frames) + [Encode(r.payload)] && Held() == []
      ensures old(connected) && Flowing(old(source.script)) && |old(source.script)| >= 2 && (forall payload :: parses(payload)) ==>
                && connected && Flowing(source.script) && |source.script| >= |old(source.script)| - 2
                && |source.incoming| <= |old(source.incoming)| && (old(source.incoming) != [] ==> |source.incoming| < |old(source.incoming)|)
      ensures source.Stream() == old(source.Stream())
    {
      hide Bounded, Split, LittleEndianBytes, LittleEndianNumber;
      if !connected {
        return Disconnected;
      }
      if recvLen == 0 {
        var header, more := Fill(HEADER);
        if header.Failed? {
          Disconnect();
          return Disconnected;
        }
        assert old(Held()) == old(buffer[..iter]) && Held() == buffer[..iter] == old(Held()) + more;
        if header.WouldBlock? || iter < HEADER {
          SplitKeeps(LittleEndian, old(source.consumed), more);
          return Nothing;
        }
        TakeLength(old(source.consumed), more);
        if recvLen == 0 {
          return Message([]);
        }
      }
      r := ReadBody();
    }

    /** Takes the length from a complete header; a zero length is an empty message. */
    method TakeLength(ghost before: bytes, ghost more: bytes)
      requires buffer.Length == BUFFER_LENGTH && iter == HEADER && recvLen == 0
      requires source.consumed == before + more && Split(LittleEndian, before).0 == frames
      requires buffer[..HEADER] == Split(LittleEndian, before).1 + more
      requires Bounded(LittleEndian, source.Stream(), BUFFER_LENGTH)
      modifies `iter, `recvLen, `frames
      ensures Valid() && iter == 0
      ensures frames == if recvLen == 0 then old(frames) + [Encode([])] else old(frames)
    {
      ghost var header := buffer[..HEADER];
      iter := 0;
      recvLen := LittleEndianNumber(buffer[..HEADER]);
      LengthBytesUnique(header);
      assert header[..HEADER] == header;
      if recvLen == 0 {
        SplitCompletes(LittleEndian, before, more);
        assert Encode([]) == header;
        frames := frames + [header];
      } else {
        SplitKeeps(LittleEndian, before, more);
        BoundedHeld(LittleEndian, source.consumed, source.incoming, BUFFER_LENGTH);
      }
      assert Held() == if recvLen == 0 then [] else header;
    }

    /** Reads on until the payload is complete. */
    method ReadBody() returns (r: Received)
      requires connected && Valid() && Separate() && recvLen != 0
      modifies this, source, buffer
      ensures r == Disconnected <==> !connected
      ensures connected ==> Valid()
      ensures r == Nothing ==> frames == old(frames)
      ensures r.Message? ==> |r.payload| < 0x1_0000_0000 && frames == old(frames) + [Encode(r.payload)] && Held() == []
      ensures Flowing(old(source.script)) && |old(source.script)| >= 1 && (forall payload :: parses(payload)) ==>
                && connected && Flowing(source.script) && |source.script| >= |old(source.script)| - 1
                && |source.incoming| <= |old(source.incoming)| && (old(source.incoming) != [] ==> |source.incoming| < |old(source.incoming)|)
      ensures source.Stream() == old(source.Stream())
    {
      hide Bounded, Split, LittleEndianNumber;
      var body, more := Fill(recvLen);
      if body.Failed? {
        Disconnect();
        return Disconnected;
      }
      assert Held() == old(Held()) + more;
      HeaderOf(recvLen, buffer[..iter]);
      if body.WouldBlock? || iter != recvLen {
        SplitKeeps(LittleEndian, old(source.consumed), more);
        return Nothing;
      }
      var payload := buffer[..recvLen];
      if !parses(payload) {
        Disconnect();
        return Disconnected;
      }
      assert Encode(payload) == Held();
      SplitCompletes(LittleEndian, old(source.consumed), more);
      frames := frames + [Encode(payload)];
      iter, recvLen := 0, 0;
      assert Held() == [];
      return Message(payload);
    }
  }

  /** Messages that fit the receive buffer. */
  ghost predicate Short(messages: seq<bytes>) {
    forall i :: 0 <= i < |messages| ==> |messages[i]| <= BUFFER_LENGTH
  }

  ghost function Encoded(messages: seq<bytes>): (frames: seq<bytes>)
    requires Short(messages)
    ensures |frames| == |messages| && forall i :: 0 <= i < |frames| ==> frames[i] == Encode(messages[i])
  {
    seq(|messages|, i requires 0 <= i < |messages| => Encode(messages[i]))
  }

  /**
   Any run of the receiver, stated once: if what was consumed splits into `frames` and `held`,
   and the stream is what a sender put on the wire, of which `lost` may not have got through,
   then `frames` are the first messages sent, in order and once each, and they are all of
   them when nothing is lost or left to read.
   */
  lemma DeliveredIsPrefix(sent: seq<bytes>, consumed: bytes, incoming: bytes, lost: bytes)
    requires Short(sent) && consumed + incoming + lost == Join(Encoded(sent))
    ensures var (frames, held) := Split(LittleEndian, consumed);
            && frames <= Encoded(sent)
            && held + (incoming + lost) == Join(Encoded(sent)[|frames|..])
            && (incoming + lost == [] ==> frames == Encoded(sent) && held == [])
  {
    forall i | 0 <= i < |sent| ensures IsFrame(LittleEndian, Encode(sent[i])) {
      EncodeIsFrame(sent[i]);
    }
    assert consumed + (incoming + lost) == consumed + incoming + lost;
    SplitIsPrefix(LittleEndian, Encoded(sent), consumed, incoming + lost);
  }

  /** The stream of a sender with short messages meets the receiver's precondition. */
  lemma SentIsBounded(sent: seq<bytes>)
    requires Short(sent)
    ensures Bounded(LittleEndian, Join(Encoded(sent)), BUFFER_LENGTH)
  {
    forall i | 0 <= i < |sent| ensures IsFrame(LittleEndian, Encode(sent[i])) {
      EncodeIsFrame(sent[i]);
    }
    BoundedJoin(LittleEndian, Encoded(sent), BUFFER_LENGTH);
  }

  /**
   The base sends messages one after the other over a wire that may interrupt, block and split its
   writes.  Where it breaks, what got through is still the beginning of the messages.
   */
  method SendAll(messages: seq<bytes>, script: seq<Event>) returns (stream: bytes, ok: bool)
    requires Short(messages)
    ensures Break !in script ==> ok
    ensures stream <= Join(Encoded(messages)) && (ok ==> stream == Join(Encoded(messages)))
  {
    var sink := new Sink(script);
    var i := 0;
    ok := true;
    while i < |messages| && ok
      invariant 0 <= i <= |messages| && fresh(sink)
      invariant (forall e :: e in sink.script ==> e in script) && (Break !in script ==> ok)
      invariant sink.sent <= Join(Encoded(messages)[..i]) && (ok ==> sink.sent == Join(Encoded(messages)[..i]))
    {
      ok := BaseSendMessage(sink, messages[i]);
      JoinAppend(Encoded(messages)[..i], Encode(messages[i]));
      assert Encoded(messages)[..i+1] == Encoded(messages)[..i] + [Encode(messages[i])];
      i := i + 1;
    }
    JoinConcat(Encoded(messages), i);
    assert Encoded(messages)[..|messages|] == Encoded(messages);
    return sink.sent, ok;
  }

  /** The next message delivered is the next one sent. */
  lemma NextDelivered(sent: seq<bytes>, received: seq<bytes>, payload: bytes, consumed: bytes, incoming: bytes, lost: bytes)
    requires Short(sent) && consumed + incoming + lost == Join(Encoded(sent)) && received <= sent
    requires |payload| < 0x1_0000_0000 && Split(LittleEndian, consumed).0 == Encoded(received) + [Encode(payload)]
    ensures received + [payload] <= sent
  {
    DeliveredIsPrefix(sent, consumed, incoming, lost);
    var k := |received|;
    assert Split(LittleEndian, consumed).0[k] == Encode(payload) == Encode(sent[k]);
    EncodeIsFrame(payload);
    EncodeIsFrame(sent[k]);
  }

  /** Reads that transfer something, two for each call, and a call for each byte, suffice. */
  ghost predicate Enough(script: seq<Event>, incoming: bytes, parses: bytes -> bool, calls: nat) {
    Flowing(script) && |script| >= 2 * calls && |incoming| <= calls && forall payload :: parses(payload)
  }

  /**
   Calls `recvMessage` a number of times on a new connection over the stream of a sender, the
   end of which may be lost.  For every script the messages received are a prefix of those
   sent, and all of them once everything has got through and been read.
   */
  method ReceiveAll(io: IO, ghost sent: seq<bytes>, calls: nat, ghost lost: bytes) returns (received: seq<bytes>)
    requires io.connected && io.Valid() && io.Separate() && io.frames == []
    requires Short(sent) && io.source.Stream() + lost == Join(Encoded(sent))
    modifies io, io.source, io.buffer
    ensures received <= sent
    ensures io.connected && io.source.incoming == [] && lost == [] ==> received == sent
    ensures old(Enough(io.source.script, io.source.incoming, io.parses, calls)) && lost == [] ==> received == sent
  {
    hide Bounded, Split, Join, Encode;
    received := [];
    ghost var enough := Enough(io.source.script, io.source.incoming, io.parses, calls);
    var call := 0;
    while call < calls && io.connected
      invariant io.source.Stream() + lost == Join(Encoded(sent)) && Short(received) && received <= sent
      invariant io.connected ==> io.Valid() && io.frames == Encoded(received)
      invariant call <= calls && (enough ==> io.connected && Enough(io.source.script, io.source.incoming, io.parses, calls - call))
    {
      var r := io.RecvMessage();
      if r.Message? {
        NextDelivered(sent, received, r.payload, io.source.consumed, io.source.incoming, lost);
        received := received + [r.payload];
      }
      call := call + 1;
    }
    if io.connected {
      DeliveredIsPrefix(sent, io.source.consumed, io.source.incoming, lost);
    }
  }

  /**
   The base and the drone joined by a stream: whatever the two scripts do, breaking the
   connection included, no message is lost before another that arrives, altered or repeated.
   */
  method Converse(messages: seq<bytes>, sending: seq<Event>, receiving: seq<Event>, parses: bytes -> bool, calls: nat)
    returns (received: seq<bytes>)
    requires Short(messages)
    ensures received <= messages
    ensures Break !in sending && Enough(receiving, Join(Encoded(messages)), parses, calls) ==> received == messages
  {
    var stream, ok := SendAll(messages, sending);
    SentIsBounded(messages);
    ghost var all := Join(Encoded(messages));
    ghost var lost := all[|stream|..];
    assert stream + lost == all;
    BoundedPrefix(LittleEndian, stream, lost, BUFFER_LENGTH);
    var source := new Source(stream, receiving);
    var sink := new Sink([]);
    var io := new IO(source, sink, parses);
    assert io.source.Stream() == stream;
    received := ReceiveAll(io, messages, calls, lost);
  }
}
