/**
 The two ends of a byte stream as the system calls present them.  A script, which may be any
 sequence of events, decides how much each call transfers and when it is interrupted or
 would block, so what is proved holds for every splitting of the stream.
 */
module Wire {
  import opened Frames

  datatype Event = Transfer(n: nat) | Interrupt | Block | Break

  /** The result of `read` or `write`: a count, EINTR, EAGAIN or another error. */
  datatype Count = Got(n: nat) | Interrupted | WouldBlock | Failed

  function Min(a: nat, b: nat): nat {
    if a < b then a else b
  }

  /** The result of writing `n` bytes under a script.  Without further events everything is taken. */
  function Outcome(script: seq<Event>, n: nat): Count {
    if script == [] then Got(n)
    else
      match script[0]
      case Transfer(want) => Got(Min(want, n))
      case Interrupt => Interrupted
      case Block => WouldBlock
      case Break => Failed
  }

  /** The script after one event. */
  function Rest(script: seq<Event>): (r: seq<Event>)
    ensures forall e :: e in r ==> e in script
  {
    if script == [] then [] else script[1..]
  }

  /** No interruption or error, though a transfer may be partial or empty. */
  ghost predicate Transferring(script: seq<Event>) {
    forall e :: e in script ==> e.Transfer?
  }

  /** Nothing but transfers, each of at least one byte. */
  ghost predicate Flowing(script: seq<Event>) {
    forall e :: e in script ==> e.Transfer? && e.n > 0
  }

  lemma TakeMore(data: bytes, k: nat, n: nat)
    requires k + n <= |data|
    ensures data[..k] + data[k..][..n] == data[..k+n]
  {
    assert data[k..][..n] == data[k..k+n];
  }

  class Source {
    var script: seq<Event>
    /** Bytes that have not been read. */
    var incoming: bytes
    ghost var consumed: bytes

    constructor (stream: bytes, script: seq<Event>)
      ensures incoming == stream && consumed == [] && this.script == script
    {
      this.script, incoming, consumed := script, stream, [];
    }

    /** All bytes of the stream, read or not. */
    ghost function Stream(): bytes
      reads this
    {
      consumed + incoming
    }

    /**
     `read`: up to `n` bytes, at `offset` of the buffer; `more` are the bytes transferred.
     Without further events it would block.
     */
    method Read(buffer: array<byte>, offset: nat, n: nat) returns (r: Count, ghost more: bytes)
      requires offset + n <= buffer.Length
      modifies this, buffer
      ensures if r.Got? then |more| == r.n <= n else more == []
      ensures buffer[..offset+|more|] == old(buffer[..offset]) + more
      ensures consumed == old(consumed) + more && Stream() == old(Stream())
      ensures Flowing(old(script)) && old(script) != [] ==>
                && r.Got? && Flowing(script) && |script| == |old(script)| - 1
                && (n > 0 && old(incoming) != [] ==> more != [])
      ensures r.Interrupted? ==> |script| < |old(script)|
    {
      r, more := WouldBlock, [];
      if script != [] {
        var event := script[0];
        assert event in script;
        script := script[1..];
        match event {
          case Interrupt => r := Interrupted;
          case Block =>
          case Break => r := Failed;
          case Transfer(want) =>
            var k := Min(want, Min(n, |incoming|));
            more := incoming[..k];
            forall i | 0 <= i < k {
              buffer[offset+i] := incoming[i];
            }
            assert incoming == more + incoming[k..];
            assert consumed + (more + incoming[k..]) == (consumed + more) + incoming[k..];
            consumed, incoming := consumed + more, incoming[k..];
            r := Got(k);
        }
      }
    }

    /** `read`, tried again while it is interrupted. */
    method ReadRetrying(buffer: array<byte>, offset: nat, n: nat) returns (r: Count, ghost more: bytes)
      requires offset + n <= buffer.Length
      modifies this, buffer
      ensures if r.Got? then |more| == r.n <= n else more == []
      ensures buffer[..offset+|more|] == old(buffer[..offset]) + more
      ensures consumed == old(consumed) + more && Stream() == old(Stream())
      ensures Flowing(old(script)) && old(script) != [] ==>
                && r.Got? && Flowing(script) && |script| == |old(script)| - 1
                && (n > 0 && old(incoming) != [] ==> more != [])
      ensures !r.Interrupted?
    {
      more := [];
      while true
        invariant buffer[..offset] == old(buffer[..offset]) && Stream() == old(Stream()) && consumed == old(consumed)
        invariant Flowing(old(script)) && old(script) != [] ==> script == old(script) && incoming == old(incoming)
        decreases |script|
      {
        r, more := Read(buffer, offset, n);
        if !r.Interrupted? {
          break;
        }
      }
    }
  }

  class Sink {
    var script: seq<Event>
    var sent: bytes

    constructor (script: seq<Event>)
      ensures sent == [] && this.script == script
    {
      this.script, sent := script, [];
    }

    /** `write`: takes a prefix of `data`. */
    method Write(data: bytes) returns (r: Count)
      modifies this
      ensures r == Outcome(old(script), |data|) && script == Rest(old(script))
      ensures r.Got? ==> r.n <= |data| && sent == old(sent) + data[..r.n]
      ensures !r.Got? ==> sent == old(sent)
      ensures match r case Got(_) => true case Interrupted => Interrupt in old(script)
              case WouldBlock => Block in old(script) case Failed => Break in old(script)
      ensures r != Got(|data|) ==> |script| < |old(script)|
    {
      r := Outcome(script, |data|);
      script := Rest(script);
      if r.Got? {
        sent := sent + data[..r.n];
      }
    }

    /**
     The `writeFull` loop of the drone: interrupted and blocked writes are tried again,
     partial ones continued.  It succeeds only with everything sent.
     */
    method WriteFull(data: bytes) returns (ok: bool)
      modifies this
      ensures ok ==> sent == old(sent) + data
      ensures Break !in old(script) ==> ok
      ensures forall e :: e in script ==> e in old(script)
      ensures old(sent) <= sent <= old(sent) + data
    {
      var total := 0;
      while true
        invariant total <= |data| && sent == old(sent) + data[..total]
        invariant forall e :: e in script ==> e in old(script)
        decreases |data| - total, |script|
      {
        var ret := Write(data[total..]);
        if ret.Failed? {
          return false;
        }
        if ret.Got? {
          TakeMore(data, total, ret.n);
          total := total + ret.n;
          if total == |data| {
            break;
          }
        }
      }
      return true;
    }

    /** `Serial::writeFull`: interrupted writes are tried again, but one that would block throws. */
    method SerialWriteFull(data: bytes) returns (ok: bool)
      modifies this
      ensures ok ==> sent == old(sent) + data
      ensures Break !in old(script) && Block !in old(script) ==> ok
      ensures forall e :: e in script ==> e in old(script)
      ensures old(sent) <= sent <= old(sent) + data
    {
      var total := 0;
      while true
        invariant total <= |data| && sent == old(sent) + data[..total]
        invariant forall e :: e in script ==> e in old(script)
        decreases |data| - total, |script|
      {
        var ret := Write(data[total..]);
        if ret.Failed? || ret.WouldBlock? {
          return false;
        }
        if ret.Got? {
          TakeMore(data, total, ret.n);
          total := total + ret.n;
          if total == |data| {
            break;
          }
        }
      }
      return true;
    }

    /**
     `Write` of a Go connection, which tries interrupted and blocked writes again and continues
     partial ones: it writes everything or returns an error.
     */
    method ConnWrite(data: bytes) returns (n: nat, ok: bool)
      modifies this
      ensures n <= |data| && (ok <==> n == |data|) && sent == old(sent) + data[..n]
      ensures Break !in old(script) ==> ok
      ensures forall e :: e in script ==> e in old(script)
    {
      n := 0;
      while n < |data|
        invariant n <= |data| && sent == old(sent) + data[..n]
        invariant forall e :: e in script ==> e in old(script)
        decreases |data| - n, |script|
      {
        var ret := Write(data[n..]);
        if ret.Failed? {
          return n, false;
        }
        if ret.Got? {
          assert data[..n] + data[n..][..ret.n] == data[..n+ret.n];
          n := n + ret.n;
        }
      }
      return n, true;
    }

    /**
     The base's `writeFull`, which shortens its buffer.  Its counter is shadowed inside the
     loop and stays zero; the loop ends when the buffer is empty.
     */
    method BaseWriteFull(data: bytes) returns (ok: bool)
      modifies this
      ensures ok ==> sent == old(sent) + data
      ensures Break !in old(script) ==> ok
      ensures forall e :: e in script ==> e in old(script)
      ensures old(sent) <= sent <= old(sent) + data
    {
      var n := 0;
      var buf := data;
      while n != |buf|
        invariant n == 0 && |buf| <= |data| && sent == old(sent) + data[..|data|-|buf|] && buf == data[|data|-|buf|..]
        invariant forall e :: e in script ==> e in old(script)
        decreases |buf|
      {
        var written, ok := ConnWrite(buf);
        ghost var done := |data| - |buf|;
        assert data[..done] + buf[..written] == data[..done+written];
        if !ok {
          return false;
        }
        buf := buf[written..];
      }
      assert data[..|data|] == data;
      return true;
    }
  }
}
