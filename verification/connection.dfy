/** The reading half of a connection: bytes arrive in pieces, whole messages are dispatched. */
module Connections {
  import opened Messages

  /** The read in progress; after a refused header no read follows. */
  datatype Reading = ReadHead | ReadBody | Refused

  method Copy(buffer: array<Byte>, start: nat, bytes: seq<Byte>)
    requires start + |bytes| <= buffer.Length
    modifies buffer
    ensures buffer[..start + |bytes|] == old(buffer[..start]) + bytes
  {
    forall i | 0 <= i < |bytes| {
      buffer[start + i] := bytes[i];
    }
  }

  lemma SlicesJoin(before: seq<Byte>, chunk: seq<Byte>, i: nat, n: nat)
    requires i + n <= |chunk|
    ensures before + chunk[..i] + chunk[i..][..n] == before + chunk[..i + n]
    ensures i + n == |chunk| ==> before + chunk[..i] + chunk[i..] == before + chunk
  {
  }

  lemma BytesJoin(a: seq<Byte>, b: seq<Byte>, c: seq<Byte>)
    ensures (a + (b + [])) + c == a + ((b + c) + [])
  {
  }

  class Connection {
    const message: Message
    var open: bool
    var reading: Reading
    /** How much of the current read has arrived. */
    var filled: nat
    /** What went to the dispatcher. */
    var dispatched: seq<Frame>
    /** Everything the peer sent while the connection was open. */
    ghost var stream: seq<Byte>
    /** The part of it that stays on the socket after a refusal. */
    ghost var unread: seq<Byte>

    constructor ()
      ensures Valid() && fresh(message) && fresh(message.buffer)
      ensures open && dispatched == [] && stream == []
    {
      message := new Message();
      open := true;
      reading := ReadHead;
      filled := 0;
      dispatched := [];
      stream := [];
      unread := [];
    }

    /** Where the current read puts its bytes, and how many it wants. */
    function Start(): nat
      reads this
    {
      if reading == ReadBody then HEADER_LENGTH else 0
    }

    function Wanted(): nat
      reads this, message
    {
      if reading == ReadBody then message.bodyLength else HEADER_LENGTH
    }

    /** The bytes of the message being read. */
    ghost function Partial(): seq<Byte>
      requires message.Valid() && Start() + filled <= MAX_DATA_LEN
      reads this, message, message.buffer
    {
      message.buffer[..Start() + filled]
    }

    /** The read in progress has bytes, perhaps all of them, and no byte of the stream is lost. */
    ghost predicate Reads()
      reads this, message, message.buffer
    {
      && message.Valid()
      && filled <= Wanted()
      && (forall i | 0 <= i < |dispatched| :: Fits(dispatched[i]))
      && stream == Wires(dispatched) + (Partial() + unread)
      && (reading == ReadBody ==> message.Encoded() && message.header.length == message.bodyLength)
      && (reading != Refused ==> unread == [])
    }

    ghost predicate Valid()
      reads this, message, message.buffer
    {
      && Reads()
      && (reading != Refused ==> filled < Wanted())
      && (reading == Refused ==> filled == HEADER_LENGTH && Oversize(Partial()))
    }

    /** As many bytes as the current read still wants go into the buffer. */
    method Fill(chunk: seq<Byte>) returns (n: nat)
      requires Valid() && reading != Refused
      modifies this`filled, this`stream, message.buffer
      ensures Reads()
      ensures n == (if |chunk| < Wanted() - old(filled) then |chunk| else Wanted() - old(filled))
      ensures filled == old(filled) + n && stream == old(stream) + chunk[..n]
    {
      n := if |chunk| < Wanted() - filled then |chunk| else Wanted() - filled;
      ghost var before := Partial();
      Store(chunk[..n]);
      stream := stream + chunk[..n];
      BytesJoin(Wires(dispatched), before, chunk[..n]);
    }

    /** Puts bytes behind those already there. */
    method Store(bytes: seq<Byte>)
      requires message.Valid() && filled + |bytes| <= Wanted()
      modifies this`filled, message.buffer
      ensures message.Valid() && filled == old(filled) + |bytes| && Partial() == old(Partial()) + bytes
      ensures reading == ReadBody ==> message.buffer[..HEADER_LENGTH] == old(message.buffer[..HEADER_LENGTH])
    {
      ghost var before := Partial();
      Copy(message.buffer, Start() + filled, bytes);
      filled := filled + |bytes|;
      if reading == ReadBody {
        assert message.buffer[..HEADER_LENGTH] == Partial()[..HEADER_LENGTH] == before[..HEADER_LENGTH];
      }
    }

    /**
     * A whole header has arrived: it is refused if it announces more than the buffer holds; otherwise
     * its body is read next, or an empty body is dispatched at once.
     */
    method OnReadHead()
      requires Reads() && reading == ReadHead && filled == HEADER_LENGTH
      modifies this`reading, this`filled, this`dispatched, message
      ensures Valid() && message.header == HeaderOf(old(Partial()))
      ensures reading == Refused <==> message.header.length + HEADER_LENGTH > MAX_DATA_LEN
      ensures reading == ReadBody ==> filled == 0 && Wanted() == message.header.length > 0
      ensures reading == ReadHead ==> filled == 0 && message.header.length == 0
      ensures dispatched == old(dispatched) + if reading == ReadHead then [Frame(message.header, [])] else []
    {
      ghost var head := Partial();
      assert head == message.buffer[..HEADER_LENGTH];
      var ok := message.ParseHeader();
      if !ok {
        reading := Refused;
        assert Partial() == head;
        return;
      }
      AwaitBody();
      if message.bodyLength == 0 {
        assert message.Body() == [];
        OnReadBody();
      }
    }

    /** An accepted header turns the read towards its body. */
    method AwaitBody()
      requires Reads() && reading == ReadHead && filled == HEADER_LENGTH
      requires message.Encoded() && message.header.length == message.bodyLength
      modifies this`reading, this`filled
      ensures Reads() && reading == ReadBody && filled == 0
    {
      ghost var head := Partial();
      reading := ReadBody;
      filled := 0;
      assert Partial() == head;
    }

    /** A whole body has arrived: the message is dispatched and the next header awaited. */
    method OnReadBody()
      requires Reads() && reading == ReadBody && filled == message.bodyLength
      modifies this`reading, this`filled, this`dispatched
      ensures Valid() && reading == ReadHead && filled == 0
      ensures dispatched == old(dispatched) + [Frame(message.header, message.Body())]
    {
      var f := Frame(message.header, message.buffer[HEADER_LENGTH..HEADER_LENGTH + message.bodyLength]);
      ghost var sent := dispatched;
      assert Partial() == FrameBytes(f);
      WiresAppend(sent, [f]);
      WiresFirst(f, []);
      dispatched := dispatched + [f];
      reading := ReadHead;
      filled := 0;
    }

    /** Whatever the pieces were, what has been dispatched is what the stream means. */
    lemma Meaning()
      requires Valid()
      ensures dispatched == Deframe(stream).frames
      ensures reading == Refused <==> Oversize(Deframe(stream).rest)
    {
      if reading == Refused {
        OversizeStays(Partial(), unread);
      } else {
        assert Partial() + unread == Partial();
        StillIncomplete();
      }
      OneReading(dispatched, Partial() + unread);
    }

    lemma StillIncomplete()
      requires Valid() && reading != Refused
      ensures Incomplete(Partial()) && !Oversize(Partial())
    {
      if reading == ReadBody {
        assert Partial()[..HEADER_LENGTH] == message.buffer[..HEADER_LENGTH];
        HeaderRoundTrip(message.header);
      }
    }

    /** Takes what the current read wants from the piece, and completes the read if that is all. */
    method Take(chunk: seq<Byte>) returns (n: nat)
      requires Valid() && reading != Refused
      modifies this`reading, this`filled, this`dispatched, this`stream, message, message.buffer
      ensures Valid()
      ensures n <= |chunk| && (chunk != [] ==> n > 0)
      ensures stream == old(stream) + chunk[..n]
    {
      n := Fill(chunk);
      if filled == Wanted() {
        if reading == ReadHead {
          OnReadHead();
        } else {
          OnReadBody();
        }
      }
    }

    /** Reads follow one another while there are bytes and no header is refused. */
    method TakeAll(chunk: seq<Byte>)
      requires Valid()
      modifies this`reading, this`filled, this`dispatched, this`stream, this`unread, message, message.buffer
      ensures Valid() && stream == old(stream) + chunk
    {
      var i := 0;
      while i < |chunk| && reading != Refused
        invariant i <= |chunk| && Valid()
        invariant stream == old(stream) + chunk[..i]
        decreases |chunk| - i
      {
        var n := Take(chunk[i..]);
        SlicesJoin(old(stream), chunk, i, n);
        i := i + n;
      }
      LeaveUnread(chunk[i..]);
      SlicesJoin(old(stream), chunk, i, |chunk| - i);
    }

    /** Bytes arrive, in a piece of any size. */
    method Receive(chunk: seq<Byte>)
      requires Valid()
      modifies this`reading, this`filled, this`dispatched, this`stream, this`unread, message, message.buffer
      ensures Valid()
      ensures stream == if open then old(stream) + chunk else old(stream)
      ensures dispatched == Deframe(stream).frames
    {
      if open {
        TakeAll(chunk);
      }
      Meaning();
    }

    ghost method LeaveUnread(bytes: seq<Byte>)
      requires Valid() && (bytes == [] || reading == Refused)
      modifies this`stream, this`unread
      ensures Valid() && stream == old(stream) + bytes
    {
      stream := stream + bytes;
      unread := unread + bytes;
    }

    /** A read fails, or the peer is gone: the connection closes. */
    method OnError()
      requires Valid()
      modifies this`open
      ensures Valid() && !open
    {
      open := false;
    }
  }
}
