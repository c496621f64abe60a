/** Two ends of one connection and the bytes in flight between them. */
module Links {
  import opened Framing
  import opened Connections

  /** What has been emitted at any moment is the front of the reference reading. */
  lemma EmittedIsFront(received: Bytes, cut: nat, emitted: seq<Bytes>, buffered: Bytes)
    requires CutAt(received, cut, emitted, buffered)
    ensures emitted <= Parse(received).frames
  {
    ParseEncoded(emitted, []);
    assert Encode(emitted) + [] == Encode(emitted);
    ParseAppend(received[..cut], buffered);
    assert received == received[..cut] + buffered;
  }

  class Link {
    const sender: Sender
    const receiver: Receiver

    ghost predicate Valid()
      reads sender, receiver, sender.buf, receiver.buf, sender.buf.data, receiver.buf.data
    {
      && sender.Valid() && receiver.Valid()
      && sender.buf != receiver.buf && sender.buf.data != receiver.buf.data
      && |receiver.received| <= sender.bytesOut
      && receiver.received == sender.stream[..|receiver.received|]
    }

    /** Bytes the sending kernel has taken that the receiver has not seen yet. */
    ghost function Wire(): Bytes
      requires Valid()
      reads sender, receiver, sender.buf, receiver.buf, sender.buf.data, receiver.buf.data
    {
      sender.stream[|receiver.received|..sender.bytesOut]
    }

    constructor (sendCapacity: nat, recvCapacity: nat)
      ensures Valid() && receiver.open && |sender.accepted| == 0 && |receiver.emitted| == 0
      ensures sender.buf.capacity == sendCapacity && receiver.buf.capacity == recvCapacity
    {
      sender := new Sender(sendCapacity);
      receiver := new Receiver(recvCapacity);
    }

    method SendStep(payload: Bytes) returns (r: SendResult)
      requires Valid()
      modifies sender, sender.buf, sender.buf.data
      ensures Valid()
      ensures sender.accepted == old(sender.accepted) + (if r == Ok && payload != [] then [payload] else [])
    {
      r := sender.Send(payload);
    }

    method DrainStep(script: seq<SendOutcome>) returns (drained: bool)
      requires Valid()
      modifies sender, sender.buf
      ensures Valid()
      ensures sender.accepted == old(sender.accepted)
      ensures drained <==> sender.buf.size == 0
    {
      ghost var taken;
      drained, taken := sender.DrainSend(script);
    }

    /** The receiving side polls; the kernel delivers a front part of the wire in any chunks. */
    method RecvStep(script: seq<RecvOutcome>) returns (end: RecvEnd)
      requires Valid() && receiver.open && PendingBytes(script) <= Wire()
      modifies receiver, receiver.buf, receiver.buf.data
      ensures Valid()
      ensures end == FramingError ==> receiver.Stuck()
    {
      ghost var before := receiver.received;
      var rest;
      ghost var rooms;
      end, rest, rooms := receiver.ProcessRecv(script);
      FrontOfStream(sender.stream, sender.bytesOut, before, PendingBytes(script), receiver.received);
    }

    static lemma FrontOfStream(stream: Bytes, bytesOut: nat, before: Bytes, pending: Bytes, after: Bytes)
      requires |before| <= bytesOut <= |stream| && before == stream[..|before|]
      requires pending <= stream[|before|..bytesOut]
      requires after <= before + pending
      ensures |after| <= bytesOut && after == stream[..|after|]
    {
      assert before + pending == stream[..|before| + |pending|];
    }

    /**
     In every reachable state the messages received are the first messages accepted, in order; an
     open receiver with empty buffers and an empty wire in front of it has received them all.
     */
    lemma DeliveredInOrder()
      requires Valid()
      ensures receiver.emitted <= sender.accepted
      ensures receiver.open && Wire() == [] && sender.buf.size == 0 ==> receiver.emitted == sender.accepted
    {
      var received := receiver.received;
      PrefixOfEncoded(received, sender.accepted, receiver.buf.capacity);
      EmittedIsFront(received, receiver.cut, receiver.emitted, receiver.buffered);
      if receiver.open && Wire() == [] && sender.buf.size == 0 {
        assert received == sender.stream;
        receiver.ValidMeansRead();
      }
    }

    /** If every accepted message fits the receiver's ring, a poll never ends in a framing error. */
    lemma FittingTrafficNeverSticks()
      requires Valid() && FramesFit(sender.accepted, receiver.buf.capacity) && receiver.buf.capacity > 0
      ensures !receiver.Stuck()
    {
      PrefixOfEncoded(receiver.received, sender.accepted, receiver.buf.capacity);
      if receiver.Stuck() {
        receiver.StuckMeansUnreadable();
      }
    }
  }
}
