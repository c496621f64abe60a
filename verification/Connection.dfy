/**
 The two halves of one connection: framing into the send ring and draining it to the kernel, and
 receiving from the kernel into the ring and cutting whole frames out of it.
 The kernel appears as a script of outcomes, so every split into chunks is some script.
 */
module Connections {
  import opened Basics
  import opened Options
  import opened RingBuffers
  import opened Framing

  datatype ConnState = Open | Closing | Closed

  datatype CloseReason = Graceful | PeerClosed | Error | Timeout | Rejected

  datatype SendResult = Ok | PayloadTooLarge | NotOpen | Busy

  /** One send() call: the kernel takes up to `n` bytes, or refuses. */
  datatype SendOutcome = Took(n: nat) | SendWouldBlock | SendFailed

  /** One recv() call; an empty chunk is the end of the stream. */
  datatype RecvOutcome = Chunk(data: Bytes) | RecvWouldBlock | RecvFailed

  /** What the k-th send() call takes of a region of n bytes. */
  function Taken(script: seq<SendOutcome>, k: nat, n: nat): nat {
    if k < |script| && script[k].Took? then Min(script[k].n, n) else 0
  }

  /**
   How many bytes one round of draining puts on the wire, when `first` bytes are stored up to the end
   of the ring and `second` behind the wrap: the second call comes only after a full first one.
   */
  function Sent(script: seq<SendOutcome>, first: nat, second: nat): (n: nat)
    ensures n <= first + second
  {
    Taken(script, 0, first) + if Taken(script, 0, first) == first then Taken(script, 1, second) else 0
  }

  /** Does the k-th send() call take all of a region of n bytes? */
  predicate TakesAll(script: seq<SendOutcome>, k: nat, n: nat) {
    n == 0 || (k < |script| && script[k].Took? && script[k].n >= n)
  }

  /** Everything goes out exactly if the kernel takes both parts whole, each in one call. */
  lemma AllSentIff(script: seq<SendOutcome>, first: nat, second: nat)
    ensures Sent(script, first, second) == first + second
            <==> TakesAll(script, 0, first) && TakesAll(script, 1, second)
  {
  }

  /** Only an empty queue goes out whatever the kernel does. */
  lemma AlwaysSentIffEmpty(first: nat, second: nat)
    ensures (forall script :: Sent(script, first, second) == first + second) <==> first + second == 0
  {
    assert Sent([], first, second) == 0;
  }

  lemma NothingQueued(script: seq<SendOutcome>)
    ensures Sent(script, 0, 0) == 0
  {
  }

  /** A full first call leaves the part behind the wrap to the next one; any other ends the round. */
  lemma RoundStep(script: seq<SendOutcome>, first: nat, second: nat)
    requires first > 0
    ensures Taken(script, 0, first) == first ==>
              script != [] && Sent(script, first, second) == first + Sent(script[1..], second, 0)
    ensures Taken(script, 0, first) != first ==> Sent(script, first, second) == Taken(script, 0, first)
  {
  }

  /** Header and payload behind the queued bytes are the frame behind the unsent stream. */
  lemma QueueFrame(ps: seq<Bytes>, stream: Bytes, bytesOut: nat, queued: Bytes, p: Bytes)
    requires AllSendable(ps) && Sendable(p) && stream == Encode(ps)
    requires bytesOut <= |stream| && queued == stream[bytesOut..]
    ensures AllSendable(ps + [p]) && stream + Frame(p) == Encode(ps + [p])
    ensures (queued + BigEndian(|p|)) + p == (stream + Frame(p))[bytesOut..]
  {
    EncodeOneMore(ps, p);
  }

  lemma DropAppend(a: Bytes, n: nat, b: Bytes)
    requires n <= |a|
    ensures (a + b)[n..] == a[n..] + b
  {
  }

  lemma Slices(a: Bytes, from: nat, n: nat, region: Bytes)
    requires from <= |a| && region <= a[from..] && n <= |region|
    ensures a[from..][n..] == a[from + n..]
    ensures region[..n] == a[from..from + n]
  {
    assert a[from..][..n] == a[from..from + n];
    assert region[..n] == a[from..][..|region|][..n];
  }

  /** `data` is the next piece of `total`. */
  lemma NextPiece(total: Bytes, at: nat, data: Bytes, later: Bytes)
    requires at <= |total| && total[at..] == data + later
    ensures at + |data| <= |total| && total[..at + |data|] == total[..at] + data
    ensures later == total[at + |data|..]
  {
    assert total == total[..at] + (data + later);
  }

  class Sender {
    const buf: RingBuffer
    var state: ConnState
    var closeReason: CloseReason
    var finSent: bool
    var packetsOut: nat
    var bytesOut: nat
    var errors: nat
    ghost var accepted: seq<Bytes>    // every payload that was queued, in order
    ghost var stream: Bytes           // those payloads as frames; the kernel has the first bytesOut

    ghost predicate Valid()
      reads this, buf, buf.data
    {
      && buf.Valid()
      && AllSendable(accepted)
      && stream == Encode(accepted)
      && bytesOut <= |stream| && buf.Contents() == stream[bytesOut..]
      && packetsOut == |accepted|
    }

    constructor (capacity: nat)
      ensures Valid() && state == Open && closeReason == Graceful && accepted == [] && stream == [] && bytesOut == 0
      ensures fresh(buf) && fresh(buf.data) && buf.capacity == capacity
    {
      buf := new RingBuffer(capacity);
      state, closeReason, finSent := Open, Graceful, false;
      packetsOut, bytesOut, errors := 0, 0, 0;
      accepted, stream := [], [];
    }

    /** Queues one message as a frame, or refuses it without adding a byte. */
    method Send(payload: Bytes) returns (r: SendResult)
      requires Valid()
      modifies this`packetsOut, this`accepted, this`stream, buf, buf.data
      ensures Valid() && (buf.data == old(buf.data) || fresh(buf.data))
      ensures r == if payload == [] then Ok
                   else if !Sendable(payload) then PayloadTooLarge
                   else if state != Open then NotOpen
                   else if old(buf.Free()) < PREFIX_BYTES + |payload| then Busy
                   else Ok
      ensures r == Ok && payload != [] ==>
                accepted == old(accepted) + [payload] && stream == old(stream) + Frame(payload)
      ensures r != Ok || payload == [] ==>
                accepted == old(accepted) && stream == old(stream) && buf.Contents() == old(buf.Contents())
      ensures r != Ok || payload == [] ==> unchanged(this) && unchanged(buf) && unchanged(buf.data)
    {
      if payload == [] {
        return Ok;
      }
      if |payload| > MAX_PAYLOAD_BYTES {
        return PayloadTooLarge;
      }
      if state != Open {
        return NotOpen;
      }
      if buf.Free() < PREFIX_BYTES + |payload| {
        return Busy;
      }
      Enqueue(payload);
      return Ok;
    }

    /** Header and payload go into the ring; the free space was checked before. */
    method Enqueue(payload: Bytes)
      requires Valid() && payload != [] && Sendable(payload) && PREFIX_BYTES + |payload| <= buf.Free()
      modifies this`packetsOut, this`accepted, this`stream, buf, buf.data
      ensures Valid() && (buf.data == old(buf.data) || fresh(buf.data))
      ensures accepted == old(accepted) + [payload] && stream == old(stream) + Frame(payload)
    {
      hide AllSendable, Encode, Wrap, Span;
      QueueFrame(accepted, stream, bytesOut, buf.Contents(), payload);
      var header := BigEndian(|payload|);
      var wroteHeader := buf.Write(header);
      var wrotePayload := buf.Write(payload);
      accepted, stream := accepted + [payload], stream + Frame(payload);
      packetsOut := packetsOut + 1;
    }

    /** Only the first request counts; later ones keep the first reason. */
    method Close(reason: CloseReason)
      modifies this`state, this`closeReason
      ensures old(state) == Open ==> state == Closing && closeReason == reason
      ensures old(state) != Open ==> state == old(state) && closeReason == old(closeReason)
    {
      if state == Open {
        state, closeReason := Closing, reason;
      }
    }

    /** What the kernel takes of `region` next. */
    static method SendOnce(script: seq<SendOutcome>, region: Bytes)
      returns (n: int, rest: seq<SendOutcome>)
      requires region != []
      ensures -1 <= n <= |region|
      ensures script == [] ==> n == -1 && rest == []
      ensures script != [] ==> rest == script[1..]
      ensures script != [] ==> n == if script[0].Took? then Min(script[0].n, |region|) else -1
    {
      if script == [] {
        return -1, [];
      }
      rest := script[1..];
      match script[0] {
        case Took(k) => n := Min(k, |region|);
        case _ => n := -1;
      }
    }

    /** Hands one region to the kernel; true when the kernel took all of it. */
    method DrainRegion(script: seq<SendOutcome>, region: Bytes)
      returns (all: bool, taken: Bytes, rest: seq<SendOutcome>)
      requires Valid() && region != [] && region <= buf.Contents()
      modifies this`bytesOut, this`errors, buf`readOff, buf`size
      ensures Valid() && bytesOut == old(bytesOut) + |taken|
      ensures taken == stream[old(bytesOut)..bytesOut]
      ensures |taken| <= |region| && (all <==> |taken| == |region|)
      ensures buf.readOff == Wrap(buf.capacity, old(buf.readOff) + |taken|) && buf.size == old(buf.size) - |taken|
      ensures |taken| == Taken(script, 0, |region|)
      ensures |taken| == old(buf.First()) ==> buf.First() == buf.size
      ensures |taken| < old(buf.First()) ==> buf.First() == old(buf.First()) - |taken|
      ensures rest == if script == [] then [] else script[1..]
    {
      var n;
      n, rest := SendOnce(script, region);
      if n < 0 {
        if script != [] && script[0].SendFailed? {
          errors := errors + 1;
        }
        return false, [], rest;
      }
      if n == 0 {
        return false, [], rest;
      }
      taken := region[..n];
      Slices(stream, bytesOut, n, region);
      buf.Consume(n);
      bytesOut := bytesOut + n;
      all := n == |region|;
    }

    /** One round of the sending loop on a ring that is not empty. */
    method DrainRound(script: seq<SendOutcome>) returns (all: bool, taken: Bytes, rest: seq<SendOutcome>)
      requires Valid() && buf.size > 0
      modifies this`bytesOut, this`errors, buf`readOff, buf`size
      ensures Valid() && bytesOut == old(bytesOut) + |taken|
      ensures taken == stream[old(bytesOut)..bytesOut]
      ensures all ==> taken != [] && buf.First() == buf.size
      ensures !all ==> buf.size > 0 && buf.First() == old(buf.First()) - |taken|
      ensures buf.size == old(buf.size) - |taken|
      ensures |taken| == Taken(script, 0, old(buf.First())) && (all <==> |taken| == old(buf.First()))
      ensures rest == if script == [] then [] else script[1..]
    {
      var r0 := buf.ReadableRegion0();
      all, taken, rest := DrainRegion(script, r0);
      if !all {
        return;
      }
      // Taking the whole of region 0 made region 1, if any, the new region 0: the second send of
      // the original loop body is never reached, the next round sends those bytes.
      var r1 := buf.ReadableRegion1();
      if r1 != [] {
        assert false;
      }
    }

    /**
     Sends until the ring is empty or the kernel stops taking bytes. What went out is the front of
     what was queued; the answer is true exactly when nothing is left.
     (`Valid` ties the ring to the stream: it holds the bytes from bytesOut on.)
     */
    method DrainSend(script: seq<SendOutcome>) returns (drained: bool, ghost wire: Bytes)
      requires Valid()
      modifies this`bytesOut, this`errors, this`finSent, buf`readOff, buf`size
      ensures Valid()
      ensures bytesOut == old(bytesOut) + |wire| && wire == stream[old(bytesOut)..bytesOut]
      ensures drained <==> buf.Contents() == []
      ensures |wire| == Sent(script, old(buf.First()), old(buf.size - buf.First()))
      ensures drained <==> |wire| == old(buf.size)
      ensures buf.First() == if |wire| < old(buf.First()) then old(buf.First()) - |wire| else buf.size
      ensures finSent <==> old(finSent) || (drained && state == Closing && closeReason == Graceful)
    {
      hide Taken, Sent, AllSendable, Encode;
      NothingQueued(script);
      var rest := script;
      while buf.size > 0
        invariant Valid() && finSent == old(finSent)
        invariant bytesOut + buf.size == old(bytesOut + buf.size)
        invariant bytesOut + Sent(rest, buf.First(), buf.size - buf.First())
                  == old(bytesOut) + Sent(script, old(buf.First()), old(buf.size - buf.First()))
        invariant if bytesOut == old(bytesOut) then buf.First() == old(buf.First())
                  else bytesOut >= old(bytesOut + buf.First()) && buf.First() == buf.size
        decreases buf.size
      {
        RoundStep(rest, buf.First(), buf.size - buf.First());
        var all, taken;
        all, taken, rest := DrainRound(rest);
        if !all {
          return false, stream[old(bytesOut)..bytesOut];
        }
      }
      NothingQueued(rest);
      if state == Closing && closeReason == Graceful {
        finSent := true;
      }
      return true, stream[old(bytesOut)..bytesOut];
    }
  }

  // What recv() calls return, given the room offered to each of them.

  /** One call with room for `len` bytes; without an outcome in the script it would block. */
  function Given(script: seq<RecvOutcome>, len: nat): RecvOutcome {
    if script == [] then RecvWouldBlock
    else if script[0].Chunk? && |script[0].data| > len then Chunk(script[0].data[..len])
    else script[0]
  }

  /** The rest of a chunk that was too long waits for the next call. */
  function Left(script: seq<RecvOutcome>, len: nat): seq<RecvOutcome> {
    if script == [] then []
    else if script[0].Chunk? && |script[0].data| > len then [Chunk(script[0].data[len..])] + script[1..]
    else script[1..]
  }

  function LeftAfter(script: seq<RecvOutcome>, rooms: seq<nat>): seq<RecvOutcome> {
    if |rooms| == 0 then script else Left(LeftAfter(script, rooms[..|rooms| - 1]), rooms[|rooms| - 1])
  }

  /** What the k-th call returns. */
  function GivenAt(script: seq<RecvOutcome>, rooms: seq<nat>, k: nat): RecvOutcome
    requires k < |rooms|
  {
    Given(LeftAfter(script, rooms[..k]), rooms[k])
  }

  predicate Fills(o: RecvOutcome, len: nat) {
    o.Chunk? && |o.data| == len > 0
  }

  /** The first n calls each fill the room they were offered. */
  predicate AllFill(script: seq<RecvOutcome>, rooms: seq<nat>, n: nat)
    requires n <= |rooms|
  {
    forall k :: 0 <= k < n ==> Fills(GivenAt(script, rooms, k), rooms[k])
  }

  /** Every call is offered some room, and no more than there is. */
  predicate RoomsIn(rooms: seq<nat>, capacity: nat) {
    forall k :: 0 <= k < |rooms| ==> 0 < rooms[k] <= capacity
  }

  lemma NoCallYet(script: seq<RecvOutcome>, capacity: nat)
    ensures LeftAfter(script, []) == script && AllFill(script, [], 0) && RoomsIn([], capacity)
  {
  }

  /**
   How a round of receiving ends, by the calls it took: at the end of the stream and on an error, or else open
   exactly if all bytes can be read, and then the last call did not fill its room.
   */
  predicate EndsWith(end: Option<CloseReason>, received: Bytes, capacity: nat, script: seq<RecvOutcome>,
                     rooms: seq<nat>)
  {
    if |rooms| == 0 then end == Some(Error) else
    && AllFill(script, rooms, |rooms| - 1)
    && var last := GivenAt(script, rooms, |rooms| - 1);
       if last == Chunk([]) then end == Some(PeerClosed)
       else if last == RecvFailed then end == Some(Error)
       else if received == [] || Digestible(received, capacity)
       then end == None && !Fills(last, rooms[|rooms| - 1])
       else end == Some(Error)
  }

  lemma LastFills(script: seq<RecvOutcome>, rooms: seq<nat>)
    requires |rooms| > 0 && AllFill(script, rooms, |rooms|)
    ensures AllFill(script, rooms, |rooms| - 1)
    ensures var last := GivenAt(script, rooms, |rooms| - 1);
            Fills(last, rooms[|rooms| - 1]) && last != Chunk([]) && last != RecvFailed
  {
  }

  lemma OneCallMore(script: seq<RecvOutcome>, rooms: seq<nat>, len: nat)
    ensures LeftAfter(script, rooms + [len]) == Left(LeftAfter(script, rooms), len)
    ensures GivenAt(script, rooms + [len], |rooms + [len]| - 1) == Given(LeftAfter(script, rooms), len)
    ensures AllFill(script, rooms, |rooms|) ==> AllFill(script, rooms + [len], |rooms + [len]| - 1)
    ensures AllFill(script, rooms, |rooms|) && Fills(Given(LeftAfter(script, rooms), len), len) ==>
              AllFill(script, rooms + [len], |rooms + [len]|)
  {
    hide LeftAfter, Given, Left, Fills;
    var more := rooms + [len];
    assert more[..|rooms|] == rooms;
    assert LeftAfter(script, more) == Left(LeftAfter(script, rooms), len) by {
      OneCall(script, more);
    }
    forall k | 0 <= k < |rooms| ensures GivenAt(script, more, k) == GivenAt(script, rooms, k) && more[k] == rooms[k] {
      assert more[..k] == rooms[..k];
    }
  }

  lemma OneCall(script: seq<RecvOutcome>, rooms: seq<nat>)
    requires |rooms| > 0
    ensures LeftAfter(script, rooms) == Left(LeftAfter(script, rooms[..|rooms| - 1]), rooms[|rooms| - 1])
  {
  }

  /** What one recv() with room for `len` bytes returns, and what the kernel holds afterwards. */
  method RecvOnce(script: seq<RecvOutcome>, len: nat) returns (r: RecvOutcome, rest: seq<RecvOutcome>)
    requires len > 0
    ensures r == Given(script, len) && rest == Left(script, len)
    ensures r.Chunk? ==> |r.data| <= len
    ensures PendingBytes(script) == (if r.Chunk? then r.data else []) + PendingBytes(rest)
    ensures r.Chunk? && r.data != [] ==> |PendingBytes(rest)| < |PendingBytes(script)|
    ensures script == [] ==> r == RecvWouldBlock && rest == []
    ensures script != [] && (script[0].Chunk? ==> |script[0].data| <= len) ==> r == script[0] && rest == script[1..]
    ensures script != [] && script[0].Chunk? && |script[0].data| > len ==>
      r == Chunk(script[0].data[..len]) && rest == [Chunk(script[0].data[len..])] + script[1..]
  {
    if script == [] {
      return RecvWouldBlock, [];
    }
    if script[0].Chunk? && |script[0].data| > len {
      var d := script[0].data;
      rest := [Chunk(d[len..])] + script[1..];
      assert rest[1..] == script[1..];
      assert d == d[..len] + d[len..];
      return Chunk(d[..len]), rest;
    }
    return script[0], script[1..];
  }

  /** All bytes a script still delivers. */
  function PendingBytes(script: seq<RecvOutcome>): Bytes {
    if script == [] then []
    else (if script[0].Chunk? then script[0].data else []) + PendingBytes(script[1..])
  }

  /**
   The received bytes fall into two parts: the emitted payloads, each with its length prefix, and
   what is still buffered.
   */
  predicate CutAt(received: Bytes, cut: nat, emitted: seq<Bytes>, buffered: Bytes) {
    && cut <= |received|
    && AllSendable(emitted)
    && received[..cut] == Encode(emitted)
    && received[cut..] == buffered
  }

  /** Emitting the frame at the front of the buffer moves the cut behind it. */
  lemma CutEmit(received: Bytes, cut: nat, emitted: seq<Bytes>, buffered: Bytes, payload: Bytes, capacity: nat)
    requires CutAt(received, cut, emitted, buffered) && Complete(buffered)
    requires payload == buffered[PREFIX_BYTES..PREFIX_BYTES + Announced(buffered)]
    requires FramesFit(emitted, capacity) && |buffered| <= capacity
    ensures CutAt(received, cut + PREFIX_BYTES + |payload|, emitted + [payload], buffered[PREFIX_BYTES + |payload|..])
    ensures FramesFit(emitted + [payload], capacity)
  {
    var end := PREFIX_BYTES + |payload|;
    AnnouncedFrame(buffered);
    EncodeOneMore(emitted, payload);
    assert received[..cut + end] == received[..cut] + buffered[..end];
    assert received[cut + end..] == buffered[end..];
  }

  /** Received bytes go behind the buffered ones. */
  lemma CutReceive(received: Bytes, cut: nat, emitted: seq<Bytes>, buffered: Bytes, more: Bytes)
    requires CutAt(received, cut, emitted, buffered)
    ensures CutAt(received + more, cut, emitted, buffered + more)
  {
    assert (received + more)[..cut] == received[..cut];
    DropAppend(received, cut, more);
  }

  lemma NothingReceived(capacity: nat)
    ensures CutAt([], 0, [], []) && FramesFit([], capacity) && !Complete([]) && !Oversize([])
  {
  }

  /** The payload put together from what lies before and after position `k`, where the ring wraps. */
  lemma PayloadPieces(c: Bytes, k: nat, len: nat)
    requires k <= |c| && PREFIX_BYTES + len <= |c|
    ensures k >= PREFIX_BYTES ==>
      var take := Min(len, k - PREFIX_BYTES);
      c[..k][PREFIX_BYTES..PREFIX_BYTES + take] + c[k..][..len - take] == c[PREFIX_BYTES..PREFIX_BYTES + len]
    ensures k < PREFIX_BYTES ==>
      c[k..][PREFIX_BYTES - k..PREFIX_BYTES - k + len] == c[PREFIX_BYTES..PREFIX_BYTES + len]
  {
  }

  /** Once no whole frame is buffered, the cut is the reference reading. */
  lemma CutIsReading(received: Bytes, cut: nat, emitted: seq<Bytes>, buffered: Bytes)
    requires CutAt(received, cut, emitted, buffered) && !Complete(buffered)
    ensures Parse(received) == Parsed(emitted, buffered)
  {
    ParseEncoded(emitted, buffered);
    assert received == received[..cut] + received[cut..];
  }

  datatype RecvEnd = Drained | PeerFin | RecvError | FramingError

  class Receiver {
    const buf: RingBuffer
    var open: bool
    var closeReason: CloseReason
    var emitted: seq<Bytes>           // payloads of the Received events, in order
    var bytesIn: nat
    var packetsIn: nat
    var errors: nat
    ghost var received: Bytes         // every byte the kernel has delivered, in order
    ghost var cut: nat                // how many of them went into emitted frames
    ghost var buffered: Bytes         // the ring's contents

    ghost predicate Receiving()
      reads this`received, this`emitted, this`cut, this`buffered, this`bytesIn, this`packetsIn, buf, buf.data
    {
      && buf.Valid() && buf.Contents() == buffered
      && bytesIn == |received| && packetsIn == |emitted|
      && FramesFit(emitted, buf.capacity)
      && CutAt(received, cut, emitted, buffered)
    }

    /** Between polls an open connection holds no whole frame, and room for more bytes. */
    ghost predicate Valid()
      reads this, buf, buf.data
    {
      && Receiving()
      && (open ==> !Complete(buffered) && !Oversize(buffered))
      && (open ==> received == [] || |buffered| < buf.capacity)
    }

    /** Nothing in `b` overruns the protocol limit or this receiver's ring. */
    predicate Readable(b: Bytes) {
      b == [] || Digestible(b, buf.capacity)
    }

    /**
     What was emitted and what is buffered is exactly the reference reading of all bytes received
     so far: no trace of how they were cut into chunks is left.
     */
    lemma ValidMeansRead()
      requires Valid() && open
      ensures Parse(received) == Parsed(emitted, buffered) && Readable(received)
    {
      CutIsReading(received, cut, emitted, buffered);
    }

    /** The next frame is beyond the protocol limit, or the ring is full without holding it. */
    ghost predicate Stuck()
      reads this`buffered
    {
      && !Complete(buffered)
      && (Oversize(buffered) || |buffered| == buf.capacity)
    }

    /** A connection is only given up on bytes that no chunking would have got through. */
    lemma StuckMeansUnreadable()
      requires Receiving() && Stuck()
      ensures !Digestible(received, buf.capacity) && Parse(received).frames == emitted
    {
      CutIsReading(received, cut, emitted, buffered);
    }

    constructor (capacity: nat)
      ensures Valid() && open && |emitted| == 0 && |received| == 0
      ensures fresh(buf) && fresh(buf.data) && buf.capacity == capacity
    {
      buf := new RingBuffer(capacity);
      open, closeReason := true, Graceful;
      emitted, received, cut, buffered := [], [], 0, [];
      bytesIn, packetsIn, errors := 0, 0, 0;
      new;
      hide Complete, Oversize, CutAt, FramesFit;
      NothingReceived(buf.capacity);
    }

    /** Copies the first `n` stored bytes without consuming them, across the wrap if needed. */
    method CopyOut(n: nat) returns (s: Bytes)
      requires buf.Valid() && n <= buf.size
      ensures s == buf.Contents()[..n]
    {
      var r0 := buf.ReadableRegion0();
      var take0 := Min(n, |r0|);
      s := r0[..take0];
      if take0 < n {
        var r1 := buf.ReadableRegion1();
        var take1 := Min(n - take0, |r1|);
        s := s + r1[..take1];
      }
    }

    /** The announced length of the next frame, once its four bytes are there. */
    method PeekLength() returns (known: bool, len: nat)
      requires buf.Valid()
      ensures known <==> buf.size >= PREFIX_BYTES
      ensures known ==> len == Announced(buf.Contents())
    {
      if buf.size < PREFIX_BYTES {
        return false, 0;
      }
      var hdr := CopyOut(PREFIX_BYTES);
      return true, FromBigEndian(hdr);
    }

    /** The payload behind the prefix; prefix and payload may each lie across the wrap. */
    method CopyPayload(len: nat) returns (payload: Bytes)
      requires buf.Valid() && PREFIX_BYTES + len <= buf.size
      ensures payload == buf.Contents()[PREFIX_BYTES..PREFIX_BYTES + len]
    {
      var first := buf.ReadableRegion0();
      if |first| >= PREFIX_BYTES {
        var take := Min(len, |first| - PREFIX_BYTES);
        payload := first[PREFIX_BYTES..PREFIX_BYTES + take];
      } else {
        var r1 := buf.ReadableRegion1();
        var skip := PREFIX_BYTES - |first|;
        var take := Min(len, |r1| - skip);
        payload := r1[skip..skip + take];
      }
      if |payload| < len {
        var tail := buf.ReadableRegion1();
        payload := payload + tail[..len - |payload|];
      }
      PayloadPieces(buf.Contents(), |first|, len);
    }

    method RemoveConnection(reason: CloseReason)
      modifies this`open, this`closeReason
      ensures !open && closeReason == reason
    {
      open, closeReason := false, reason;
    }

    /** Emits every whole frame in the ring; a frame announced beyond the limit ends the connection. */
    method TryEmitPackets()
      requires Receiving() && open
      modifies this`open, this`closeReason, this`emitted, this`cut, this`buffered, this`packetsIn, this`errors,
               buf`readOff, buf`size
      ensures Receiving() && !Complete(buffered) && |buffered| <= |old(buffered)|
      ensures open <==> !Oversize(buffered)
      ensures !open ==> closeReason == Error
      ensures old(emitted) <= emitted
    {
      hide CutAt, FramesFit;
      while buf.size >= PREFIX_BYTES
        invariant Receiving() && open && |buffered| <= |old(buffered)|
        invariant old(emitted) <= emitted
        decreases buf.size
      {
        var known, len := PeekLength();
        if !known {
          break;
        }
        if len > MAX_PAYLOAD_BYTES {
          errors := errors + 1;
          RemoveConnection(Error);
          return;
        }
        if buf.size < PREFIX_BYTES + len {
          break;
        }
        Emit(len);
      }
    }

    /** Turns the whole frame at the front of the ring into a Received event. */
    method Emit(len: nat)
      requires Receiving() && Complete(buffered) && len == Announced(buffered)
      modifies this`emitted, this`cut, this`buffered, this`packetsIn, buf`readOff, buf`size
      ensures Receiving() && buf.size == old(buf.size) - PREFIX_BYTES - len
      ensures emitted == old(emitted) + [old(buffered)[PREFIX_BYTES..PREFIX_BYTES + len]]
    {
      hide CutAt, FramesFit, Announced, Wrap, Span;
      var payload := CopyPayload(len);
      CutEmit(received, cut, emitted, buffered, payload, buf.capacity);
      buf.Consume(PREFIX_BYTES + len);
      buffered := buffered[PREFIX_BYTES + len..];
      packetsIn := packetsIn + 1;
      emitted, cut := emitted + [payload], cut + PREFIX_BYTES + len;
    }

    /** Stores one received chunk in the writable region. */
    method Accept(data: Bytes)
      requires Receiving() && open && 0 < |data| <= buf.Free()
      modifies this`received, this`buffered, this`bytesIn, buf, buf.data
      ensures Receiving() && (buf.data == old(buf.data) || fresh(buf.data))
      ensures received == old(received) + data && buf.size == old(buf.size) + |data|
    {
      CutReceive(received, cut, emitted, buffered, data);
      buf.Store(data);
      buf.CommitWrite(|data|);
      bytesIn := bytesIn + |data|;
      received, buffered := received + data, buffered + data;
    }

    /** A full ring: whole frames are emitted to make room; if there are none it stays full. */
    method MakeRoom()
      requires Receiving() && open && buf.size == buf.capacity
      modifies this`open, this`closeReason, this`emitted, this`cut, this`buffered, this`packetsIn, this`errors,
               buf`readOff, buf`size
      ensures Receiving() && (open ==> |buffered| < |old(buffered)|)
      ensures open ==> |buffered| < buf.capacity
      ensures !open ==> Stuck() && closeReason == Error
      ensures old(emitted) <= emitted
    {
      hide CutAt, FramesFit, Complete, Oversize;
      TryEmitPackets();
      if open && buf.size == buf.capacity {
        errors := errors + 1;
        RemoveConnection(Error);
      }
    }

    /** One recv() with room for `len` bytes, and what follows from its outcome. */
    method Receive(script: seq<RecvOutcome>, len: nat, ghost total: Bytes)
      returns (again: bool, end: RecvEnd, rest: seq<RecvOutcome>)
      requires Receiving() && open && 0 < len <= buf.Free()
      requires received <= total && PendingBytes(script) == total[|received|..]
      modifies this, buf, buf.data
      ensures Receiving() && (buf.data == old(buf.data) || fresh(buf.data))
      ensures received <= total && PendingBytes(rest) == total[|received|..]
      ensures old(received) <= received && emitted == old(emitted)
      ensures again ==> open && |old(received)| < |received|
      ensures script != [] && script[0].Chunk? && script[0].data != [] ==> |old(received)| < |received|
      ensures !again && open ==> |buffered| < buf.capacity
      ensures open <==> end == Drained
      ensures rest == Left(script, len)
      ensures var o := Given(script, len);
              && received == old(received) + (if o.Chunk? then o.data else [])
              && (again <==> Fills(o, len))
              && (end == PeerFin <==> o == Chunk([])) && (end == RecvError <==> o == RecvFailed)
      ensures end == PeerFin ==> closeReason == PeerClosed && Chunk([]) in script
      ensures end == RecvError ==> closeReason == Error && RecvFailed in script
      ensures end != FramingError
      ensures forall o :: o in rest ==> o in script || (o.Chunk? && o.data != [])
    {
      hide CutAt, FramesFit, PendingBytes, Given, Left;
      var r;
      r, rest := RecvOnce(script, len);
      match r {
        case RecvWouldBlock =>
          return false, Drained, rest;
        case RecvFailed =>
          errors := errors + 1;
          RemoveConnection(Error);
          return false, RecvError, rest;
        case Chunk(data) =>
          if |data| == 0 {
            RemoveConnection(PeerClosed);
            return false, PeerFin, rest;
          }
          NextPiece(total, |received|, data, PendingBytes(rest));
          Accept(data);
          return |data| == len, Drained, rest;
      }
    }

    /** One turn of the loop of ProcessRecv: room is made, or one recv() is done. */
    method RecvStep(script: seq<RecvOutcome>, ghost total: Bytes)
      returns (again: bool, end: RecvEnd, rest: seq<RecvOutcome>, ghost room: nat)
      requires Receiving() && open
      requires received <= total && PendingBytes(script) == total[|received|..]
      modifies this, buf, buf.data
      ensures Receiving() && (buf.data == old(buf.data) || fresh(buf.data))
      ensures received <= total && PendingBytes(rest) == total[|received|..]
      ensures old(received) <= received && old(emitted) <= emitted
      ensures room <= buf.capacity && (room == 0 <==> old(buf.size) == buf.capacity)
      ensures room == 0 ==> rest == script && received == old(received)
      ensures room == 0 ==> (again <==> open) && (!open ==> end == FramingError)
      ensures room > 0 ==> rest == Left(script, room) && end != FramingError
      ensures room > 0 && again ==> |old(received)| < |received|
      ensures room > 0 ==>
                var o := Given(script, room);
                && received == old(received) + (if o.Chunk? then o.data else [])
                && (again <==> Fills(o, room))
                && (end == PeerFin <==> o == Chunk([])) && (end == RecvError <==> o == RecvFailed)
      ensures again ==> open && (|old(received)| < |received| || (received == old(received) && rest == script
                                                                  && |buffered| < |old(buffered)|))
      ensures again && received == old(received) ==> |buffered| < buf.capacity
      ensures old(|buffered|) < buf.capacity && script != [] && script[0].Chunk? && script[0].data != [] ==>
                |old(received)| < |received|
      ensures open <==> again || end == Drained
      ensures !again && open ==> |buffered| < buf.capacity
      ensures !open && end == FramingError ==> closeReason == Error && Stuck()
      ensures !open && end == PeerFin ==> closeReason == PeerClosed && Chunk([]) in script
      ensures !open && end == RecvError ==> closeReason == Error && RecvFailed in script
      ensures forall o :: o in rest ==> o in script || (o.Chunk? && o.data != [])
    {
      hide CutAt, FramesFit, PendingBytes, Complete, Oversize, Wrap, Span, Given, Left, Fills;
      var off, len := buf.WritableRegion0();
      room := len;
      if len == 0 {
        MakeRoom();
        return open, FramingError, script, room;
      }
      again, end, rest := Receive(script, len, total);
    }

    /** The loop of ProcessRecv: a call that does not fill its room is the last one. */
    method ReceiveAll(script: seq<RecvOutcome>, ghost total: Bytes)
      returns (end: RecvEnd, rest: seq<RecvOutcome>, ghost rooms: seq<nat>)
      requires Receiving() && open && (|buffered| < buf.capacity || buf.capacity == 0)
      requires received <= total && PendingBytes(script) == total[|received|..]
      modifies this, buf, buf.data
      ensures Receiving() && (buf.data == old(buf.data) || fresh(buf.data))
      ensures received <= total && PendingBytes(rest) == total[|received|..]
      ensures old(received) <= received && old(emitted) <= emitted
      ensures open <==> end == Drained
      ensures open ==> |buffered| < buf.capacity
      ensures rest == LeftAfter(script, rooms) && RoomsIn(rooms, buf.capacity)
      ensures |rooms| == 0 <==> buf.capacity == 0
      ensures |rooms| == 0 ==> end == FramingError
      ensures |rooms| > 0 ==> AllFill(script, rooms, |rooms| - 1)
      ensures |rooms| > 0 ==>
                var last := GivenAt(script, rooms, |rooms| - 1);
                && (end == PeerFin <==> last == Chunk([])) && (end == RecvError <==> last == RecvFailed)
                && (end == Drained ==> !Fills(last, rooms[|rooms| - 1]))
      ensures script != [] && script[0].Chunk? && script[0].data != [] && buf.capacity > 0 ==>
                received != old(received)
      ensures end == FramingError ==> closeReason == Error && Stuck()
      ensures end == PeerFin ==> closeReason == PeerClosed && Chunk([]) in script
      ensures end == RecvError ==> closeReason == Error && RecvFailed in script
    {
      hide CutAt, FramesFit, PendingBytes, Complete, Oversize, Wrap, Span;
      hide LeftAfter, AllFill, GivenAt, Fills, Left, Given;
      rest := script;
      rooms := [];
      NoCallYet(script, buf.capacity);
      while true
        invariant Receiving() && open && (buf.data == old(buf.data) || fresh(buf.data))
        invariant received <= total && PendingBytes(rest) == total[|received|..]
        invariant old(received) <= received && old(emitted) <= emitted
        invariant received == old(received) ==> rest == script
        invariant |rooms| > 0 ==> |old(received)| < |received|
        invariant |rooms| == 0 ==> |buffered| < buf.capacity || buf.capacity == 0
        invariant buf.capacity == 0 ==> |rooms| == 0
        invariant rest == LeftAfter(script, rooms) && AllFill(script, rooms, |rooms|) && RoomsIn(rooms, buf.capacity)
        invariant forall o :: o in rest ==> o in script || (o.Chunk? && o.data != [])
        decreases |total| - |received|, |buffered|
      {
        var again;
        ghost var room;
        again, end, rest, room := RecvStep(rest, total);
        if room > 0 {
          OneCallMore(script, rooms, room);
          rooms := rooms + [room];
        } else if |rooms| > 0 {
          LastFills(script, rooms);
        }
        if !open || !again {
          return;
        }
      }
    }

    /** A connection that is still open has only bytes that can be read; one that got stuck has not. */
    lemma ReadableIff()
      requires Receiving() && buf.capacity > 0 && (if open then Valid() else Stuck())
      ensures open <==> Readable(received)
    {
      if open {
        ValidMeansRead();
      } else {
        StuckMeansUnreadable();
      }
    }

    /**
     Receives until the kernel has no more, then emits. By ValidMeansRead the outcome of an open
     connection depends on the received bytes alone; it is given up for framing only on bytes that
     this ring cannot get through. It ends at the end of the stream or on an error exactly if that is
     what the last call returns, and stays open exactly if the last call returns less than it offered
     room for and all bytes can be read.
     */
    method ProcessRecv(script: seq<RecvOutcome>) returns (end: RecvEnd, rest: seq<RecvOutcome>, ghost rooms: seq<nat>)
      requires Valid() && open
      modifies this, buf, buf.data
      ensures Valid() && (buf.data == old(buf.data) || fresh(buf.data))
      ensures var total := old(received) + PendingBytes(script);
              old(received) <= received <= total && PendingBytes(rest) == total[|received|..]
      ensures script != [] && script[0].Chunk? && script[0].data != [] && buf.capacity > 0 ==>
                received != old(received)
      ensures old(emitted) <= emitted
      ensures open <==> end == Drained
      ensures rest == LeftAfter(script, rooms) && RoomsIn(rooms, buf.capacity)
      ensures |rooms| == 0 <==> buf.capacity == 0
      ensures |rooms| == 0 ==> end == FramingError
      ensures |rooms| > 0 ==> AllFill(script, rooms, |rooms| - 1)
      ensures |rooms| > 0 ==>
                var last := GivenAt(script, rooms, |rooms| - 1);
                && (end == PeerFin <==> last == Chunk([])) && (end == RecvError <==> last == RecvFailed)
                && (end == Drained ==> !Fills(last, rooms[|rooms| - 1]) && Readable(received))
                && (end == FramingError ==> !Readable(received))
      ensures EndsWith(if open then None else Some(closeReason), received, buf.capacity, script, rooms)
      ensures end == FramingError ==> closeReason == Error && Stuck()
      ensures end == PeerFin ==> closeReason == PeerClosed && Chunk([]) in script
      ensures end == RecvError ==> closeReason == Error && RecvFailed in script
    {
      assert |buffered| < buf.capacity || buf.capacity == 0;
      hide CutAt, FramesFit, PendingBytes, Complete, Oversize, Wrap, Span;
      hide LeftAfter, AllFill, GivenAt, Fills, Left, Given;
      ghost var total := received + PendingBytes(script);
      end, rest, rooms := ReceiveAll(script, total);
      if open {
        TryEmitPackets();
        end := if open then Drained else FramingError;
      }
      if end == Drained || end == FramingError {
        if buf.capacity > 0 {
          ReadableIff();
        }
      }
    }
  }
}
