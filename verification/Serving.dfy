/**
 * One connection of the server transport served from end to end (engine/net/src/tcp_transport.cpp):
 * the byte level of a connection and the connection tables together. What the tables report of
 * a connection is the reference reading of its bytes, and what a requested close loses.
 */
module Serving {
  import opened Basics
  import opened Options
  import opened Framing
  import opened Connections
  import opened ConnectionTable
  import opened Links

  /** The payloads of the Received events. */
  function Payloads(es: seq<Event>): seq<Bytes> {
    if |es| == 0 then [] else
    var e := es[|es| - 1];
    Payloads(es[..|es| - 1]) + if e.Received? then [e.payload] else []
  }

  /** What has been reported of a connection as received. */
  function Reported(trace: seq<Event>, id: Id): seq<Bytes> {
    Payloads(Stream(trace, id))
  }

  lemma ReportedAfter(trace: seq<Event>, e: Event, id: Id)
    ensures Reported(trace + [e], id) == Reported(trace, id) + if e.id == id && e.Received? then [e.payload] else []
  {
    var es, es' := Stream(trace, id), Stream(trace + [e], id);
    assert (trace + [e])[..|trace|] == trace;
    if e.id == id {
      assert es'[..|es|] == es;
    }
  }

  /** Reported packets go behind those reported before, and those of other connections stay. */
  lemma {:induction false} PacketsReported(trace: seq<Event>, id: Id, ps: seq<Bytes>, other: Id)
    ensures Reported(trace + Packets(id, ps), other) == Reported(trace, other) + if other == id then ps else []
  {
    hide Reported;
    if |ps| == 0 {
      assert trace + Packets(id, ps) == trace;
    } else {
      var n := |ps| - 1;
      PacketsReported(trace, id, ps[..n], other);
      ReportedAfter(trace + Packets(id, ps[..n]), Received(id, ps[n]), other);
      assert trace + Packets(id, ps) == (trace + Packets(id, ps[..n])) + [Received(id, ps[n])];
      assert ps == ps[..n] + [ps[n]];
    }
  }

  lemma RoundReported(trace: seq<Event>, id: Id, got: RecvRound, other: Id)
    ensures Reported(trace + RecvEvents(id, got), other)
            == Reported(trace, other) + if other == id then got.packets else []
  {
    PacketsReported(trace, id, got.packets, other);
    var most := trace + Packets(id, got.packets);
    if got.close.Some? {
      ReportedAfter(most, Disconnected(id, got.close.value), other);
      assert trace + RecvEvents(id, got) == most + [Disconnected(id, got.close.value)];
    } else {
      assert trace + RecvEvents(id, got) == most;
    }
  }

  lemma AllRoundReported(trace: seq<Event>, id: Id, got: RecvRound)
    ensures forall other: Id :: Reported(trace + RecvEvents(id, got), other)
                                == Reported(trace, other) + if other == id then got.packets else []
  {
    hide Reported, RecvEvents;
    forall other: Id
      ensures Reported(trace + RecvEvents(id, got), other)
              == Reported(trace, other) + if other == id then got.packets else []
    {
      RoundReported(trace, id, got, other);
    }
  }

  lemma SentReported(trace: seq<Event>, id: Id, sent: SendRound, other: Id)
    ensures Reported(trace + SendEvents(id, sent), other) == Reported(trace, other)
  {
    if sent.close.Some? {
      ReportedAfter(trace, Disconnected(id, sent.close.value), other);
    } else if sent.drained {
      ReportedAfter(trace, SendDrained(id), other);
    } else {
      assert trace + SendEvents(id, sent) == trace;
    }
  }

  /** The receiver of a connection and the tables agree on what was received. */
  ghost predicate InStep(t: TcpTransport, r: Receiver, i: nat)
    reads t, t.ids, t.poller, r, r.buf, r.buf.data
  {
    && t.Valid() && r.Valid() && i < |t.hosts|
    && Reported(t.trace, t.hosts[i].id) == r.emitted && t.hosts[i].inUse == r.open
  }

  /** Between polls what is reported of an open connection is what its bytes read as, however they came in. */
  lemma ReportedIsParse(t: TcpTransport, r: Receiver, i: nat)
    requires InStep(t, r, i)
    ensures r.open ==> Reported(t.trace, t.hosts[i].id) == Parse(r.received).frames
    ensures Reported(t.trace, t.hosts[i].id) <= Parse(r.received).frames
  {
    EmittedIsFront(r.received, r.cut, r.emitted, r.buffered);
    if r.open {
      r.ValidMeansRead();
    }
  }

  /** A new id has nothing reported of it. */
  lemma {:induction false} NothingReported(trace: seq<Event>, id: Id)
    requires PhaseOf(trace, id) == Fresh
    ensures Reported(trace + [Connected(id)], id) == []
  {
    PhaseMeans(trace, id);
    ReportedAfter(trace, Connected(id), id);
  }

  /** A connection that comes in is in step with its new receiver. */
  method Accept(t: TcpTransport, cfd: Handle, recvBuf: nat, now: int) returns (r: Receiver, i: nat)
    requires t.Valid() && t.connCount < t.max && cfd !in t.fdToSlot && Some(cfd) != t.listenFd
    requires |t.ids.given| < WORD
    modifies t, t.ids, t.poller
    ensures InStep(t, r, i) && r.open && fresh(r) && fresh(r.buf) && fresh(r.buf.data)
    ensures t.hosts[i].fd == cfd && t.out == old(t.out) + [Connected(t.hosts[i].id)]
    ensures t.hosts[i].lastActive == now && t.fdToSlot == old(t.fdToSlot)[cfd := i]
    ensures |r.received| == 0 && |r.emitted| == 0 && r.buf.capacity == recvBuf
    ensures !old(t.hosts)[i].inUse && t.listenFd == old(t.listenFd) && t.past == old(t.past)
    ensures t.connCount == old(t.connCount) + 1 && t.fdToSlot.Keys == old(t.fdToSlot).Keys + {cfd}
    ensures t.ids.given == old(t.ids.given) + [t.hosts[i].id]
    ensures |t.hosts| == |old(t.hosts)| && forall k :: 0 <= k < |t.hosts| && k != i ==> t.hosts[k] == old(t.hosts)[k]
    ensures forall id: Id :: id != t.hosts[i].id ==> Reported(t.trace, id) == old(Reported(t.trace, id))
  {
    hide EntriesOk, WatchOk, IdsOk, TablesOk, ReleasedOk, FreeOk, Connects, Reported, SlotOf, GenerationOf;
    ghost var trace := t.trace;
    ghost var id := t.AcceptOne(cfd, now);
    FrontsDiffer(old(t.ids.given), id);
    assert StreamAt(trace, id, id in old(t.slotOf), false);
    NothingReported(trace, id);
    assert t.trace == trace + [Connected(id)];
    forall other: Id ensures other != id ==> Reported(t.trace, other) == Reported(trace, other) {
      ReportedAfter(trace, Connected(id), other);
    }
    i := t.fdToSlot[cfd];
    r := new Receiver(recvBuf);
  }

  /** What a ready connection receives, as the tables get to know it. */
  method ProcessRecv(t: TcpTransport, r: Receiver, i: nat, script: seq<RecvOutcome>, now: int)
    returns (rest: seq<RecvOutcome>, ghost rooms: seq<nat>)
    requires InStep(t, r, i) && r.open
    modifies t, t.ids, t.poller, r, r.buf, r.buf.data
    ensures InStep(t, r, i)
    ensures r.buf.data == old(r.buf.data) || fresh(r.buf.data)
    ensures t.ids.given == old(t.ids.given)
    ensures var total := old(r.received) + PendingBytes(script);
            old(r.received) <= r.received <= total && PendingBytes(rest) == total[|r.received|..]
    ensures old(r.emitted) <= r.emitted
    ensures t.hosts[i].id == old(t.hosts[i].id) && t.listenFd == old(t.listenFd) && t.past == old(t.past)
    ensures t.hosts[i].fd == old(t.hosts[i].fd)
    ensures t.hosts[i].lastActive == if r.received == old(r.received) then old(t.hosts[i].lastActive) else now
    ensures t.fdToSlot == if r.open then old(t.fdToSlot) else old(t.fdToSlot) - {t.hosts[i].fd}
    ensures script != [] && script[0].Chunk? && script[0].data != [] && r.buf.capacity > 0 ==>
              r.received != old(r.received)
    ensures rest == LeftAfter(script, rooms) && RoomsIn(rooms, r.buf.capacity)
    ensures |rooms| == 0 <==> r.buf.capacity == 0
    ensures EndsWith(if r.open then None else Some(r.closeReason), r.received, r.buf.capacity, script, rooms)
    ensures t.out == old(t.out) + Packets(t.hosts[i].id, r.emitted[|old(r.emitted)|..])
                     + (if r.open then [] else [Disconnected(t.hosts[i].id, r.closeReason)])
    ensures forall id: Id :: id != t.hosts[i].id ==> Reported(t.trace, id) == old(Reported(t.trace, id))
    ensures |t.hosts| == |old(t.hosts)| && forall k :: 0 <= k < |t.hosts| && k != i ==> t.hosts[k] == old(t.hosts)[k]
  {
    hide StreamsOk, EntriesOk, WatchOk, IdsOk, TablesOk, ReleasedOk, Distinct, FreeOk;
    hide GivenOk, Connects, CutAt, FramesFit;
    hide Complete, Oversize, PendingBytes, Packets, Reported, AllFill, GivenAt, LeftAfter, Fills, RoomsIn, EndsWith;
    var before, bytes, id := |r.emitted|, r.bytesIn, t.hosts[i].id;
    var end;
    end, rest, rooms := r.ProcessRecv(script);
    var got := RecvRound(r.bytesIn != bytes, r.emitted[before..], if r.open then None else Some(r.closeReason));
    t.ProcessRecv(i, got, now);
    assert t.trace == old(t.trace) + RecvEvents(id, got);
    AllRoundReported(old(t.trace), id, got);
  }

  /** One round of sending, as the tables get to know it. */
  method DrainRound(s: Sender, script: seq<SendOutcome>) returns (sent: SendRound, ghost wire: Bytes)
    requires s.Valid()
    modifies s`bytesOut, s`errors, s`finSent, s.buf`readOff, s.buf`size
    ensures s.Valid() && s.bytesOut == old(s.bytesOut) + |wire| && wire == s.stream[old(s.bytesOut)..s.bytesOut]
    ensures |wire| == Sent(script, old(s.buf.First()), old(s.buf.size - s.buf.First()))
    ensures s.bytesOut == |s.stream|
            <==> TakesAll(script, 0, old(s.buf.First())) && TakesAll(script, 1, old(s.buf.size - s.buf.First()))
    ensures var n := old(s.buf.First()); s.buf.First() == if |wire| < n then n - |wire| else s.buf.size
    ensures sent.drained <==> s.bytesOut == |s.stream|
    ensures sent.close == if s.state == Open then None else Some(s.closeReason)
  {
    hide Sent, TakesAll, Encode, AllSendable;
    AllSentIff(script, s.buf.First(), s.buf.size - s.buf.First());
    var drained;
    drained, wire := s.DrainSend(script);
    sent := SendRound(drained, if s.state == Open then None else Some(s.closeReason));
  }

  /**
   * What a ready connection sends. A requested close ends the connection in this round, drained or
   * not, for a graceful close too: all that was queued has gone out exactly if the kernel takes the
   * stored bytes up to the end of the ring in its first call and those behind the wrap in its second.
   */
  method ProcessSend(t: TcpTransport, s: Sender, i: nat, script: seq<SendOutcome>) returns (ghost wire: Bytes)
    requires t.Valid() && s.Valid() && i < |t.hosts| && t.hosts[i].inUse
    modifies t, t.ids, t.poller, s`bytesOut, s`errors, s`finSent, s.buf`readOff, s.buf`size
    ensures t.Valid() && s.Valid()
    ensures t.ids.given == old(t.ids.given)
    ensures s.bytesOut == old(s.bytesOut) + |wire| && wire == s.stream[old(s.bytesOut)..s.bytesOut]
    ensures t.hosts[i].id == old(t.hosts[i].id) && t.hosts[i].fd == old(t.hosts[i].fd)
    ensures t.hosts[i].lastActive == old(t.hosts[i].lastActive)
    ensures t.listenFd == old(t.listenFd) && t.past == old(t.past) && (t.hosts[i].inUse <==> s.state == Open)
    ensures t.fdToSlot == if s.state == Open then old(t.fdToSlot) else old(t.fdToSlot) - {t.hosts[i].fd}
    ensures s.state != Open ==> t.out == old(t.out) + [Disconnected(t.hosts[i].id, s.closeReason)]
    ensures s.state == Open ==>
              t.out == old(t.out) + if s.bytesOut == |s.stream| then [SendDrained(t.hosts[i].id)] else []
    ensures |wire| == Sent(script, old(s.buf.First()), old(s.buf.size - s.buf.First()))
    ensures var n := old(s.buf.First()); s.buf.First() == if |wire| < n then n - |wire| else s.buf.size
    ensures s.bytesOut == |s.stream|
            <==> TakesAll(script, 0, old(s.buf.First())) && TakesAll(script, 1, old(s.buf.size - s.buf.First()))
    ensures forall id: Id :: Reported(t.trace, id) == old(Reported(t.trace, id))
    ensures |t.hosts| == |old(t.hosts)| && forall k :: 0 <= k < |t.hosts| && k != i ==> t.hosts[k] == old(t.hosts)[k]
  {
    hide StreamsOk, EntriesOk, WatchOk, IdsOk, TablesOk, ReleasedOk, Distinct, FreeOk, GivenOk, Connects, Reported;
    hide Sent, TakesAll, Frame, Encode, AllSendable;
    var id := t.hosts[i].id;
    var sent;
    sent, wire := DrainRound(s, script);
    t.ProcessSend(i, sent);
    assert t.trace == old(t.trace) + SendEvents(id, sent);
    forall other: Id ensures Reported(t.trace, other) == old(Reported(t.trace, other)) {
      SentReported(old(t.trace), id, sent, other);
    }
  }

  // A graceful close that loses its message.

  method OneConnection(cfd: Handle) returns (t: TcpTransport, i: nat)
    ensures t.Valid() && fresh(t) && fresh(t.ids) && fresh(t.poller)
    ensures i < |t.hosts| && t.hosts[i].inUse && t.hosts[i].fd == cfd && t.out == [Connected(t.hosts[i].id)]
    ensures t.fdToSlot == map[cfd := i]
  {
    hide StreamsOk, EntriesOk, WatchOk, IdsOk, TablesOk, ReleasedOk, FreeOk, GivenOk, Connects, Conns;
    t := new TcpTransport(1, 0);
    OneCount(t);
    ghost var id := t.AcceptOne(cfd, 0);
    KnownConn(t.hosts, t.slotOf, t.fdToSlot, cfd);
    i := t.fdToSlot[cfd];
    assert t.fdToSlot.Keys == {cfd};
  }

  method ClosingSender(payload: Bytes) returns (s: Sender)
    requires payload != [] && Sendable(payload)
    ensures s.Valid() && fresh(s) && fresh(s.buf) && fresh(s.buf.data)
    ensures s.state == Closing && s.closeReason == Graceful
    ensures s.accepted == [payload] && s.bytesOut == 0 < |s.stream|
  {
    hide AllSendable, Encode, Frame;
    OneFrame(payload);
    s := new Sender(PREFIX_BYTES + |payload|);
    var sent := s.Send(payload);
    s.Close(Graceful);
  }

  /** A message alone is a stream that is not empty. */
  lemma OneFrame(payload: Bytes)
    requires Sendable(payload)
    ensures AllSendable([]) && Encode([]) == [] && |Frame(payload)| > 0
  {
  }

  lemma NothingTaken(first: nat, second: nat)
    ensures Sent([], first, second) == 0
  {
  }

  /** The kernel takes nothing in the one round that comes: the message is lost, and the connection is gone. */
  method GracefulCloseLoses(cfd: Handle, payload: Bytes) returns (t: TcpTransport, s: Sender, i: nat)
    requires payload != [] && Sendable(payload)
    ensures t.Valid() && s.Valid() && s.accepted == [payload] && s.closeReason == Graceful
    ensures s.bytesOut == 0 < |s.stream| && t.fdToSlot == map[]
    ensures i < |t.hosts| && t.out == [Connected(t.hosts[i].id), Disconnected(t.hosts[i].id, Graceful)]
  {
    hide StreamsOk, EntriesOk, WatchOk, IdsOk, TablesOk, ReleasedOk, FreeOk, GivenOk, Connects, Distinct;
    hide Encode, AllSendable, Sent, TakesAll, Reported;
    t, i := OneConnection(cfd);
    s := ClosingSender(payload);
    NothingTaken(s.buf.First(), s.buf.size - s.buf.First());
    ghost var wire := ProcessSend(t, s, i, []);
    assert t.fdToSlot.Keys == {};
  }
}
