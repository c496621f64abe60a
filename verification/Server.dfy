/**
 * The server transport as a whole (engine/net/src/tcp_transport.cpp): the tables together with the
 * byte level of all connections, over whole rounds of Poll. What is reported of every open
 * connection is the reference reading of its bytes.
 */
module Servers {
  import opened Basics
  import opened Options
  import opened Framing
  import opened RingBuffers
  import opened Connections
  import opened ConnectionTable
  import opened Rounds
  import opened Serving

  /** The two halves of one connection. */
  datatype Conn = Conn(receiver: Receiver, sender: Sender) {
    predicate NeedsWrite()
      reads sender, sender.buf
    {
      sender.buf.size > 0 || sender.state != Open
    }
  }

  // The objects of the connections.

  /** Those that stay the same. */
  ghost function Fixed(c: Conn): set<object> {
    {c.receiver, c.receiver.buf, c.sender, c.sender.buf}
  }

  ghost function AllFixed(conns: map<nat, Conn>): set<object> {
    set i, o | i in conns && o in Fixed(conns[i]) :: o
  }

  ghost function Footprint(c: Conn): set<object>
    reads Fixed(c)
  {
    Fixed(c) + {c.receiver.buf.data, c.sender.buf.data}
  }

  ghost function Objects(conns: map<nat, Conn>): set<object>
    reads AllFixed(conns)
  {
    set i, o | i in conns && o in Footprint(conns[i]) :: o
  }

  /** No two connections share an object. */
  ghost predicate Apart(conns: map<nat, Conn>)
    reads AllFixed(conns)
  {
    forall i: nat, j: nat :: i in conns && j in conns && i != j ==> Footprint(conns[i]) !! Footprint(conns[j])
  }

  /** The two halves of a connection, by themselves. */
  ghost predicate ConnOk(c: Conn)
    reads Fixed(c), Footprint(c)
  {
    && c.receiver.Valid() && c.receiver.open && c.sender.Valid()
    && c.receiver.buf != c.sender.buf && c.receiver.buf.data != c.sender.buf.data
  }

  ghost predicate AllOk(conns: map<nat, Conn>)
    reads AllFixed(conns), Objects(conns)
  {
    forall i: nat :: i in conns ==> ConnOk(conns[i])
  }

  ghost function Receivers(conns: map<nat, Conn>): set<object> {
    set i | i in conns :: conns[i].receiver as object
  }

  /** What the connections have emitted. */
  ghost function Emitted(conns: map<nat, Conn>): (es: map<nat, seq<Bytes>>)
    reads Receivers(conns)
    ensures es.Keys == conns.Keys
  {
    map i: nat | i in conns :: conns[i].receiver.emitted
  }

  ghost function ViewOf(c: Conn): View
    reads Fixed(c)
  {
    var r, s := c.receiver, c.sender;
    var first := if s.buf.readOff <= s.buf.capacity then Min(s.buf.size, s.buf.capacity - s.buf.readOff) else 0;
    View(r.received, r.emitted, r.buf.capacity, s.stream, s.bytesOut, first, s.buf.size - first, s.buf.capacity,
         if s.state == Open then None else Some(s.closeReason))
  }

  ghost function Views(conns: map<nat, Conn>): (vs: map<nat, View>)
    reads AllFixed(conns)
    ensures vs.Keys == conns.Keys
  {
    map i: nat | i in conns :: ViewOf(conns[i])
  }

  lemma ViewsJoin(conns: map<nat, Conn>, i: nat)
    requires i in conns
    ensures Views(conns) == Views(conns - {i})[i := ViewOf(conns[i])] && i !in Views(conns - {i})
  {
    hide ViewOf;
  }

  // The connections and the tables.

  /** The connections are the ones in use. */
  ghost predicate SlotsAre(hosts: seq<Host>, conns: map<nat, Conn>) {
    forall i: nat :: i in conns <==> i < |hosts| && hosts[i].inUse
  }

  /** What was emitted is what was reported. */
  ghost predicate Linked(trace: seq<Event>, hosts: seq<Host>, es: map<nat, seq<Bytes>>) {
    forall i: nat :: i in es ==> i < |hosts| && Reported(trace, hosts[i].id) == es[i]
  }

  lemma SlotsAfter(before: seq<Host>, after: seq<Host>, conns: map<nat, Conn>, i: nat)
    requires SlotsAre(before, conns) && i in conns && |after| == |before|
    requires forall k :: 0 <= k < |after| && k != i ==> after[k] == before[k]
    ensures i < |after| && SlotsAre(after, if after[i].inUse then conns else conns - {i})
  {
  }

  lemma SlotsMore(before: seq<Host>, after: seq<Host>, conns: map<nat, Conn>, i: nat, c: Conn)
    requires SlotsAre(before, conns) && i < |after| == |before| && !before[i].inUse && after[i].inUse
    requires forall k :: 0 <= k < |after| && k != i ==> after[k] == before[k]
    ensures SlotsAre(after, conns[i := c]) && i !in conns
  {
  }

  lemma SlotsStay(before: seq<Host>, after: seq<Host>, conns: map<nat, Conn>)
    requires SlotsAre(before, conns) && |after| == |before|
    requires forall k :: 0 <= k < |after| ==> after[k].inUse == before[k].inUse
    ensures SlotsAre(after, conns)
  {
  }

  /** A slot in use has an id of its own. */
  ghost predicate OwnId(hosts: seq<Host>, i: nat) {
    i < |hosts| && forall j :: 0 <= j < |hosts| && j != i && hosts[j].inUse ==> hosts[j].id != hosts[i].id
  }

  lemma IdsDiffer(t: TcpTransport, i: nat)
    requires t.Valid() && i < |t.hosts| && t.hosts[i].inUse
    ensures OwnId(t.hosts, i)
  {
    forall j | 0 <= j < |t.hosts| && j != i && t.hosts[j].inUse ensures t.hosts[j].id != t.hosts[i].id {
      InTables(t.hosts, t.slotOf, t.fdToSlot, i);
      InTables(t.hosts, t.slotOf, t.fdToSlot, j);
    }
  }

  /** The others without the one at i, none of which has the id given. */
  ghost predicate Others(hosts: seq<Host>, es: map<nat, seq<Bytes>>, i: nat, id: Id) {
    i !in es && forall j: nat :: j in es ==> j < |hosts| && hosts[j].inUse && hosts[j].id != id
  }

  lemma Unlink(trace: seq<Event>, hosts: seq<Host>, conns: map<nat, Conn>, all: map<nat, seq<Bytes>>,
               es: map<nat, seq<Bytes>>, i: nat)
    requires Linked(trace, hosts, all) && SlotsAre(hosts, conns) && OwnId(hosts, i)
    requires all.Keys == conns.Keys && es.Keys == conns.Keys - {i} && forall j :: j in es ==> es[j] == all[j]
    ensures Linked(trace, hosts, es) && Others(hosts, es, i, hosts[i].id)
  {
    hide Reported;
  }

  lemma NewOthers(hosts: seq<Host>, hosts': seq<Host>, conns: map<nat, Conn>, es: map<nat, seq<Bytes>>, i: nat)
    requires SlotsAre(hosts, conns) && es.Keys == conns.Keys && i < |hosts| == |hosts'| && !hosts[i].inUse
    requires OwnId(hosts', i) && forall k :: 0 <= k < |hosts| && k != i ==> hosts'[k] == hosts[k]
    ensures Others(hosts, es, i, hosts'[i].id)
  {
  }

  /** Serving one connection leaves the others linked. */
  lemma OthersLinked(trace: seq<Event>, hosts: seq<Host>, trace': seq<Event>, hosts': seq<Host>,
                     es: map<nat, seq<Bytes>>, i: nat)
    requires i < |hosts| == |hosts'| && Linked(trace, hosts, es) && Others(hosts, es, i, hosts'[i].id)
    requires forall k :: 0 <= k < |hosts| && k != i ==> hosts'[k] == hosts[k]
    requires forall other: Id :: other != hosts'[i].id ==> Reported(trace', other) == Reported(trace, other)
    ensures Linked(trace', hosts', es)
  {
    hide Reported;
  }

  lemma LinkJoin(trace: seq<Event>, hosts: seq<Host>, es: map<nat, seq<Bytes>>, i: nat)
    requires Linked(trace, hosts, es) && i < |hosts|
    ensures Linked(trace, hosts, es[i := Reported(trace, hosts[i].id)])
  {
    hide Reported;
  }

  // One connection beside the others.

  ghost predicate Within(c: Conn, objects: set<object>)
    reads Fixed(c)
  {
    && c.receiver in objects && c.receiver.buf in objects && c.receiver.buf.data in objects
    && c.sender in objects && c.sender.buf in objects && c.sender.buf.data in objects
  }

  lemma FootprintHolds(c: Conn)
    ensures Within(c, Footprint(c))
  {
  }

  lemma Split(conns: map<nat, Conn>, i: nat)
    requires i in conns
    ensures Objects(conns) == Objects(conns - {i}) + Footprint(conns[i])
    ensures AllFixed(conns) == AllFixed(conns - {i}) + Fixed(conns[i])
  {
    hide Footprint, Fixed;
    var others := conns - {i};
    forall k | k in others ensures k in conns && others[k] == conns[k] {
    }
    forall o | o in Objects(conns) ensures o in Objects(others) + Footprint(conns[i]) {
      var k :| k in conns && o in Footprint(conns[k]);
      assert k != i ==> k in others && others[k] == conns[k];
    }
    forall o | o in AllFixed(conns) ensures o in AllFixed(others) + Fixed(conns[i]) {
      var k :| k in conns && o in Fixed(conns[k]);
      assert k != i ==> k in others && others[k] == conns[k];
    }
  }

  lemma ReceiversJoin(conns: map<nat, Conn>, i: nat)
    requires i in conns
    ensures Receivers(conns) <= Receivers(conns - {i}) + Fixed(conns[i])
  {
    forall o | o in Receivers(conns) ensures o in Receivers(conns - {i}) + Fixed(conns[i]) {
      var k :| k in conns && o == conns[k].receiver;
      assert k != i ==> k in conns - {i} && (conns - {i})[k] == conns[k];
    }
  }

  lemma ObjectsHold(conns: map<nat, Conn>)
    ensures AllFixed(conns) <= Objects(conns) && Receivers(conns) <= Objects(conns)
  {
    forall o | o in AllFixed(conns) ensures o in Objects(conns) {
      var k :| k in conns && o in Fixed(conns[k]);
      InFootprint(conns, k, o);
    }
    forall o | o in Receivers(conns) ensures o in Objects(conns) {
      var k :| k in conns && o == conns[k].receiver;
      InFootprint(conns, k, o);
    }
  }

  lemma NewObjects(c: Conn, before: set<object>, others: set<object>)
    requires before !! others && Fixed(c) <= before
    requires c.receiver.buf.data in before || c.receiver.buf.data !in others
    requires c.sender.buf.data in before || c.sender.buf.data !in others
    ensures Footprint(c) !! others
    ensures forall o :: o in Footprint(c) ==> o in before || o == c.receiver.buf.data || o == c.sender.buf.data
  {
  }

  lemma FootprintIs(c: Conn)
    ensures Footprint(c) == Fixed(c) + {c.receiver.buf.data, c.sender.buf.data}
  {
  }

  lemma InFootprint(conns: map<nat, Conn>, k: nat, o: object)
    requires k in conns && o in Footprint(conns[k])
    ensures o in Objects(conns)
  {
    hide Footprint;
  }

  /** What holds of all connections holds of some of them. */
  lemma FewerStay(conns: map<nat, Conn>, fewer: map<nat, Conn>)
    requires forall i: nat :: i in fewer ==> i in conns && fewer[i] == conns[i]
    ensures AllOk(conns) ==> AllOk(fewer)
    ensures Apart(conns) ==> Apart(fewer)
    ensures AllFixed(fewer) <= AllFixed(conns) && Objects(fewer) <= Objects(conns)
    ensures Receivers(fewer) <= Receivers(conns)
    ensures forall i: nat :: i in fewer ==> i in Emitted(conns) && Emitted(fewer)[i] == Emitted(conns)[i]
    ensures forall i: nat :: i in fewer ==> Maps(Views(conns), i, Views(fewer)[i])
  {
    hide ConnOk, Footprint, Fixed, ViewOf;
  }

  lemma Beside(conns: map<nat, Conn>, i: nat)
    requires AllOk(conns) && Apart(conns) && i in conns
    ensures ConnOk(conns[i]) && AllOk(conns - {i}) && Apart(conns - {i})
    ensures Footprint(conns[i]) !! Objects(conns - {i}) && Within(conns[i], Footprint(conns[i]))
    ensures Fixed(conns[i]) <= Footprint(conns[i])
    ensures Receivers(conns - {i}) <= Receivers(conns)
    ensures Objects(conns) == Objects(conns - {i}) + Footprint(conns[i])
    ensures AllFixed(conns - {i}) <= Objects(conns - {i}) && AllFixed(conns - {i}) <= AllFixed(conns)
    ensures Receivers(conns - {i}) <= Objects(conns - {i})
    ensures forall j: nat :: j in conns - {i} ==> Emitted(conns - {i})[j] == Emitted(conns)[j]
  {
    hide ConnOk;
    FewerStay(conns, conns - {i});
    Split(conns, i);
    ObjectsHold(conns - {i});
    FootprintHolds(conns[i]);
    hide Footprint, Fixed;
    forall o | o in Objects(conns - {i}) ensures o !in Footprint(conns[i]) {
      var k :| k in conns - {i} && o in Footprint((conns - {i})[k]);
      assert k != i && Footprint(conns[k]) !! Footprint(conns[i]);
    }
  }

  lemma Join(conns: map<nat, Conn>, i: nat)
    requires i in conns && AllOk(conns - {i}) && Apart(conns - {i}) && ConnOk(conns[i])
    requires Footprint(conns[i]) !! Objects(conns - {i})
    ensures AllOk(conns) && Apart(conns)
    ensures Objects(conns) == Objects(conns - {i}) + Footprint(conns[i])
    ensures AllFixed(conns) == AllFixed(conns - {i}) + Fixed(conns[i])
    ensures Emitted(conns) == Emitted(conns - {i})[i := conns[i].receiver.emitted]
  {
    hide ConnOk, Footprint, Fixed, AllFixed;
    Split(conns, i);
    forall j: nat | j in conns - {i} ensures Footprint(conns[j]) !! Footprint(conns[i]) {
      assert (conns - {i})[j] == conns[j];
      assert Footprint(conns[j]) <= Objects(conns - {i});
    }
    JoinApart(conns, i);
  }

  lemma JoinApart(conns: map<nat, Conn>, i: nat)
    requires i in conns && AllOk(conns - {i}) && Apart(conns - {i}) && ConnOk(conns[i])
    requires forall j: nat :: j in conns - {i} ==> Footprint(conns[j]) !! Footprint(conns[i])
    ensures AllOk(conns) && Apart(conns)
  {
    hide ConnOk, Footprint, Fixed, AllFixed, Objects;
    var others := conns - {i};
    forall j: nat, k: nat | j in conns && k in conns && j != k ensures Footprint(conns[j]) !! Footprint(conns[k]) {
      if j != i && k != i {
        assert j in others && k in others && others[j] == conns[j] && others[k] == conns[k];
      } else {
        assert (if j == i then k else j) in others;
      }
    }
    forall j: nat | j in conns ensures ConnOk(conns[j]) {
      if j != i {
        assert j in others && others[j] == conns[j];
      }
    }
  }

  lemma {:induction false} TimeoutsReported(trace: seq<Event>, hosts: seq<Host>, now: int, idle: nat, id: Id)
    ensures Reported(trace + Timeouts(hosts, now, idle), id) == Reported(trace, id)
  {
    hide Reported;
    if |hosts| == 0 {
      assert trace + Timeouts(hosts, now, idle) == trace;
    } else {
      var n := |hosts| - 1;
      var before := Timeouts(hosts[..n], now, idle);
      TimeoutsReported(trace, hosts[..n], now, idle, id);
      if Late(hosts[n], now, idle) {
        var e := Disconnected(hosts[n].id, Connections.Timeout);
        ReportedAfter(trace + before, e, id);
        assert trace + Timeouts(hosts, now, idle) == (trace + before) + [e];
      } else {
        assert Timeouts(hosts, now, idle) == before;
      }
    }
  }

  /** A new connection with new buffers. */
  method NewConn(t: TcpTransport, cfd: Handle, recvBuf: nat, sendBuf: nat, now: int) returns (c: Conn, i: nat)
    requires t.Valid() && t.connCount < t.max && cfd !in t.fdToSlot && Some(cfd) != t.listenFd
    requires |t.ids.given| < WORD
    modifies t, t.ids, t.poller
    ensures ConnOk(c) && InStep(t, c.receiver, i) && i < |t.hosts|
    ensures forall o: object :: o in Footprint(c) ==> fresh(o)
    ensures !old(t.hosts)[i].inUse && t.listenFd == old(t.listenFd) && t.past == old(t.past)
    ensures t.connCount == old(t.connCount) + 1 && t.fdToSlot == old(t.fdToSlot)[cfd := i]
    ensures t.hosts[i].lastActive == now && ViewOf(c) == NewView(recvBuf, sendBuf)
    ensures t.ids.given == old(t.ids.given) + [t.hosts[i].id] && t.out == old(t.out) + [Connected(t.hosts[i].id)]
    ensures |t.hosts| == |old(t.hosts)| && forall k :: 0 <= k < |t.hosts| && k != i ==> t.hosts[k] == old(t.hosts)[k]
    ensures forall id: Id :: id != t.hosts[i].id ==> Reported(t.trace, id) == old(Reported(t.trace, id))
  {
    hide StreamsOk, EntriesOk, WatchOk, IdsOk, TablesOk, ReleasedOk, FreeOk, GivenOk, Connects, Reported;
    hide Distinct, OneSlotOk, CutAt, FramesFit, Complete, Oversize, Encode, AllSendable, Conns;
    hide TcpTransport.Valid, Receiver.Valid, Sender.Valid;
    var sender := new Sender(sendBuf);
    var receiver;
    receiver, i := Serving.Accept(t, cfd, recvBuf, now);
    c := Conn(receiver, sender);
    ViewIs(c);
  }

  lemma ManyFixed(conns: map<nat, Conn>, i: nat, c: Conn)
    requires i !in conns
    ensures AllFixed(conns[i := c]) == AllFixed(conns) + Fixed(c)
    ensures Receivers(conns[i := c]) <= Receivers(conns) + Fixed(c)
  {
    AddDrop(conns, i, c);
    Split(conns[i := c], i);
  }

  lemma StayLinked(trace: seq<Event>, hosts: seq<Host>, trace': seq<Event>, hosts': seq<Host>,
                   es: map<nat, seq<Bytes>>, es': map<nat, seq<Bytes>>)
    requires Linked(trace, hosts, es) && |hosts'| == |hosts|
    requires es'.Keys <= es.Keys && forall i :: i in es' ==> es'[i] == es[i]
    requires forall i :: 0 <= i < |hosts| ==> hosts'[i].id == hosts[i].id
    requires forall id: Id :: Reported(trace', id) == Reported(trace, id)
    ensures Linked(trace', hosts', es')
  {
    hide Reported;
  }

  /** What a ready connection receives, as the table of the server shows it. */
  method ReceiveOne(t: TcpTransport, c: Conn, i: nat, script: seq<RecvOutcome>, now: int)
    returns (ghost events: seq<Event>, ghost end: Option<Reason>, ghost rooms: seq<nat>)
    requires InStep(t, c.receiver, i) && ConnOk(c)
    modifies t, t.ids, t.poller, c.receiver, c.receiver.buf, c.receiver.buf.data
    ensures t.Valid() && (end == None ==> ConnOk(c)) && Reported(t.trace, t.hosts[i].id) == c.receiver.emitted
    ensures t.hosts[i].inUse <==> end == None
    ensures c.receiver.buf.data == old(c.receiver.buf.data) || fresh(c.receiver.buf.data)
    ensures t.ids.given == old(t.ids.given) && t.listenFd == old(t.listenFd) && t.past == old(t.past)
    ensures t.hosts[i].id == old(t.hosts[i].id) && t.hosts[i].fd == old(t.hosts[i].fd)
    ensures t.fdToSlot == if end == None then old(t.fdToSlot) else old(t.fdToSlot) - {t.hosts[i].fd}
    ensures t.out == old(t.out) + events && (end == None <==> c.receiver.open)
    ensures Receives(Known(t.hosts[i].id, old(t.hosts[i].lastActive), old(ViewOf(c))),
                     Known(t.hosts[i].id, t.hosts[i].lastActive, ViewOf(c)), end, script, rooms, now, events)
    ensures forall id: Id :: id != t.hosts[i].id ==> Reported(t.trace, id) == old(Reported(t.trace, id))
    ensures |t.hosts| == |old(t.hosts)| && forall k :: 0 <= k < |t.hosts| && k != i ==> t.hosts[k] == old(t.hosts)[k]
  {
    hide Reported, TcpTransport.Valid, Receiver.Valid, Sender.Valid, PendingBytes, LeftAfter, RoomsIn, EndsWith;
    hide Packets, Distinct;
    var r := c.receiver;
    ghost var received, emitted, id := r.received, r.emitted, t.hosts[i].id;
    ghost var rest;
    rest, rooms := Serving.ProcessRecv(t, r, i, script, now);
    end := if r.open then None else Some(r.closeReason);
    events := Packets(id, r.emitted[|emitted|..]) + EndEvents(id, end);
    ReportedIsParse(t, r, i);
    BytesCame(received, r.received, PendingBytes(script), PendingBytes(rest));
  }

  lemma ViewIs(c: Conn)
    requires c.sender.Valid()
    ensures var r, s := c.receiver, c.sender;
            && s.bytesOut + s.buf.size == |s.stream|
            && ViewOf(c) == View(r.received, r.emitted, r.buf.capacity, s.stream, s.bytesOut, s.buf.First(),
                                 s.buf.size - s.buf.First(), s.buf.capacity,
                                 if s.state == Open then None else Some(s.closeReason))
  {
    hide Encode, AllSendable;
  }

  /** What a ready connection sends, as the table of the server shows it. */
  method SendOne(t: TcpTransport, c: Conn, i: nat, script: seq<SendOutcome>) returns (ghost events: seq<Event>)
    requires InStep(t, c.receiver, i) && ConnOk(c)
    modifies t, t.ids, t.poller, c.sender`bytesOut, c.sender`errors, c.sender`finSent
    modifies c.sender.buf`readOff, c.sender.buf`size
    ensures t.Valid() && ConnOk(c) && Reported(t.trace, t.hosts[i].id) == c.receiver.emitted
    ensures t.ids.given == old(t.ids.given) && t.listenFd == old(t.listenFd) && t.past == old(t.past)
    ensures t.hosts[i].id == old(t.hosts[i].id) && (t.hosts[i].inUse <==> c.sender.state == Open)
    ensures t.fdToSlot == if c.sender.state == Open then old(t.fdToSlot) else old(t.fdToSlot) - {old(t.hosts[i].fd)}
    ensures t.out == old(t.out) + events
    ensures Sends(Known(t.hosts[i].id, old(t.hosts[i].lastActive), old(ViewOf(c))),
                  Known(t.hosts[i].id, t.hosts[i].lastActive, ViewOf(c)), script, events)
    ensures forall id: Id :: Reported(t.trace, id) == old(Reported(t.trace, id))
    ensures |t.hosts| == |old(t.hosts)| && forall k :: 0 <= k < |t.hosts| && k != i ==> t.hosts[k] == old(t.hosts)[k]
  {
    hide Reported, TcpTransport.Valid, Receiver.Valid, Sender.Valid, RingBuffer.Valid, RingBuffer.First, Sent, TakesAll;
    hide Distinct, Sends, ViewOf;
    var s := c.sender;
    ViewIs(c);
    ghost var id, v := t.hosts[i].id, ViewOf(c);
    ghost var wire := Serving.ProcessSend(t, s, i, script);
    events := if s.state != Open then [Disconnected(id, s.closeReason)]
              else if s.bytesOut == |s.stream| then [SendDrained(id)] else [];
    ViewIs(c);
    SendsIs(id, t.hosts[i].lastActive, v, ViewOf(c), |wire|, script, events);
  }

  method SendBy(c: Conn, payload: Bytes) returns (r: SendResult)
    requires ConnOk(c)
    modifies c.sender`packetsOut, c.sender`accepted, c.sender`stream, c.sender.buf, c.sender.buf.data
    ensures ConnOk(c) && (c.sender.buf.data == old(c.sender.buf.data) || fresh(c.sender.buf.data))
    ensures c.sender.accepted == old(c.sender.accepted) + if r == Ok && payload != [] then [payload] else []
    ensures Queues(old(ViewOf(c)), ViewOf(c), payload, r)
  {
    hide Encode, AllSendable, Receiver.Valid, Span, Wrap;
    ViewIs(c);
    r := c.sender.Send(payload);
    ViewIs(c);
  }

  method CloseBy(c: Conn, reason: CloseReason)
    requires ConnOk(c)
    modifies c.sender`state, c.sender`closeReason
    ensures ConnOk(c)
    ensures var v := old(ViewOf(c));
            ViewOf(c) == if v.closing.Some? then v else v.(closing := Some(reason))
  {
    hide Receiver.Valid;
    c.sender.Close(reason);
  }

  /** The first part of a round; inline in the source's Poll. */
  method Begin(t: TcpTransport, need: seq<bool>)
    requires t.Valid() && |need| == |t.hosts|
    modifies t`out, t`past, t`hosts, t.poller
    ensures t.Valid() && t.past == t.trace && t.out == [] && SameConns(old(t.hosts), t.hosts)
    ensures forall i :: 0 <= i < |t.hosts| ==>
              t.hosts[i].inUse == old(t.hosts)[i].inUse && t.hosts[i].lastActive == old(t.hosts)[i].lastActive
  {
    hide StreamsOk, EntriesOk, WatchOk, IdsOk, TablesOk, ReleasedOk, FreeOk, GivenOk, Connects, Distinct, OneSlotOk;
    t.out, t.past := [], t.trace;
    t.SyncWants(need);
  }

  class Server {
    const t: TcpTransport
    const recvBuf: nat
    const sendBuf: nat
    /** The connections by their slot. */
    var conns: map<nat, Conn>
    ghost var repr: set<object>

    ghost predicate Owns()
      reads this
    {
      && this in repr && t in repr && t.ids in repr && t.poller in repr
      && AllFixed(conns) <= repr && Receivers(conns) <= repr
    }

    ghost predicate Valid()
      reads this, repr
    {
      && Owns() && Objects(conns) <= repr && {this, t, t.ids, t.poller} !! Objects(conns)
      && Apart(conns) && AllOk(conns)
      && t.Valid() && SlotsAre(t.hosts, conns) && Linked(t.trace, t.hosts, Emitted(conns))
    }

    /** The connections by their handle. */
    ghost function Table(): map<Handle, Known>
      reads this, t, AllFixed(conns)
    {
      TableOf(t.hosts, t.fdToSlot, Views(conns))
    }

    constructor (max: nat, idle: nat, recvBuf: nat, sendBuf: nat)
      requires max < WORD
      ensures Valid() && fresh(repr) && t.max == max && t.idle == idle && conns == map[] && |t.ids.given| == 0
      ensures this.recvBuf == recvBuf && this.sendBuf == sendBuf && Table() == map[]
    {
      hide StreamsOk, EntriesOk, WatchOk, IdsOk, TablesOk, ReleasedOk, FreeOk, GivenOk, Connects, Reported;
      hide Footprint, Fixed, AllFixed, Objects, Apart, AllOk, Emitted, Linked, Receivers, TcpTransport.Valid;
      t := new TcpTransport(max, idle);
      this.recvBuf, this.sendBuf := recvBuf, sendBuf;
      conns := map[];
      new;
      repr := {this, t, t.ids, t.poller};
      NoneInUse(t);
      NoConns(t.trace, t.hosts);
    }

    lemma ConnInStep(i: nat)
      requires Valid() && i in conns
      ensures InStep(t, conns[i].receiver, i) && t.hosts[i].inUse
    {
      hide Reported;
      assert ConnOk(conns[i]) && i in Emitted(conns);
    }

    /** What is reported of every open connection is what its bytes read as, however they came in. */
    lemma AllReportedIsParse(i: nat)
      requires Valid() && i in conns
      ensures Reported(t.trace, t.hosts[i].id) == Parse(conns[i].receiver.received).frames
    {
      ConnInStep(i);
      ReportedIsParse(t, conns[i].receiver, i);
    }

    /** The line of a connection in the table. */
    lemma LineIs(i: nat)
      requires Valid() && i in conns
      ensures i < |t.hosts| && OneHandle(t.fdToSlot, i, t.hosts[i].fd) && i !in Views(conns - {i})
      ensures Table() == TableOf(t.hosts, t.fdToSlot, Views(conns - {i})[i := ViewOf(conns[i])])
    {
      hide StreamsOk, EntriesOk, WatchOk, IdsOk, TablesOk, ReleasedOk, FreeOk, GivenOk, Connects, Reported;
      hide Footprint, Fixed, AllFixed, Objects, Apart, AllOk, Emitted, Linked, Receivers, Views, ViewOf;
      hide OneHandle, TableOf;
      HandleOf(t.hosts, t.slotOf, t.fdToSlot, i);
      ViewsJoin(conns, i);
    }

    /** One connection apart from the others. */
    lemma Opened(i: nat)
      requires Valid() && i in conns
      ensures InStep(t, conns[i].receiver, i) && ConnOk(conns[i]) && i < |t.hosts| && t.hosts[i].inUse
      ensures OneHandle(t.fdToSlot, i, t.hosts[i].fd) && i !in Views(conns - {i})
      ensures Table() == TableOf(t.hosts, t.fdToSlot, Views(conns - {i})[i := ViewOf(conns[i])])
      ensures SlotsAre(t.hosts, conns) && AllOk(conns - {i}) && Apart(conns - {i})
      ensures Linked(t.trace, t.hosts, Emitted(conns - {i}))
      ensures Others(t.hosts, Emitted(conns - {i}), i, t.hosts[i].id)
      ensures Owns() && Objects(conns - {i}) + Footprint(conns[i]) <= repr
      ensures {this, t, t.ids, t.poller} !! Objects(conns - {i}) + Footprint(conns[i])
      ensures Footprint(conns[i]) !! Objects(conns - {i}) && Within(conns[i], Footprint(conns[i]))
      ensures Fixed(conns[i]) <= Footprint(conns[i])
      ensures AllFixed(conns - {i}) <= Objects(conns - {i}) && Receivers(conns - {i}) <= Objects(conns - {i})
    {
      hide StreamsOk, EntriesOk, WatchOk, IdsOk, TablesOk, ReleasedOk, FreeOk, GivenOk, Connects, Reported;
      hide Footprint, Fixed, AllFixed, Objects, Apart, AllOk, Emitted, Linked, SlotsAre, OwnId, Others, Receivers;
      hide TcpTransport.Valid, Receiver.Valid, Sender.Valid, Views, TableOf, OneHandle, ViewOf;
      ConnInStep(i);
      Beside(conns, i);
      IdsDiffer(t, i);
      Unlink(t.trace, t.hosts, conns, Emitted(conns), Emitted(conns - {i}), i);
      LineIs(i);
    }

    /** After one connection was served: the others are as they were, and it is as it must be or gone. */
    lemma Restored(was: map<nat, Conn>, i: nat, theirs: set<object>)
      requires i in was && t.Valid() && i < |t.hosts| && conns == (if t.hosts[i].inUse then was else was - {i})
      requires AllOk(was - {i}) && Apart(was - {i}) && Objects(was - {i}) == theirs && SlotsAre(t.hosts, conns)
      requires Linked(t.trace, t.hosts, Emitted(was - {i}))
      requires Owns() && AllFixed(was) <= repr && Receivers(was) <= repr
      requires theirs + Footprint(was[i]) <= repr && {this, t, t.ids, t.poller} !! theirs + Footprint(was[i])
      requires Footprint(was[i]) !! theirs
      requires t.hosts[i].inUse ==> ConnOk(was[i]) && Reported(t.trace, t.hosts[i].id) == was[i].receiver.emitted
      ensures Valid()
    {
      hide StreamsOk, EntriesOk, WatchOk, IdsOk, TablesOk, ReleasedOk, FreeOk, GivenOk, Connects, Reported;
      hide Footprint, Fixed, AllFixed, Objects, Apart, AllOk, Emitted, Linked, SlotsAre, Receivers, ConnOk;
      if t.hosts[i].inUse {
        LinkJoin(t.trace, t.hosts, Emitted(was - {i}), i);
        Join(was, i);
      }
    }

    /** A connection that was served goes back among the others, which are as they were, or is dropped. */
    method Rejoin(i: nat, open: bool, ghost trace: seq<Event>, ghost hosts: seq<Host>)
      requires i in conns && i < |hosts| == |t.hosts| && t.Valid() && (open <==> t.hosts[i].inUse)
      requires forall k :: 0 <= k < |hosts| && k != i ==> t.hosts[k] == hosts[k]
      requires forall id: Id :: id != t.hosts[i].id ==> Reported(t.trace, id) == Reported(trace, id)
      requires SlotsAre(t.hosts, if open then conns else conns - {i}) && AllOk(conns - {i}) && Apart(conns - {i})
      requires Linked(trace, hosts, Emitted(conns - {i})) && Others(hosts, Emitted(conns - {i}), i, t.hosts[i].id)
      requires {this, t, t.ids, t.poller} <= repr && Objects(conns - {i}) <= repr
      requires {this, t, t.ids, t.poller} !! Objects(conns - {i}) + Footprint(conns[i])
      requires Footprint(conns[i]) !! Objects(conns - {i})
      requires open ==> ConnOk(conns[i]) && Reported(t.trace, t.hosts[i].id) == conns[i].receiver.emitted
      modifies this`conns, this`repr
      ensures Valid() && repr == old(repr + Footprint(conns[i]))
      ensures conns == if open then old(conns) else old(conns) - {i}
      ensures Table() == TableOf(t.hosts, t.fdToSlot, if open then old(Views(conns - {i})[i := ViewOf(conns[i])])
                                                      else old(Views(conns - {i})))
    {
      hide StreamsOk, EntriesOk, WatchOk, IdsOk, TablesOk, ReleasedOk, FreeOk, GivenOk, Connects, Reported;
      hide Footprint, Fixed, AllFixed, Objects, Apart, AllOk, Emitted, Linked, SlotsAre, OwnId, Others, Receivers;
      hide TcpTransport.Valid, Receiver.Valid, Sender.Valid, Views, TableOf, OneHandle, ViewOf, ConnOk;
      ghost var was: map<nat, Conn>, theirs := conns, Objects(conns - {i});
      ObjectsHold(was - {i});
      Split(was, i);
      FixedWithin(was[i]);
      ReceiversJoin(was, i);
      OthersLinked(trace, hosts, t.trace, t.hosts, Emitted(was - {i}), i);
      repr := repr + Footprint(conns[i]);
      if !open {
        conns := conns - {i};
      }
      Restored(was, i, theirs);
      ViewsJoin(was, i);
    }

    /** What a ready connection receives; the connection is dropped if it ended. */
    method Receive(i: nat, script: seq<RecvOutcome>, now: int) returns (ghost events: seq<Event>)
      requires Valid() && i in conns
      modifies this, t, t.ids, t.poller, Footprint(conns[i])
      ensures Valid() && fresh(repr - old(repr)) && t.listenFd == old(t.listenFd) && t.past == old(t.past)
      ensures conns == (if i in conns then old(conns) else old(conns) - {i}) && t.ids.given == old(t.ids.given)
      ensures t.out == old(t.out) + events
      ensures ReadsFrom(old(t.hosts)[i].fd, script, now, old(Table()), Table(), events)
      ensures t.fdToSlot == if i in conns then old(t.fdToSlot) else old(t.fdToSlot) - {old(t.hosts)[i].fd}
    {
      hide StreamsOk, EntriesOk, WatchOk, IdsOk, TablesOk, ReleasedOk, FreeOk, GivenOk, Connects, Reported;
      hide Distinct, OneSlotOk, CutAt, FramesFit, Complete, Oversize, Encode, AllSendable, PendingBytes, Packets;
      hide Footprint, Fixed, AllFixed, Objects, Apart, AllOk, Emitted, Linked, SlotsAre, OwnId, Others, Receivers;
      hide TcpTransport.Valid, Receiver.Valid, Sender.Valid, Views, TableOf, OneHandle, ViewOf, Receives, ReadsFrom;
      var c := conns[i];
      ghost var others, mine := conns - {i}, Footprint(c);
      Opened(i);
      ghost var trace, hosts, es, theirs := t.trace, t.hosts, Emitted(others), Objects(others);
      ghost var fd, handles, vs, v := t.hosts[i].fd, t.fdToSlot, Views(others), ViewOf(c);
      ghost var end, rooms;
      events, end, rooms := ReceiveOne(t, c, i, script, now);
      assert Views(others) == vs && Emitted(others) == es && Objects(others) == theirs;
      NewObjects(c, mine, theirs);
      LineRead(hosts, t.hosts, handles, fd, vs, i, v, ViewOf(c), end, script, rooms, now, events);
      SlotsAfter(hosts, t.hosts, conns, i);
      Rejoin(i, c.receiver.open, trace, hosts);
    }

    /** What a ready connection sends; it is dropped if a close was asked for, drained or not. */
    method Send(i: nat, script: seq<SendOutcome>) returns (ghost events: seq<Event>)
      requires Valid() && i in conns
      modifies this, t, t.ids, t.poller, Footprint(conns[i])
      ensures Valid() && fresh(repr - old(repr)) && t.listenFd == old(t.listenFd) && t.past == old(t.past)
      ensures conns == (if old(conns[i].sender.state) == Open then old(conns) else old(conns) - {i})
      ensures t.ids.given == old(t.ids.given) && t.out == old(t.out) + events
      ensures WritesTo(old(t.hosts)[i].fd, script, old(Table()), Table(), events)
    {
      hide StreamsOk, EntriesOk, WatchOk, IdsOk, TablesOk, ReleasedOk, FreeOk, GivenOk, Connects, Reported;
      hide Distinct, OneSlotOk, CutAt, FramesFit, Complete, Oversize, Encode, AllSendable, Sent, TakesAll;
      hide Footprint, Fixed, AllFixed, Objects, Apart, AllOk, Emitted, Linked, SlotsAre, OwnId, Others, Receivers;
      hide TcpTransport.Valid, Receiver.Valid, Sender.Valid, Views, TableOf, OneHandle, Sends, WritesTo;
      var c := conns[i];
      ghost var others, mine := conns - {i}, Footprint(c);
      Opened(i);
      FootprintIs(c);
      ghost var trace, hosts, es, theirs := t.trace, t.hosts, Emitted(others), Objects(others);
      ghost var fd, handles, vs, v := t.hosts[i].fd, t.fdToSlot, Views(others), ViewOf(c);
      events := SendOne(t, c, i, script);
      assert Views(others) == vs && Emitted(others) == es && Objects(others) == theirs;
      FootprintIs(c);
      assert Footprint(c) == mine;
      LineWritten(hosts, t.hosts, handles, fd, vs, i, v, ViewOf(c), script, events);
      SlotsAfter(hosts, t.hosts, conns, i);
      Rejoin(i, c.sender.state == Open, trace, hosts);
    }

    /** A ready connection that failed. */
    method Fail(i: nat) returns (ghost events: seq<Event>)
      requires Valid() && i in conns
      modifies this, t, t.ids, t.poller
      ensures Valid() && fresh(repr - old(repr)) && t.listenFd == old(t.listenFd) && t.past == old(t.past)
      ensures conns == old(conns) - {i} && t.ids.given == old(t.ids.given) && t.out == old(t.out) + events
      ensures var fd := old(t.hosts)[i].fd;
              && fd in old(Table()) && Table() == old(Table()) - {fd}
              && events == [Disconnected(old(Table())[fd].id, Connections.Error)]
    {
      hide StreamsOk, EntriesOk, WatchOk, IdsOk, TablesOk, ReleasedOk, FreeOk, GivenOk, Connects, Reported;
      hide Distinct, OneSlotOk, CutAt, FramesFit, Complete, Oversize, Encode, AllSendable;
      hide Footprint, Fixed, AllFixed, Objects, Apart, AllOk, Emitted, Linked, SlotsAre, OwnId, Others, Receivers;
      hide Receiver.Valid, Sender.Valid, Views, TableOf, OneHandle, ViewOf;
      var c := conns[i];
      ghost var others, mine := conns - {i}, Footprint(c);
      Opened(i);
      ghost var trace, hosts, es, theirs := t.trace, t.hosts, Emitted(others), Objects(others);
      ghost var fd, handles, vs, v := t.hosts[i].fd, t.fdToSlot, Views(others), ViewOf(c);
      events := [Disconnected(t.hosts[i].id, Connections.Error)];
      t.RemoveConnection(i, Connections.Error);
      assert t.trace == trace + events;
      forall other: Id ensures Reported(t.trace, other) == Reported(trace, other) {
        ReportedAfter(trace, events[0], other);
      }
      assert Views(others) == vs && Emitted(others) == es && Objects(others) == theirs && ViewOf(c) == v;
      NewObjects(c, mine, theirs);
      LineChanges(hosts, hosts, handles, fd, vs, i, v, v);
      LineGoes(hosts, t.hosts, handles, fd, vs, i, v);
      SlotsAfter(hosts, t.hosts, conns, i);
      Rejoin(i, false, trace, hosts);
    }

    /** A connection that comes in, with new buffers. */
    method Accept(cfd: Handle, now: int) returns (ghost id: Id)
      requires Valid() && t.connCount < t.max && cfd !in t.fdToSlot && Some(cfd) != t.listenFd
      requires |t.ids.given| < WORD
      modifies this, t, t.ids, t.poller
      ensures Valid() && fresh(repr - old(repr)) && t.listenFd == old(t.listenFd) && t.past == old(t.past)
      ensures t.connCount == old(t.connCount) + 1 && t.fdToSlot.Keys == old(t.fdToSlot).Keys + {cfd}
      ensures t.ids.given == old(t.ids.given) + [id] && t.out == old(t.out) + [Connected(id)]
      ensures Table() == old(Table())[cfd := Known(id, now, NewView(recvBuf, sendBuf))]
    {
      hide StreamsOk, EntriesOk, WatchOk, IdsOk, TablesOk, ReleasedOk, FreeOk, GivenOk, Connects, Reported;
      hide Distinct, OneSlotOk, CutAt, FramesFit, Complete, Oversize, Encode, AllSendable, TableOf, Views, ViewOf;
      hide Footprint, Fixed, AllFixed, Objects, Apart, AllOk, Emitted, Linked, SlotsAre, OwnId, Others, Receivers;
      hide TcpTransport.Valid, Receiver.Valid, Sender.Valid;
      ghost var was, trace, hosts, es, theirs := conns, t.trace, t.hosts, Emitted(conns), Objects(conns);
      ghost var handles, vs := t.fdToSlot, Views(conns);
      ObjectsHold(conns);
      FreeSlots();
      var c, i := NewConn(t, cfd, recvBuf, sendBuf, now);
      assert Views(was) == vs && Emitted(was) == es && Objects(was) == theirs;
      id := t.hosts[i].id;
      IdsDiffer(t, i);
      FixedWithin(c);
      SlotsMore(hosts, t.hosts, was, i, c);
      NewOthers(hosts, t.hosts, was, es, i);
      AddDrop(was, i, c);
      ManyFixed(was, i, c);
      ghost var line := Known(id, now, NewView(recvBuf, sendBuf));
      LineAdded(hosts, t.hosts, handles, cfd, vs, i, line.view);
      conns := conns[i := c];
      assert conns - {i} == was && Views(was) == vs && ViewOf(c) == line.view;
      Rejoin(i, true, trace, hosts);
    }

    lemma FreeSlots()
      requires Valid()
      ensures forall i, fd :: 0 <= i < |t.hosts| && !t.hosts[i].inUse && fd in t.fdToSlot ==> t.fdToSlot[fd] != i
    {
      hide StreamsOk, EntriesOk, WatchOk, IdsOk, ReleasedOk, FreeOk, GivenOk, Connects, Reported, Distinct, OneSlotOk;
      hide Footprint, Fixed, AllFixed, Objects, Apart, AllOk, Emitted, Linked, SlotsAre, OwnId, Others, Receivers;
    }

    /** The connections no longer in use are dropped; the others are as they were. */
    method Drop(ghost kept: map<nat, Conn>)
      requires Owns() && t.Valid() && kept == InUse(t.hosts, conns) && SlotsAre(t.hosts, kept)
      requires AllOk(kept) && Apart(kept) && Linked(t.trace, t.hosts, Emitted(kept))
      requires AllFixed(kept) <= repr && Receivers(kept) <= repr && AllFixed(kept) + Receivers(kept) <= Objects(kept)
      requires Objects(kept) <= repr && {this, t, t.ids, t.poller} !! Objects(kept)
      modifies this`conns
      ensures Valid() && repr == old(repr) && Table() == TableOf(t.hosts, t.fdToSlot, old(Views(kept)))
      ensures Viewed(t.hosts, old(Views(kept)))
    {
      hide StreamsOk, EntriesOk, WatchOk, IdsOk, TablesOk, ReleasedOk, FreeOk, GivenOk, Connects, Reported;
      hide Footprint, Fixed, AllFixed, Objects, Apart, AllOk, Emitted, Linked, SlotsAre, Receivers, InUse, Views;
      hide TcpTransport.Valid, Receiver.Valid, Sender.Valid, Viewed, TableOf;
      ViewsAre(t.hosts, kept);
      conns := InUse(t.hosts, conns);
    }

    /** Connections that were idle for too long are dropped. */
    method DropIdle(now: int) returns (ghost events: seq<Event>)
      requires Valid()
      modifies this, t, t.ids, t.poller
      ensures Valid() && repr == old(repr) && t.listenFd == old(t.listenFd) && t.past == old(t.past)
      ensures t.ids.given == old(t.ids.given) && t.out == old(t.out) + events
      ensures TimesOut(now, t.idle, old(Table()), Table(), events)
    {
      hide StreamsOk, EntriesOk, WatchOk, IdsOk, TablesOk, ReleasedOk, FreeOk, GivenOk, Connects, Reported;
      hide Distinct, OneSlotOk, CutAt, FramesFit, Complete, Oversize, Encode, AllSendable;
      hide Footprint, Fixed, AllFixed, Objects, Apart, AllOk, Emitted, Linked, SlotsAre, OwnId, Others, Receivers;
      hide Swept, Late, Kept, InUse, Views, TableOf, Viewed, TimesOut, Timeouts;
      hide TcpTransport.Valid, Receiver.Valid, Sender.Valid;
      ghost var was, trace, hosts, es := conns, t.trace, t.hosts, Emitted(conns);
      ghost var kept := Kept(hosts, conns, now, t.idle);
      KeptIsPart(hosts, conns, now, t.idle);
      FewerStay(conns, kept);
      ObjectsHold(kept);
      TablesAre(t);
      ViewsAre(hosts, conns);
      ghost var es', vs, vs', ids, handles := Emitted(kept), Views(conns), Views(kept), t.slotOf, t.fdToSlot;
      TraceIs(t);
      t.CheckIdleTimeouts(now);
      assert Views(kept) == vs' && Emitted(kept) == es';
      TraceIs(t);
      TablesAre(t);
      KeptAre(hosts, t.hosts, was, now, t.idle);
      events := Timeouts(hosts, now, t.idle);
      assert t.trace == trace + events;
      forall id: Id ensures Reported(t.trace, id) == Reported(trace, id) {
        TimeoutsReported(trace, hosts, now, t.idle, id);
      }
      SweptIds(hosts, t.hosts, now, t.idle);
      StayLinked(trace, hosts, t.trace, t.hosts, es, es');
      Drop(kept);
      SweptTable(hosts, t.hosts, ids, handles, t.slotOf, t.fdToSlot, vs, vs', now, t.idle);
    }

    /** What every connection waits for is brought up to date, and the answer of the round before is dropped. */
    method StartRound()
      requires Valid()
      modifies this, t, t.ids, t.poller
      ensures Valid() && repr == old(repr) && conns == old(conns) && t.listenFd == old(t.listenFd)
      ensures t.trace == old(t.trace) == t.past && t.out == [] && t.ids.given == old(t.ids.given)
      ensures t.connCount == old(t.connCount) && t.fdToSlot == old(t.fdToSlot) && Table() == old(Table())
    {
      hide StreamsOk, EntriesOk, WatchOk, IdsOk, TablesOk, ReleasedOk, FreeOk, GivenOk, Connects, Reported;
      hide Footprint, Fixed, AllFixed, Objects, Apart, AllOk, Emitted, Linked, SlotsAre, OwnId, Others, Receivers;
      hide TcpTransport.Valid, Receiver.Valid, Sender.Valid, Views, TableOf;
      ObjectsHold(conns);
      ghost var hosts, es, vs, all := t.hosts, Emitted(conns), Views(conns), Objects(conns);
      var need := WantsWrite();
      Begin(t, need);
      assert Views(conns) == vs && Emitted(conns) == es && Objects(conns) == all;
      SlotsStay(hosts, t.hosts, conns);
      StayLinked(t.trace, hosts, t.trace, t.hosts, es, es);
      LinesStay(hosts, t.hosts, t.fdToSlot, vs);
    }

    /** Whether each connection in use waits for writing. */
    method WantsWrite() returns (need: seq<bool>)
      ensures |need| == |t.hosts|
      ensures forall i :: 0 <= i < |need| && i in conns ==> (need[i] <==> conns[i].NeedsWrite())
    {
      need := [];
      for i := 0 to |t.hosts|
        invariant |need| == i
        invariant forall k :: 0 <= k < i && k in conns ==> (need[k] <==> conns[k].NeedsWrite())
      {
        need := need + [i in conns && conns[i].NeedsWrite()];
      }
    }

    /** The objects of a connection are those of the server. */
    lemma OwnsConn(i: nat)
      requires Valid() && i in conns
      ensures Footprint(conns[i]) <= repr
    {
      hide Footprint, Fixed, Apart, AllOk, Emitted, Linked, SlotsAre;
    }

    /** The table has a line for every handle that is known, and no other. */
    lemma KnownHandles()
      requires Valid()
      ensures Table().Keys == t.fdToSlot.Keys
    {
      hide Footprint, Fixed, AllFixed, Objects, Apart, AllOk, Emitted, Linked, Receivers, TableOf, Views;
      TableIs(t.hosts, t.slotOf, t.fdToSlot, Views(conns));
    }

    lemma KnownHandle(fd: Handle)
      requires Valid() && fd in t.fdToSlot
      ensures t.fdToSlot[fd] in conns && t.fdToSlot[fd] < |t.hosts| && t.hosts[t.fdToSlot[fd]].fd == fd
    {
      hide Footprint, Fixed, AllFixed, Objects, Apart, AllOk, Emitted, Linked, Receivers;
      KnownConn(t.hosts, t.slotOf, t.fdToSlot, fd);
    }

    /** One ready handle. */
    method Serve(signal: Signal, now: int) returns (ghost events: seq<Event>)
      requires Valid()
      modifies repr
      ensures Valid() && fresh(repr - old(repr)) && t.listenFd == old(t.listenFd) && t.past == old(t.past)
      ensures t.ids.given == old(t.ids.given) && t.out == old(t.out) + events
      ensures Serves(signal, t.listenFd, now, old(Table()), Table(), events)
    {
      hide StreamsOk, EntriesOk, WatchOk, IdsOk, TablesOk, ReleasedOk, FreeOk, GivenOk, Connects, Reported;
      hide Footprint, Fixed, AllFixed, Objects, Apart, AllOk, Emitted, Linked, SlotsAre, OwnId, Others, Receivers;
      hide TcpTransport.Valid, Receiver.Valid, Sender.Valid, Distinct, OneSlotOk, Table, ReadsFrom, WritesTo;
      KnownHandles();
      if Some(signal.fd) == t.listenFd || signal.fd !in t.fdToSlot {
        return [];
      }
      var i := t.fdToSlot[signal.fd];
      KnownHandle(signal.fd);
      if signal.failed {
        events := Fail(i);
        return;
      }
      ghost var before, got, sent := Table(), [], [];
      if signal.readable {
        OwnsConn(i);
        got := Receive(i, signal.recv, now);
        KnownHandles();
      }
      ghost var middle := Table();
      if signal.writable && i in conns {
        KnownHandle(signal.fd);
        OwnsConn(i);
        sent := Send(i, signal.send);
      }
      events := got + sent;
      assert Transfers(signal, now, before, middle, Table(), got, sent);
    }

    lemma CountIsWithin()
      requires Valid()
      ensures t.connCount <= t.max && {this, t, t.ids, t.poller} <= repr
    {
      hide StreamsOk, EntriesOk, WatchOk, IdsOk, TablesOk, ReleasedOk, FreeOk, GivenOk, Connects, Reported;
      hide Footprint, Fixed, AllFixed, Objects, Apart, AllOk, Emitted, Linked, SlotsAre, OwnId, Others, Receivers;
      OneCount(t);
    }

    /** Connections are let in up to the limit; the system hands out handles that are not open. */
    method AcceptAll(incoming: seq<Handle>, now: int) returns (ghost events: seq<Event>)
      requires Valid() && |t.ids.given| + Admitted(t.connCount, |incoming|, t.max) <= WORD
      requires forall k :: 0 <= k < |incoming| ==> incoming[k] !in t.fdToSlot && Some(incoming[k]) != t.listenFd
      requires forall j, k :: 0 <= j < k < |incoming| && j < t.max - t.connCount ==> incoming[j] != incoming[k]
      modifies repr
      ensures Valid() && fresh(repr - old(repr)) && t.listenFd == old(t.listenFd) && t.past == old(t.past)
      ensures t.connCount == Min(old(t.connCount) + |incoming|, t.max) && t.out == old(t.out) + events
      ensures old(t.connCount) <= t.connCount
      ensures LetIn(incoming[..t.connCount - old(t.connCount)], now, NewView(recvBuf, sendBuf), old(Table()), Table(),
                    events)
    {
      hide Valid, Table, LetIn, NewView, TcpTransport.Valid;
      CountIsWithin();
      events := [];
      ghost var n, before, view := 0, Table(), NewView(recvBuf, sendBuf);
      NoneLetIn(now, view, before);
      assert incoming[..0] == [];
      for k := 0 to |incoming|
        invariant Valid() && fresh(repr - old(repr)) && t.listenFd == old(t.listenFd) && t.past == old(t.past)
        invariant |t.ids.given| + old(t.connCount) <= |old(t.ids.given)| + t.connCount
        invariant t.connCount == Min(old(t.connCount) + k, t.max) == old(t.connCount) + n && n <= k
        invariant forall m :: k <= m < |incoming| ==> incoming[m] !in t.fdToSlot
        invariant LetIn(incoming[..n], now, view, before, Table(), events) && t.out == old(t.out) + events
      {
        if t.connCount < t.max {
          KnownHandles();
          CountIsWithin();
          ghost var middle := Table();
          ghost var id := Accept(incoming[k], now);
          OneLetIn(incoming[..n], now, view, before, middle, events, incoming[k], id);
          assert incoming[..n + 1] == incoming[..n] + [incoming[n]];
          events, n := events + [Connected(id)], n + 1;
        }
      }
    }

    /**
     * One round: the connections that come in, the ready ones in order, the idle ones. The answer holds the events
     * of each of these steps, and the ghost results say which and what the tables are in between. Valid says that
     * what was reported of every connection then in use is the reading of its bytes (AllReportedIsParse), for the
     * first 2^32 connections.
     */
    method Poll(wait: Wait, incoming: seq<Handle>, now: int)
      returns (ghost accepted: seq<Event>, ghost tables: seq<map<Handle, Known>>, ghost rounds: seq<seq<Event>>,
        ghost late: seq<Event>)
      requires Valid() && |t.ids.given| + Admitted(t.connCount, |incoming|, t.max) <= WORD
      requires forall k :: 0 <= k < |incoming| ==> incoming[k] !in t.fdToSlot && Some(incoming[k]) != t.listenFd
      requires forall j, k :: 0 <= j < k < |incoming| && j < t.max - t.connCount ==> incoming[j] != incoming[k]
      modifies repr
      ensures Valid() && fresh(repr - old(repr)) && t.listenFd == old(t.listenFd)
      ensures t.trace == old(t.trace) + t.out && old(t.connCount) <= t.max
      ensures wait.WaitError? ==> t.out == [] && conns == old(conns) && Table() == old(Table())
      ensures wait.NoSignal? ==> TimesOut(now, t.idle, old(Table()), Table(), t.out)
      ensures wait.Signals? ==>
                && ServesAll(wait.ready, t.listenFd, now, tables, rounds)
                && (if Listens(wait.ready, t.listenFd)
                    then LetIn(incoming[..Min(|incoming|, t.max - old(t.connCount))], now, NewView(recvBuf, sendBuf),
                               old(Table()), tables[0], accepted)
                    else tables[0] == old(Table()) && accepted == [])
                && TimesOut(now, t.idle, tables[|wait.ready|], Table(), late)
                && t.out == accepted + Concat(rounds) + late
    {
      hide Valid, Table, TcpTransport.Valid, LetIn, NewView, ServesAll, Serves, TimesOut, Concat;
      CountIsWithin();
      StartRound();
      accepted, tables, rounds, late := [], [Table()], [], [];
      match wait {
        case WaitError => return;
        case NoSignal =>
          late := DropIdle(now);
          assert t.out == late;
          TraceIsWhole();
        case Signals(ready) => {
          var listenReady := false;
          for k := 0 to |ready|
            invariant !listenReady && forall m :: 0 <= m < k ==> Some(ready[m].fd) != t.listenFd
          {
            if Some(ready[k].fd) == t.listenFd {
              listenReady := true;
              break;
            }
          }
          if listenReady {
            accepted := AcceptAll(incoming, now);
            tables := [Table()];
          }
          ghost var first := tables[0];
          NoneServed(ready, t.listenFd, now, first);
          for k := 0 to |ready|
            invariant Valid() && fresh(repr - old(repr)) && t.listenFd == old(t.listenFd) && t.past == old(t.trace)
            invariant ServesAll(ready[..k], t.listenFd, now, tables, rounds) && |tables| == k + 1 && tables[0] == first
            invariant tables[k] == Table() && t.out == accepted + Concat(rounds)
          {
            ghost var events := Serve(ready[k], now);
            OneServed(ready, k, t.listenFd, now, tables, rounds, Table(), events);
            tables, rounds := tables + [Table()], rounds + [events];
          }
          assert ready[..|ready|] == ready;
          CountIsWithin();
          late := DropIdle(now);
          TraceIsWhole();
        }
      }
    }

    lemma TraceIsWhole()
      requires Valid()
      ensures t.trace == t.past + t.out
    {
      hide StreamsOk, EntriesOk, WatchOk, IdsOk, TablesOk, ReleasedOk, FreeOk, GivenOk, Connects, Reported;
      hide Footprint, Fixed, AllFixed, Objects, Apart, AllOk, Emitted, Linked, SlotsAre, OwnId, Others, Receivers;
      TraceIs(t);
    }

    /** Queues a message for the connection with this id; nothing of the tables changes. */
    method SendTo(id: Id, payload: Bytes) returns (r: Option<SendResult>, ghost fd: Handle)
      requires Valid() && id < LONG
      modifies repr
      ensures Valid() && fresh(repr - old(repr)) && conns == old(conns)
      ensures r == None <==> id !in t.slotOf
      ensures t.out == old(t.out) && t.trace == old(t.trace) && t.slotOf == old(t.slotOf)
      ensures r == None ==> Table() == old(Table())
      ensures r.Some? ==>
                && t.slotOf[id] in conns
                && var s := conns[t.slotOf[id]].sender;
                s.accepted == old(s.accepted) + if r.value == Ok && payload != [] then [payload] else []
      ensures r.Some? ==>
                && fd in old(Table()) && fd in Table() && old(Table())[fd].id == id
                && Table() == old(Table())[fd := old(Table())[fd].(view := Table()[fd].view)]
                && Queues(old(Table())[fd].view, Table()[fd].view, payload, r.value)
    {
      hide StreamsOk, EntriesOk, WatchOk, IdsOk, TablesOk, ReleasedOk, FreeOk, GivenOk, Connects, Reported;
      hide Encode, AllSendable, CutAt, FramesFit, Complete, Oversize, Views, TableOf, OneHandle, Queues, ViewOf;
      hide Footprint, Fixed, AllFixed, Objects, Apart, AllOk, Emitted, Linked, SlotsAre, OwnId, Others, Receivers;
      hide TcpTransport.Valid, Receiver.Valid, Sender.Valid;
      fd := 0;
      var slot := t.Get(id);
      if slot == None {
        return None, fd;
      }
      var i := slot.value;
      InUseIsKnown(i);
      OwnsConn(i);
      var c := conns[i];
      ghost var others, mine := conns - {i}, Footprint(c);
      Opened(i);
      ghost var es, theirs, vs, v := Emitted(others), Objects(others), Views(others), ViewOf(c);
      var sent := SendBy(c, payload);
      assert Views(others) == vs && Emitted(others) == es && Objects(others) == theirs;
      NewObjects(c, mine, theirs);
      fd := t.hosts[i].fd;
      LineChanges(t.hosts, t.hosts, t.fdToSlot, fd, vs, i, v, ViewOf(c));
      Rejoin(i, true, t.trace, t.hosts);
      return Some(sent), fd;
    }

    /** Asks for the connection with this id to be closed; the next round of sending ends it. */
    method RequestClose(id: Id, reason: CloseReason) returns (ok: bool, ghost fd: Handle)
      requires Valid() && id < LONG
      modifies repr
      ensures Valid() && fresh(repr - old(repr)) && conns == old(conns) && (ok <==> id in t.slotOf)
      ensures t.out == old(t.out) && t.trace == old(t.trace) && t.slotOf == old(t.slotOf)
      ensures !ok ==> Table() == old(Table())
      ensures ok ==>
                && fd in old(Table()) && old(Table())[fd].id == id
                && var k := old(Table())[fd];
                   Table() == if k.view.closing.Some? then old(Table())
                              else old(Table())[fd := k.(view := k.view.(closing := Some(reason)))]
    {
      hide StreamsOk, EntriesOk, WatchOk, IdsOk, TablesOk, ReleasedOk, FreeOk, GivenOk, Connects, Reported;
      hide Encode, AllSendable, CutAt, FramesFit, Complete, Oversize, Views, TableOf, OneHandle, ViewOf;
      hide Footprint, Fixed, AllFixed, Objects, Apart, AllOk, Emitted, Linked, SlotsAre, OwnId, Others, Receivers;
      hide TcpTransport.Valid, Receiver.Valid, Sender.Valid;
      fd := 0;
      var slot := t.Get(id);
      if slot == None {
        return false, fd;
      }
      var i := slot.value;
      InUseIsKnown(i);
      OwnsConn(i);
      var c := conns[i];
      ghost var others, mine := conns - {i}, Footprint(c);
      Opened(i);
      ghost var es, theirs, vs, v := Emitted(others), Objects(others), Views(others), ViewOf(c);
      CloseBy(c, reason);
      assert Views(others) == vs && Emitted(others) == es && Objects(others) == theirs;
      NewObjects(c, mine, theirs);
      fd := t.hosts[i].fd;
      LineChanges(t.hosts, t.hosts, t.fdToSlot, fd, vs, i, v, ViewOf(c));
      Rejoin(i, true, t.trace, t.hosts);
      return true, fd;
    }

    lemma InUseIsKnown(i: nat)
      requires Valid() && i < |t.hosts| && t.hosts[i].inUse
      ensures i in conns
    {
      hide Footprint, Fixed, AllFixed, Objects, Apart, AllOk, Emitted, Linked, Receivers;
    }
  }

  lemma TraceIs(t: TcpTransport)
    requires t.Valid()
    ensures t.trace == t.past + t.out
  {
  }

  lemma TablesAre(t: TcpTransport)
    requires t.Valid()
    ensures TablesOk(t.hosts, t.slotOf, t.fdToSlot)
  {
  }

  lemma ViewsAre(hosts: seq<Host>, conns: map<nat, Conn>)
    requires SlotsAre(hosts, conns)
    ensures Viewed(hosts, Views(conns))
  {
  }

  /** The connections that were not idle for too long. */
  ghost function Kept(hosts: seq<Host>, conns: map<nat, Conn>, now: int, idle: nat): map<nat, Conn> {
    map i: nat | i in conns && i < |hosts| && !Late(hosts[i], now, idle) :: conns[i]
  }

  lemma KeptIsPart(hosts: seq<Host>, conns: map<nat, Conn>, now: int, idle: nat)
    ensures forall i: nat :: i in Kept(hosts, conns, now, idle) ==>
              i in conns && Kept(hosts, conns, now, idle)[i] == conns[i]
  {
  }

  lemma SweptIds(hosts: seq<Host>, hosts': seq<Host>, now: int, idle: nat)
    requires |hosts'| == |hosts| && forall i :: 0 <= i < |hosts| ==> hosts'[i] == Swept(hosts[i], now, idle)
    ensures forall i :: 0 <= i < |hosts| ==> hosts'[i].id == hosts[i].id
  {
  }

  function InUse(hosts: seq<Host>, conns: map<nat, Conn>): map<nat, Conn> {
    map i | i in conns && i < |hosts| && hosts[i].inUse :: conns[i]
  }

  lemma KeptAre(hosts: seq<Host>, hosts': seq<Host>, conns: map<nat, Conn>, now: int, idle: nat)
    requires SlotsAre(hosts, conns) && |hosts'| == |hosts|
    requires forall i :: 0 <= i < |hosts| ==> hosts'[i] == Swept(hosts[i], now, idle)
    ensures Kept(hosts, conns, now, idle) == InUse(hosts', conns)
    ensures SlotsAre(hosts', Kept(hosts, conns, now, idle))
  {
  }

  lemma FixedWithin(c: Conn)
    ensures Fixed(c) <= Footprint(c)
  {
  }

  lemma NoConns(trace: seq<Event>, hosts: seq<Host>)
    ensures AllFixed(map[]) == {} && Objects(map[]) == {} && Receivers(map[]) == {}
    ensures Apart(map[]) && AllOk(map[]) && Linked(trace, hosts, Emitted(map[]))
  {
  }

  lemma NoneInUse(t: TcpTransport)
    requires t.Valid() && t.connCount == 0
    ensures forall i :: 0 <= i < |t.hosts| ==> !t.hosts[i].inUse
  {
    SameCount(t.hosts, t.ids.slots);
    forall i | 0 <= i < |t.hosts| ensures !t.hosts[i].inUse {
      if t.hosts[i].inUse {
        SomeoneUses(t.ids.slots, t.ids.free, t.ids.inUse, i);
      }
    }
  }
}
