/**
 * What one round of the server transport (engine/net/src/tcp_transport.cpp) does to its
 * connections, seen from outside: the table of the connections by their handle before and after,
 * what the system answers, and the events that come of it.
 */
module Rounds {
  import opened Basics
  import opened Options
  import opened Framing
  import opened Connections
  import opened ConnectionTable

  /**
   * One connection: its bytes and messages so far and the room for bytes not yet read; the bytes queued so far, how
   * many of them are sent, how many of the others lie before and behind the end of the ring, and the room for these;
   * the close asked for.
   */
  datatype View = View(received: Bytes, emitted: seq<Bytes>, capacity: nat,
    stream: Bytes, bytesOut: nat, first: nat, second: nat, queue: nat, closing: Option<Reason>)

  datatype Known = Known(id: Id, active: int, view: View)

  /** What the system says of a handle, and what its recv() and send() calls will answer. */
  datatype Signal = Signal(fd: Handle, failed: bool, readable: bool, writable: bool,
    recv: seq<RecvOutcome>, send: seq<SendOutcome>)

  datatype Wait = WaitError | NoSignal | Signals(ready: seq<Signal>)

  function NewView(recvBuf: nat, sendBuf: nat): View {
    View([], [], recvBuf, [], 0, 0, 0, sendBuf, None)
  }

  function EndEvents(id: Id, end: Option<Reason>): seq<Event> {
    if end == None then [] else [Disconnected(id, end.value)]
  }

  /**
   * One connection receives: the bytes are the next ones the kernel has, and the events are the messages that they
   * complete and then the end, if it comes to one.
   */
  ghost predicate Receives(k: Known, k': Known, end: Option<Reason>, script: seq<RecvOutcome>, rooms: seq<nat>,
                           now: int, events: seq<Event>)
  {
    var v, v' := k.view, k'.view;
    && v.received <= v'.received && v.emitted <= v'.emitted
    && k' == Known(k.id, if v'.received == v.received then k.active else now,
                   v.(received := v'.received, emitted := v'.emitted))
    && v'.received[|v.received|..] + PendingBytes(LeftAfter(script, rooms)) == PendingBytes(script)
    && (script != [] && script[0].Chunk? && script[0].data != [] && v.capacity > 0 ==> v'.received != v.received)
    && v'.emitted <= Parse(v'.received).frames && (end == None ==> v'.emitted == Parse(v'.received).frames)
    && RoomsIn(rooms, v.capacity) && (|rooms| == 0 <==> v.capacity == 0)
    && EndsWith(end, v'.received, v.capacity, script, rooms)
    && events == Packets(k.id, v'.emitted[|v.emitted|..]) + EndEvents(k.id, end)
  }

  /** One connection sends; a close that was asked for comes with it. */
  ghost predicate Sends(k: Known, k': Known, script: seq<SendOutcome>, events: seq<Event>) {
    var v := k.view;
    var n := Sent(script, v.first, v.second);
    && v.bytesOut + n <= |v.stream|
    && k' == k.(view := v.(bytesOut := v.bytesOut + n,
                           first := if n < v.first then v.first - n else v.first + v.second - n,
                           second := if n < v.first then v.second else 0))
    && events == if v.closing.Some? then [Disconnected(k.id, v.closing.value)]
                 else if v.bytesOut + n == |v.stream| then [SendDrained(k.id)] else []
  }

  /** A message for one connection: queued whole, or refused without a trace. */
  predicate Queues(v: View, v': View, payload: Bytes, r: SendResult) {
    && (r == if payload == [] then Ok
             else if |payload| > MAX_PAYLOAD_BYTES then PayloadTooLarge
             else if v.closing.Some? then NotOpen
             else if v.queue < v.first + v.second + PREFIX_BYTES + |payload| then Busy
             else Ok)
    && if r != Ok || payload == [] then v' == v else
       && v' == v.(stream := v.stream + Frame(payload), first := v'.first, second := v'.second)
       && v'.first + v'.second == v.first + v.second + PREFIX_BYTES + |payload|
  }

  /** The connection of a handle receives, the others stay, and it is gone if it ended. */
  ghost predicate ReadsFrom(fd: Handle, script: seq<RecvOutcome>, now: int, before: map<Handle, Known>,
                            after: map<Handle, Known>, events: seq<Event>)
  {
    && fd in before
    && exists k, end, rooms ::
         && Receives(before[fd], k, end, script, rooms, now, events)
         && after == if end == None then before[fd := k] else before - {fd}
  }

  ghost predicate WritesTo(fd: Handle, script: seq<SendOutcome>, before: map<Handle, Known>,
                           after: map<Handle, Known>, events: seq<Event>)
  {
    && fd in before
    && exists k ::
         && Sends(before[fd], k, script, events)
         && after == if before[fd].view.closing == None then before[fd := k] else before - {fd}
  }

  /** A ready connection that did not fail: first it receives, and then it sends if it is still there. */
  ghost predicate Transfers(signal: Signal, now: int, before: map<Handle, Known>, middle: map<Handle, Known>,
                            after: map<Handle, Known>, got: seq<Event>, sent: seq<Event>)
  {
    && (if signal.readable then ReadsFrom(signal.fd, signal.recv, now, before, middle, got)
        else middle == before && got == [])
    && (if signal.writable && signal.fd in middle then WritesTo(signal.fd, signal.send, middle, after, sent)
        else after == middle && sent == [])
  }

  /** One ready handle; the listening one and those without a connection are passed over. */
  ghost predicate Serves(signal: Signal, listenFd: Option<Handle>, now: int, before: map<Handle, Known>,
                         after: map<Handle, Known>, events: seq<Event>)
  {
    if Some(signal.fd) == listenFd || signal.fd !in before then after == before && events == []
    else if signal.failed then
      after == before - {signal.fd} && events == [Disconnected(before[signal.fd].id, Connections.Error)]
    else exists middle, got, sent ::
        Transfers(signal, now, before, middle, after, got, sent) && events == got + sent
  }

  /** The ready handles one after the other. */
  ghost predicate ServesAll(ready: seq<Signal>, listenFd: Option<Handle>, now: int, tables: seq<map<Handle, Known>>,
                            rounds: seq<seq<Event>>)
  {
    && |rounds| == |ready| && |tables| == |ready| + 1
    && forall k :: 0 <= k < |ready| ==> Serves(ready[k], listenFd, now, tables[k], tables[k + 1], rounds[k])
  }

  predicate Listens(ready: seq<Signal>, listenFd: Option<Handle>) {
    exists k :: 0 <= k < |ready| && Some(ready[k].fd) == listenFd
  }

  /** The connections let in under these handles, in this order. */
  ghost predicate LetIn(came: seq<Handle>, now: int, view: View, before: map<Handle, Known>,
                        after: map<Handle, Known>, events: seq<Event>)
  {
    && |events| == |came| && after.Keys == before.Keys + Elements(came)
    && (forall fd :: fd in before && fd !in came ==> after[fd] == before[fd])
    && forall k :: 0 <= k < |came| ==>
         events[k].Connected? && after[came[k]] == Known(events[k].id, now, view)
  }

  /** Those that were idle for too long are gone, each with one event, and the others stay. */
  ghost predicate TimesOut(now: int, idle: nat, before: map<Handle, Known>, after: map<Handle, Known>,
                           events: seq<Event>)
  {
    && (forall fd :: fd in after <==> fd in before && !(idle != 0 && now - before[fd].active > idle))
    && (forall fd :: fd in after ==> after[fd] == before[fd])
    && (forall e :: e in events <==> exists fd :: fd in before && fd !in after
                                                  && e == Disconnected(before[fd].id, Connections.Timeout))
    && Distinct(events)
  }

  function Concat(rounds: seq<seq<Event>>): seq<Event> {
    if |rounds| == 0 then [] else Concat(rounds[..|rounds| - 1]) + rounds[|rounds| - 1]
  }

  // How the table follows from the slots.

  ghost function TableOf(hosts: seq<Host>, fdToSlot: map<Handle, nat>, views: map<nat, View>): map<Handle, Known> {
    map fd | fd in fdToSlot && fdToSlot[fd] < |hosts| && fdToSlot[fd] in views ::
      Known(hosts[fdToSlot[fd]].id, hosts[fdToSlot[fd]].lastActive, views[fdToSlot[fd]])
  }

  /** There is a view of every slot in use. */
  ghost predicate Viewed(hosts: seq<Host>, views: map<nat, View>) {
    forall i: nat :: i in views <==> i < |hosts| && hosts[i].inUse
  }

  lemma TableIs(hosts: seq<Host>, slotOf: map<Id, nat>, fdToSlot: map<Handle, nat>, views: map<nat, View>)
    requires TablesOk(hosts, slotOf, fdToSlot) && Viewed(hosts, views)
    ensures TableOf(hosts, fdToSlot, views).Keys == fdToSlot.Keys
  {
  }

  /** A slot has one handle. */
  ghost predicate OneHandle(fdToSlot: map<Handle, nat>, i: nat, fd: Handle) {
    Maps(fdToSlot, fd, i) && forall x :: x in fdToSlot && x != fd ==> fdToSlot[x] != i
  }

  lemma HandleOf(hosts: seq<Host>, slotOf: map<Id, nat>, fdToSlot: map<Handle, nat>, i: nat)
    requires TablesOk(hosts, slotOf, fdToSlot) && i < |hosts| && hosts[i].inUse
    ensures OneHandle(fdToSlot, i, hosts[i].fd)
  {
    InTables(hosts, slotOf, fdToSlot, i);
  }

  /** One slot changes: so does its line of the table. */
  lemma LineChanges(hosts: seq<Host>, hosts': seq<Host>, fdToSlot: map<Handle, nat>, fd: Handle,
                    others: map<nat, View>, i: nat, v: View, v': View)
    requires i < |hosts| == |hosts'| && OneHandle(fdToSlot, i, fd)
    requires hosts'[i].id == hosts[i].id && forall k :: 0 <= k < |hosts| && k != i ==> hosts'[k] == hosts[k]
    ensures var table := TableOf(hosts, fdToSlot, others[i := v]);
            && Maps(table, fd, Known(hosts[i].id, hosts[i].lastActive, v))
            && TableOf(hosts', fdToSlot, others[i := v']) == table[fd := Known(hosts[i].id, hosts'[i].lastActive, v')]
  {
    var table, after := TableOf(hosts, fdToSlot, others[i := v]), TableOf(hosts', fdToSlot, others[i := v']);
    assert after.Keys == table.Keys;
    forall x | x in table && x != fd ensures after[x] == table[x] {
    }
  }

  /** The connection of a slot is dropped: so is its line. */
  lemma LineGoes(hosts: seq<Host>, hosts': seq<Host>, fdToSlot: map<Handle, nat>, fd: Handle,
                 others: map<nat, View>, i: nat, v: View)
    requires i < |hosts| == |hosts'| && OneHandle(fdToSlot, i, fd) && i !in others
    requires forall k :: 0 <= k < |hosts| && k != i ==> hosts'[k] == hosts[k]
    ensures TableOf(hosts', fdToSlot - {fd}, others) == TableOf(hosts, fdToSlot, others[i := v]) - {fd}
  {
    var table, after := TableOf(hosts, fdToSlot, others[i := v]), TableOf(hosts', fdToSlot - {fd}, others);
    assert after.Keys == table.Keys - {fd};
    forall x | x in after ensures after[x] == table[x] {
    }
  }

  /** A free slot is taken: one line more. */
  lemma LineAdded(hosts: seq<Host>, hosts': seq<Host>, fdToSlot: map<Handle, nat>, fd: Handle,
                  views: map<nat, View>, i: nat, v: View)
    requires i < |hosts| == |hosts'| && i !in views && fd !in fdToSlot
    requires forall k :: 0 <= k < |hosts| && k != i ==> hosts'[k] == hosts[k]
    requires forall x :: x in fdToSlot ==> fdToSlot[x] != i
    ensures TableOf(hosts', fdToSlot[fd := i], views[i := v])
            == TableOf(hosts, fdToSlot, views)[fd := Known(hosts'[i].id, hosts'[i].lastActive, v)]
  {
    var more, table := fdToSlot[fd := i], TableOf(hosts, fdToSlot, views);
    AddDrop(fdToSlot, fd, i);
    LineChanges(hosts', hosts', more, fd, views, i, v, v);
    LineGoes(hosts', hosts, more, fd, views, i, v);
    hide TableOf;
    AddBack(TableOf(hosts', more, views[i := v]), table, fd, Known(hosts'[i].id, hosts'[i].lastActive, v));
  }

  lemma AddBack<K, V>(more: map<K, V>, m: map<K, V>, k: K, v: V)
    requires m == more - {k} && Maps(more, k, v)
    ensures more == m[k := v]
  {
  }

  /** Only what is waited for changes: the table stays. */
  lemma LinesStay(hosts: seq<Host>, hosts': seq<Host>, fdToSlot: map<Handle, nat>, views: map<nat, View>)
    requires SameConns(hosts, hosts') && forall k :: 0 <= k < |hosts| ==> hosts'[k].lastActive == hosts[k].lastActive
    ensures TableOf(hosts', fdToSlot, views) == TableOf(hosts, fdToSlot, views)
  {
  }

  /** The bytes that came and those left are the ones that were to come. */
  lemma BytesCame(before: Bytes, after: Bytes, pending: Bytes, left: Bytes)
    requires before <= after <= before + pending && left == (before + pending)[|after|..]
    ensures after[|before|..] + left == pending
  {
    assert pending == (before + pending)[|before|..];
  }

  lemma SendsIs(id: Id, active: int, v: View, v': View, n: nat, script: seq<SendOutcome>, events: seq<Event>)
    requires n == Sent(script, v.first, v.second) && v.bytesOut + n <= |v.stream|
    requires v' == v.(bytesOut := v.bytesOut + n, first := v'.first, second := v'.second)
    requires v'.first + v'.second == v.first + v.second - n
    requires v'.first == if n < v.first then v.first - n else v.first + v.second - n
    requires events == if v.closing.Some? then [Disconnected(id, v.closing.value)]
                       else if v.bytesOut + n == |v.stream| then [SendDrained(id)] else []
    ensures Sends(Known(id, active, v), Known(id, active, v'), script, events)
  {
  }

  /** The connection of a slot received: what its line of the table shows. */
  lemma LineRead(hosts: seq<Host>, hosts': seq<Host>, fdToSlot: map<Handle, nat>, fd: Handle, others: map<nat, View>,
                 i: nat, v: View, v': View, end: Option<Reason>, script: seq<RecvOutcome>, rooms: seq<nat>, now: int,
                 events: seq<Event>)
    requires i < |hosts| == |hosts'| && OneHandle(fdToSlot, i, fd) && i !in others
    requires hosts'[i].id == hosts[i].id && forall k :: 0 <= k < |hosts| && k != i ==> hosts'[k] == hosts[k]
    requires Receives(Known(hosts[i].id, hosts[i].lastActive, v), Known(hosts'[i].id, hosts'[i].lastActive, v'), end,
                      script, rooms, now, events)
    ensures var after := if end == None then TableOf(hosts', fdToSlot, others[i := v'])
                         else TableOf(hosts', fdToSlot - {fd}, others);
            && ReadsFrom(fd, script, now, TableOf(hosts, fdToSlot, others[i := v]), after, events)
            && (fd in after <==> end == None)
  {
    hide Receives, TableOf, OneHandle;
    LineChanges(hosts, hosts', fdToSlot, fd, others, i, v, v');
    LineGoes(hosts, hosts', fdToSlot, fd, others, i, v);
  }

  lemma LineWritten(hosts: seq<Host>, hosts': seq<Host>, fdToSlot: map<Handle, nat>, fd: Handle,
                    others: map<nat, View>, i: nat, v: View, v': View, script: seq<SendOutcome>, events: seq<Event>)
    requires i < |hosts| == |hosts'| && OneHandle(fdToSlot, i, fd) && i !in others
    requires hosts'[i].id == hosts[i].id && forall k :: 0 <= k < |hosts| && k != i ==> hosts'[k] == hosts[k]
    requires Sends(Known(hosts[i].id, hosts[i].lastActive, v), Known(hosts'[i].id, hosts'[i].lastActive, v'), script,
                   events)
    ensures var after := if v.closing == None then TableOf(hosts', fdToSlot, others[i := v'])
                         else TableOf(hosts', fdToSlot - {fd}, others);
            WritesTo(fd, script, TableOf(hosts, fdToSlot, others[i := v]), after, events)
  {
    hide Sends, TableOf, OneHandle;
    LineChanges(hosts, hosts', fdToSlot, fd, others, i, v, v');
    LineGoes(hosts, hosts', fdToSlot, fd, others, i, v);
  }

  // The connections that come in.

  lemma NoneLetIn(now: int, view: View, table: map<Handle, Known>)
    ensures LetIn([], now, view, table, table, [])
  {
  }

  lemma OneLetIn(came: seq<Handle>, now: int, view: View, before: map<Handle, Known>, middle: map<Handle, Known>,
                 events: seq<Event>, fd: Handle, id: Id)
    requires LetIn(came, now, view, before, middle, events) && fd !in middle
    ensures LetIn(came + [fd], now, view, before, middle[fd := Known(id, now, view)], events + [Connected(id)])
  {
    var came', after, events' := came + [fd], middle[fd := Known(id, now, view)], events + [Connected(id)];
    assert Elements(came') == Elements(came) + {fd};
    forall k | 0 <= k < |came'| ensures events'[k].Connected? && after[came'[k]] == Known(events'[k].id, now, view) {
      if k < |came| {
        assert came'[k] == came[k] && came[k] in Elements(came) && events'[k] == events[k];
      }
    }
  }

  lemma NoneServed(ready: seq<Signal>, listenFd: Option<Handle>, now: int, table: map<Handle, Known>)
    ensures ServesAll(ready[..0], listenFd, now, [table], []) && Concat([]) == []
  {
  }

  lemma OneServed(ready: seq<Signal>, k: nat, listenFd: Option<Handle>, now: int, tables: seq<map<Handle, Known>>,
                  rounds: seq<seq<Event>>, table: map<Handle, Known>, events: seq<Event>)
    requires k < |ready| && ServesAll(ready[..k], listenFd, now, tables, rounds)
    requires Serves(ready[k], listenFd, now, tables[k], table, events)
    ensures ServesAll(ready[..k + 1], listenFd, now, tables + [table], rounds + [events])
    ensures Concat(rounds + [events]) == Concat(rounds) + events
  {
    hide Serves;
    var front, tables', rounds' := ready[..k + 1], tables + [table], rounds + [events];
    assert rounds'[..k] == rounds;
    forall j | 0 <= j < k + 1 ensures Serves(front[j], listenFd, now, tables'[j], tables'[j + 1], rounds'[j]) {
      if j < k {
        assert ready[..k][j] == front[j];
      }
    }
  }

  // The connections that were idle for too long.

  lemma {:induction false} TimeoutsFor(hosts: seq<Host>, now: int, idle: nat, e: Event)
    ensures e in Timeouts(hosts, now, idle)
            <==> exists i :: 0 <= i < |hosts| && Late(hosts[i], now, idle)
                             && e == Disconnected(hosts[i].id, Connections.Timeout)
  {
    if |hosts| == 0 {
    } else {
      var n := |hosts| - 1;
      TimeoutsFor(hosts[..n], now, idle, e);
      assert forall i :: 0 <= i < n ==> hosts[..n][i] == hosts[i];
    }
  }

  lemma {:induction false} TimeoutsDiffer(hosts: seq<Host>, now: int, idle: nat)
    requires forall i, j :: 0 <= i < j < |hosts| && hosts[i].inUse && hosts[j].inUse ==> hosts[i].id != hosts[j].id
    ensures Distinct(Timeouts(hosts, now, idle))
  {
    if |hosts| == 0 {
    } else {
      var n := |hosts| - 1;
      TimeoutsDiffer(hosts[..n], now, idle);
      TimeoutsFor(hosts[..n], now, idle, Disconnected(hosts[n].id, Connections.Timeout));
    }
  }

  lemma OneIdEach(hosts: seq<Host>, slotOf: map<Id, nat>, fdToSlot: map<Handle, nat>)
    requires TablesOk(hosts, slotOf, fdToSlot)
    ensures forall i, j :: 0 <= i < j < |hosts| && hosts[i].inUse && hosts[j].inUse ==> hosts[i].id != hosts[j].id
  {
    forall i, j | 0 <= i < j < |hosts| && hosts[i].inUse && hosts[j].inUse ensures hosts[i].id != hosts[j].id {
      InTables(hosts, slotOf, fdToSlot, i);
      InTables(hosts, slotOf, fdToSlot, j);
    }
  }

  /** After the check a handle is known exactly if it was and its connection was not late. */
  lemma HandlesSwept(hosts: seq<Host>, hosts': seq<Host>, slotOf: map<Id, nat>, fdToSlot: map<Handle, nat>,
                     slotOf': map<Id, nat>, fdToSlot': map<Handle, nat>, now: int, idle: nat, fd: Handle)
    requires TablesOk(hosts, slotOf, fdToSlot) && TablesOk(hosts', slotOf', fdToSlot') && |hosts'| == |hosts|
    requires forall i :: 0 <= i < |hosts| ==> hosts'[i] == Swept(hosts[i], now, idle)
    ensures fd in fdToSlot' <==> fd in fdToSlot && !Late(hosts[fdToSlot[fd]], now, idle)
    ensures fd in fdToSlot' ==> fdToSlot'[fd] == fdToSlot[fd] < |hosts|
    ensures fd in fdToSlot ==> fdToSlot[fd] < |hosts| && hosts[fdToSlot[fd]].inUse
  {
    if fd in fdToSlot' {
      InTables(hosts, slotOf, fdToSlot, fdToSlot'[fd]);
    }
    if fd in fdToSlot && !Late(hosts[fdToSlot[fd]], now, idle) {
      InTables(hosts', slotOf', fdToSlot', fdToSlot[fd]);
    }
  }

  lemma LinesSwept(hosts: seq<Host>, hosts': seq<Host>, slotOf: map<Id, nat>, fdToSlot: map<Handle, nat>,
                   slotOf': map<Id, nat>, fdToSlot': map<Handle, nat>, views: map<nat, View>, views': map<nat, View>,
                   now: int, idle: nat)
    requires TablesOk(hosts, slotOf, fdToSlot) && TablesOk(hosts', slotOf', fdToSlot') && |hosts'| == |hosts|
    requires forall i :: 0 <= i < |hosts| ==> hosts'[i] == Swept(hosts[i], now, idle)
    requires Viewed(hosts, views) && Viewed(hosts', views') && forall i :: i in views' ==> Maps(views, i, views'[i])
    ensures var before, after := TableOf(hosts, fdToSlot, views), TableOf(hosts', fdToSlot', views');
            && (forall fd :: fd in after <==> fd in before && !(idle != 0 && now - before[fd].active > idle))
            && (forall fd :: fd in after ==> after[fd] == before[fd])
  {
    hide TablesOk;
    var before, after := TableOf(hosts, fdToSlot, views), TableOf(hosts', fdToSlot', views');
    forall fd: Handle
      ensures fd in after <==> fd in before && !(idle != 0 && now - before[fd].active > idle)
      ensures fd in after ==> after[fd] == before[fd]
    {
      HandlesSwept(hosts, hosts', slotOf, fdToSlot, slotOf', fdToSlot', now, idle, fd);
    }
  }

  /** The connections that are gone are those of the late slots. */
  lemma GoneAreLate(hosts: seq<Host>, slotOf: map<Id, nat>, fdToSlot: map<Handle, nat>, views: map<nat, View>, now: int,
                    idle: nat, after: map<Handle, Known>, e: Event)
    requires TablesOk(hosts, slotOf, fdToSlot) && Viewed(hosts, views)
    requires var before := TableOf(hosts, fdToSlot, views);
             forall fd :: fd in after <==> fd in before && !(idle != 0 && now - before[fd].active > idle)
    ensures var before := TableOf(hosts, fdToSlot, views);
            e in Timeouts(hosts, now, idle) <==> exists fd :: fd in before && fd !in after
                                                              && e == Disconnected(before[fd].id, Connections.Timeout)
  {
    var before := TableOf(hosts, fdToSlot, views);
    TimeoutsFor(hosts, now, idle, e);
    if e in Timeouts(hosts, now, idle) {
      var i :| 0 <= i < |hosts| && Late(hosts[i], now, idle) && e == Disconnected(hosts[i].id, Connections.Timeout);
      InTables(hosts, slotOf, fdToSlot, i);
      assert hosts[i].fd in before && hosts[i].fd !in after;
    }
    if fd :| fd in before && fd !in after && e == Disconnected(before[fd].id, Connections.Timeout) {
      assert Late(hosts[fdToSlot[fd]], now, idle);
    }
  }

  lemma SweptTable(hosts: seq<Host>, hosts': seq<Host>, slotOf: map<Id, nat>, fdToSlot: map<Handle, nat>,
                   slotOf': map<Id, nat>, fdToSlot': map<Handle, nat>, views: map<nat, View>, views': map<nat, View>,
                   now: int, idle: nat)
    requires TablesOk(hosts, slotOf, fdToSlot) && TablesOk(hosts', slotOf', fdToSlot') && |hosts'| == |hosts|
    requires forall i :: 0 <= i < |hosts| ==> hosts'[i] == Swept(hosts[i], now, idle)
    requires Viewed(hosts, views) && Viewed(hosts', views') && forall i :: i in views' ==> Maps(views, i, views'[i])
    ensures TimesOut(now, idle, TableOf(hosts, fdToSlot, views), TableOf(hosts', fdToSlot', views'),
                     Timeouts(hosts, now, idle))
  {
    hide TablesOk, TableOf, Viewed, Swept, Late, Timeouts;
    LinesSwept(hosts, hosts', slotOf, fdToSlot, slotOf', fdToSlot', views, views', now, idle);
    OneIdEach(hosts, slotOf, fdToSlot);
    TimeoutsDiffer(hosts, now, idle);
    var after := TableOf(hosts', fdToSlot', views');
    forall e: Event
      ensures var before := TableOf(hosts, fdToSlot, views);
              e in Timeouts(hosts, now, idle) <==> exists fd :: fd in before && fd !in after
                                                                && e == Disconnected(before[fd].id, Connections.Timeout)
    {
      GoneAreLate(hosts, slotOf, fdToSlot, views, now, idle, after, e);
    }
  }
}
