# Verification of the MMO server and tools

Dafny models of the state machines and algorithms that the game server, the client and
its tools depend on, with proofs of what they keep over every run. Each module follows one
component; loops and objects that change in place are methods and classes here too, proved
against specifications that do not share their bodies. Operating system, Lua and clock are
parameters: what a socket delivers, what a script calls back, how a save ends and what time
it is are arbitrary, so a statement about a step is a statement about every environment.

- `DependencyCheck.dfy`: the three-colour search for dependency cycles between tasks.
- `RingBuffer.dfy`, `Framing.dfy`, `Connection.dfy`, `Link.dfy`: length-prefixed messages over a
  wrapping ring, partial sends and receives, and both ends of a connection together.
- `ConnectionTable.dfy`: connection ids, the poll set and the tables of the server transport.
- `Serving.dfy`, `Rounds.dfy`, `Server.dfy`: one connection served from end to end, its bytes and the tables
  together; what a round does, as a relation between the table of all connections before and after, the answers
  of the system and the events; and the server whose rounds do that.
- `ResourceCache.dfy`: the reference-counted cache with budgets and loading workers. A step is one
  section under the lock, so methods in any order are all interleavings.
- `SceneStreamer.dfy`: requesting, loading and unloading chunks around the player.
- `ScriptContext.dfy`: loading, replacing and unloading scripts while scripts run.
- `Json.dfy`, `WrittenNumbers.dfy`, `Numbers.dfy`, `Manifest.dfy`: the JSON reader of the script manifest, every
  way of writing a number, numbers as the output stream writes them, which texts are read as a manifest, and
  reading against printing.
- `ControlIo.dfy`: the stored text form of node list and configuration.
- `TickHistogram.dfy`: quantiles of a fixed-bucket histogram against sorting.
- `EconomyAudit.dfy`: reconciling the economy ledger with the balance snapshot.
- `DataService.dfy`: the write-behind queue between cache and store.
- `RateLimiter.dfy`: the token bucket of the RPC server.
- `RouteTable.dfy`: the routing index of the script host against a scan.
- `Basics.dfy`, `Decimals.dfy`, `Options.dfy`, `Widths.dfy`: shared notions, decimal notation,
  optional results, machine integers.

`dafny verify dfyconfig.toml` checks the whole project.

## What the proofs found

Each of these is proved of the code as it is, with its exact condition where there is one.

- The manifest printer does not escape and the reader does unescape, and the printer writes numbers with
  six significant digits: a printed manifest is read back if and only if no string of it contains a quote
  or a backslash and every tick_hz has at most six significant digits (`RoundTripIff`; inputs that are
  lost: `BackslashIsLost`, `SeventhDigitIsLost`).
- A node list is read back if and only if no address contains the field separator or a line break
  (`NodesRoundTripIffClean`). The length check of the configuration adds in 64 bits; a sum that
  wraps around cannot match, so the check is exact (`DeserializeConfig`).
- A save that finds another record of its key queued is lost to the store until the key is saved
  again; all other saves arrive (`FlushKeeps`, `OlderSaveSticks`).
- A chunk that was unloaded is never requested again. With the player at rest the square around it is loaded
  in a number of frames known in advance if and only if, at the first of them, no chunk of it is unloaded or
  leaving with less time left than the frame lasts (`SquareLoadedIff`; a run that fails: `DroppedSquare`);
  this happens exactly to chunks that the player leaves for the delay (`LeftBehindIff`), and to all that are
  there when everything is dropped. The running counter of loaded chunks gains one too many for every chunk
  that was leaving and is near again (`Update`, `CounterDrift`, `DriftedCounter`).
- The id promised by a load that is only queued can be wrong (`PromisedIdsCollide`,
  `UnloadingBreaksPromise`). It is right if and only if the changes queued before leave the slot of a
  loaded name loaded, or give the next slot first to that new name and keep it (`PromiseKeptIff`).
- What a run queued is taken back if and only if an instruction, stack or time limit was hit in it, not
  if the run fails. The error of a limit can be caught by the script, and running out of memory is no such
  limit: a chunk that catches the error is activated while all it queued is lost, and a run that fails
  for memory keeps what it queued (`Run`, `ApplyLoad`, `CaughtLimit`, `LimitCaughtOnHost`).
- The first 2^32 - 1 connection ids rise and the first 2^32 are all different, whatever the slots and the
  order of use (`GivenGrows`). This bound is exact: an allocator with one slot then gives the id 0, and then
  its first id again (`IdsComeAgain`, `OneSlotRepeatsIff`). Event streams are in order exactly as long as no
  id comes twice (`StreamsInOrderIff`), with room for one connection exactly for the first 2^32 of them
  (`OneConnectionOrderlyIff`).
- A graceful close does not wait for the send queue, although engine/net/include/mmo/net/connection.h, line
  12, and transport.h, line 101, say that the queue is drained first. The first round of sending after the
  request ends the connection; nothing is lost if and only if in that round the kernel takes the queued bytes
  up to the end of the ring whole in its first call and those behind the wrap whole in its second
  (`Serving.ProcessSend`, `AllSentIff`), whatever the kernel does if and only if nothing was queued
  (`AlwaysSentIffEmpty`). A message that is lost: `GracefulCloseLoses`.
- The branch for a refused id in accepting is unreachable, and so is the second send of a round of
  draining (`AcceptOne`, `DrainRound`).
- The rank of a quantile is the promised ceiling except when p*n exceeds a positive whole number by
  less than a millionth, and the quantile at 0 is not clamped (`TargetIsCeilingIff`, `TargetFallsShort`,
  `ZeroQuantileFitsIff`, `ZeroAboveMedian`).
- The conservation check of the audit never finds what the account checks do not
  (`ConservationFollows`); a row that is lost is noticed if and only if it moves something.
- A script that lists the internal wildcard as its own key is called for keys it does not list, and for
  the wildcard itself the order can change (`TableIsScanIff`).
- For every rate, a negative one too, which the type admits: the windows that end with a call keep their bound
  if and only if the call is granted or finds tokens that are not negative after the refill (`WindowBoundIff`,
  `TryAcquire`). With a rate that is not negative this is always so (`WindowBound`); with a negative one a
  refused call can keep or break it (`NegativeRate`).

## Model

| member | source | states |
|---|---|---|
| `DependencyCheck.Check` | mmorpg_tasks/tools/gen/build_tasks.py:204-244 | over every task list, in terms of the list itself: a dependency is reported as unknown or as the task itself exactly where it is one; every printed loop is a circle of tasks each of which is listed by the one before; every such circle passes the closing edge of a printed loop, so a loop is printed if and only if there is a circle, and deleting those edges leaves none |
| `DependencyCheck.ReadDependencies` | mmorpg_tasks/tools/gen/build_tasks.py:204-220 | the dictionary holds for every id the dependencies of its last task, and the findings are the unknown and the self dependencies in list order |
| `DependencyCheck.ReadList` | mmorpg_tasks/tools/gen/build_tasks.py:213-219 | the findings of one dependency list, in order |
| `DependencyCheck.GraphKeys` | mmorpg_tasks/tools/gen/build_tasks.py:204-220 | the keys of the dictionary are exactly the ids |
| `DependencyCheck.EdgeIff` | mmorpg_tasks/tools/gen/build_tasks.py:204-220 | an edge of the graph is exactly a dependency between tasks: the last task of that id lists it, and it is the id of a task |
| `DependencyCheck.CircularIff` | mmorpg_tasks/tools/gen/build_tasks.py:227-240 | a closed walk of the graph is exactly a circle of tasks, each listed by the last task with the id before it |
| `DependencyCheck.EveryLoopIsListed` | mmorpg_tasks/tools/gen/build_tasks.py:227-240 | the graph has a cycle if and only if the task list has a circle |
| `DependencyCheck.ListFindingsAre` | mmorpg_tasks/tools/gen/build_tasks.py:213-219 | the findings of one list, dependency by dependency: unknown, then the task itself, whatever stands before and behind |
| `DependencyCheck.FindingsMean` | mmorpg_tasks/tools/gen/build_tasks.py:211-219 | unknown and self dependencies are reported exactly where the task list has them |
| `DependencyCheck.SearchAll` | mmorpg_tasks/tools/gen/build_tasks.py:242-244 | afterwards every task is black, the path stack is empty and only loops were added |
| `DependencyCheck.CycleChecker.constructor` | mmorpg_tasks/tools/gen/build_tasks.py:222-225 | everything is white and the path stack is empty |
| `DependencyCheck.CycleChecker.Dfs` | mmorpg_tasks/tools/gen/build_tasks.py:227-240 | a call leaves the path stack as it was, finishes its task and keeps all settled colours and findings; it terminates because white tasks run out |
| `DependencyCheck.CycleChecker.VisitAll` | mmorpg_tasks/tools/gen/build_tasks.py:230-238 | after the loop every dependency is unknown, finished earlier, or reported |
| `DependencyCheck.CycleChecker.Visit` | mmorpg_tasks/tools/gen/build_tasks.py:231-238 | one dependency: skipped, reported, or searched |
| `DependencyCheck.CycleChecker.Enter` | mmorpg_tasks/tools/gen/build_tasks.py:228-229 | the task becomes gray and goes on the path stack |
| `DependencyCheck.CycleChecker.Leave` | mmorpg_tasks/tools/gen/build_tasks.py:239-240 | the task becomes black, after all its unreported dependencies did |
| `DependencyCheck.CycleChecker.Report` | mmorpg_tasks/tools/gen/build_tasks.py:234-236 | the printed loop is the path stack from the repeated task on, closed by it |
| `DependencyCheck.WalkDescends` | mmorpg_tasks/tools/gen/build_tasks.py:227-240 | finish times fall along every walk that avoids reported edges |
| `DependencyCheck.EveryCycleIsBroken` | mmorpg_tasks/tools/gen/build_tasks.py:227-240 | every cycle of the graph passes a reported edge |
| `DependencyCheck.WithoutReportedIsAcyclic` | mmorpg_tasks/tools/gen/build_tasks.py:227-244 | the graph without the reported edges has no cycle |
| `DependencyCheck.SearchDecidesCycles` | mmorpg_tasks/tools/gen/build_tasks.py:227-244 | the finished search printed a loop if and only if there is a cycle |
| `RingBuffers.SpanSplit` | engine/net/include/mmo/net/buffer.h:134-137 | a span is its front followed by the span behind it, wherever it wraps |
| `RingBuffers.SpanRegions` | engine/net/include/mmo/net/buffer.h:172-187 | the two readable regions put together are the span |
| `RingBuffers.SpanUntouched` | engine/net/include/mmo/net/buffer.h:102-117 | storing in the free part does not disturb the stored bytes |
| `RingBuffers.TwoPieces` | engine/net/include/mmo/net/buffer.h:109-113 | copying up to the end and the rest to the start stores exactly the span |
| `RingBuffers.CopyAround` | engine/net/include/mmo/net/buffer.h:109-113 | the array afterwards holds the source as a span and is otherwise unchanged |
| `RingBuffers.RingBuffer.constructor` | engine/net/include/mmo/net/buffer.h:91-91 | an empty buffer without memory |
| `RingBuffers.RingBuffer.EnsureAllocated` | engine/net/include/mmo/net/buffer.h:74-78 | allocation on first use changes no content |
| `RingBuffers.RingBuffer.Store` | engine/net/include/mmo/net/buffer.h:108-113 | the source is placed behind the stored bytes, which stay |
| `RingBuffers.RingBuffer.CommitWrite` | engine/net/include/mmo/net/buffer.h:167-170 | the placed bytes are appended to the content |
| `RingBuffers.RingBuffer.WriteSome` | engine/net/include/mmo/net/buffer.h:102-117 | appends exactly the longest front that fits |
| `RingBuffers.RingBuffer.Write` | engine/net/include/mmo/net/buffer.h:93-100 | appends all, or nothing exactly if there is no room for all |
| `RingBuffers.RingBuffer.Consume` | engine/net/include/mmo/net/buffer.h:134-137 | drops the oldest bytes; the reading offset wraps |
| `RingBuffers.RingBuffer.WritableRegion0` | engine/net/include/mmo/net/buffer.h:147-155 | the free bytes up to the end of the storage; empty exactly if the buffer is full |
| `RingBuffers.RingBuffer.ReadableRegion0` | engine/net/include/mmo/net/buffer.h:172-178 | the oldest bytes up to the end of the storage |
| `RingBuffers.RingBuffer.ReadableRegion1` | engine/net/include/mmo/net/buffer.h:180-187 | what remains behind region 0 |
| `Framing.LengthRoundTrip` | engine/net/src/connection.cpp:109-114 | the four big-endian bytes give the length back |
| `Framing.HighByteFirst` | engine/net/src/connection.cpp:109-114 | the four bytes weigh 2^24, 2^16, 2^8 and 1, in this order |
| `Framing.Parse` | engine/net/src/tcp_transport.cpp:472-526 | reference reading: whole frames off the front until none is left |
| `Framing.ParseKeepsBytes` | engine/net/src/tcp_transport.cpp:472-526 | the frames written out again and the rest are the input: nothing lost, nothing invented |
| `Framing.ParseHead` | engine/net/src/tcp_transport.cpp:472-526 | a frame at the front is the first frame read |
| `Framing.SplitHead` | engine/net/src/tcp_transport.cpp:472-526 | the front frame is read the same whatever follows |
| `Framing.ParseEncoded` | engine/net/src/tcp_transport.cpp:472-526 | reading what was written gives the messages back, whatever incomplete tail follows |
| `Framing.ParseAppend` | engine/net/src/tcp_transport.cpp:384-428 | chunking independence: reading in two pieces is reading at once |
| `Framing.FrontOfFrame` | engine/net/src/tcp_transport.cpp:446-457 | a front part of a frame is not read as anything |
| `Framing.PrefixOfEncoded` | engine/net/src/tcp_transport.cpp:472-526 | any front of an encoded list is read as a front of the list and is never oversize; if all frames fit the buffer it never gets the receiver stuck |
| `Framing.EncodeOneMore` | engine/net/src/connection.cpp:103-117 | queueing a frame encodes one message more |
| `Connections.Sender.Send` | engine/net/src/connection.cpp:88-120 | exact result in every case; an accepted message adds exactly its frame to the stream, a refused or empty one changes nothing |
| `Connections.Sender.Enqueue` | engine/net/src/connection.cpp:109-118 | prefix and payload behind the queue are the frame behind the unsent stream |
| `Connections.Sender.Close` | engine/net/src/connection.cpp:122-131 | only the first request counts and keeps its reason |
| `Connections.Sender.SendOnce` | engine/net/src/connection.cpp:39-49 | the kernel takes a front of the region or refuses |
| `Connections.Sender.DrainRegion` | engine/net/src/connection.cpp:136-153 | what the kernel took is the next piece of the stream and leaves the queue; how much is what the first call of the script takes |
| `Connections.Sender.DrainRound` | engine/net/src/connection.cpp:135-172 | one round: the second send of the round is never reached, since taking all of region 0 makes region 1 the new region 0 |
| `Connections.Sender.DrainSend` | engine/net/src/connection.cpp:133-179 | the bytes put on the wire are the next piece of the stream, as many as the calls take of the two stored parts in turn, and where the others lie afterwards; true exactly if the queue is empty; the end is announced only when drained and closing gracefully |
| `Connections.AllSentIff` | engine/net/src/connection.cpp:133-179 | one drain puts everything on the wire if and only if the kernel takes both stored parts whole, each in one call |
| `Connections.AlwaysSentIffEmpty` | engine/net/include/mmo/net/connection.h:12-12 | everything is sent whatever the kernel does if and only if nothing was queued |
| `Connections.QueueFrame` | engine/net/src/connection.cpp:103-117 | header and payload behind the queued bytes keep the queue a suffix of the encoded messages |
| `Connections.RecvOnce` | engine/net/src/tcp_transport.cpp:113-121 | what one call returns for the room it is offered and what waits for the next; pending bytes are never lost or reordered |
| `Connections.CutEmit` | engine/net/src/tcp_transport.cpp:486-524 | emitting the front frame moves the cut behind it |
| `Connections.CutIsReading` | engine/net/src/tcp_transport.cpp:384-428 | once no whole frame is buffered, emitted frames and buffer are the reference reading of all bytes received |
| `Connections.PayloadPieces` | engine/net/src/tcp_transport.cpp:472-526 | the payload is put together correctly wherever prefix and payload wrap |
| `Connections.Receiver.ValidMeansRead` | engine/net/src/tcp_transport.cpp:384-428 | between polls an open connection has emitted exactly what the received bytes read as, for every chunking |
| `Connections.Receiver.StuckMeansUnreadable` | engine/net/src/tcp_transport.cpp:388-404 | a connection is only given up on bytes that no chunking would have got through |
| `Connections.Receiver.CopyOut` | engine/net/src/tcp_transport.cpp:459-470 | the first bytes, across the wrap, without consuming them |
| `Connections.Receiver.PeekLength` | engine/net/src/tcp_transport.cpp:446-457 | the announced length, known exactly when four bytes are there |
| `Connections.Receiver.CopyPayload` | engine/net/src/tcp_transport.cpp:490-513 | the payload behind the prefix, each of them possibly across the wrap |
| `Connections.Receiver.TryEmitPackets` | engine/net/src/tcp_transport.cpp:472-526 | afterwards no whole frame is buffered; the connection ends exactly on a length beyond the limit |
| `Connections.Receiver.Emit` | engine/net/src/tcp_transport.cpp:486-524 | one whole frame becomes one event and leaves the buffer |
| `Connections.Receiver.Accept` | engine/net/src/tcp_transport.cpp:416-419 | one chunk is appended to the received bytes |
| `Connections.Receiver.MakeRoom` | engine/net/src/tcp_transport.cpp:388-404 | a full buffer makes room by emitting, or the connection is stuck and ends |
| `Connections.Receiver.Receive` | engine/net/src/tcp_transport.cpp:405-424 | one recv: the end of the stream exactly on an empty chunk, an error exactly on a failed call, and another turn exactly if the chunk fills the room |
| `Connections.Receiver.RecvStep` | engine/net/src/tcp_transport.cpp:386-424 | one turn of the receiving loop: room is made exactly if the buffer is full, otherwise one recv is done with its exact outcome; it ends because bytes come in or the buffer shrinks |
| `Connections.Receiver.ReceiveAll` | engine/net/src/tcp_transport.cpp:386-427 | the receiving loop: every call but the last fills its room; the loop ends at the end of the stream or on an error exactly if the last call returns that, and open only if the last call does not fill its room |
| `Connections.Receiver.ReadableIff` | engine/net/src/tcp_transport.cpp:384-428 | after a round the connection is open if and only if all bytes received can be read in its buffer |
| `Connections.OneCallMore` | engine/net/src/tcp_transport.cpp:405-427 | one call more takes from what the calls before left, and the loop goes on exactly while calls fill their room |
| `Connections.Receiver.ProcessRecv` | engine/net/src/tcp_transport.cpp:384-428 | the received bytes grow by a front of the pending ones; the round ends the connection as closed by the peer if and only if the last call returns the end of the stream, on an error if and only if it fails, and otherwise leaves it open if and only if all bytes can be read |
| `Connections.Receiver.RemoveConnection` | engine/net/src/tcp_transport.cpp:577-577 | the receiving half: closed, with its reason |
| `Links.EmittedIsFront` | engine/net/src/tcp_transport.cpp:472-526 | what has been emitted at any moment is a front of the reference reading |
| `Links.Link.SendStep` | engine/net/src/connection.cpp:88-120 | a send step keeps the link invariant and accepts exactly on Ok |
| `Links.Link.DrainStep` | engine/net/src/connection.cpp:133-179 | a partial drain keeps the link invariant |
| `Links.Link.RecvStep` | engine/net/src/tcp_transport.cpp:384-428 | a partial receive keeps the link invariant |
| `Links.Link.FrontOfStream` | engine/net/src/connection.cpp:133-179 | what was received is a front of what was accepted, encoded |
| `Links.Link.DeliveredInOrder` | engine/net/src/tcp_transport.cpp:472-526 | for every interleaving of sends, partial drains and partial receives the payloads received are a prefix in order of those accepted, and equal once both sides are drained |
| `Links.Link.FittingTrafficNeverSticks` | engine/net/src/tcp_transport.cpp:388-404 | if every accepted message fits the receiver, no poll ends in a framing error |
| `ConnectionTable.NewIdIffRoom` | engine/net/include/mmo/net/connection.h:172-192 | in the machine arithmetic of the allocator the new id reaches the serial if and only if the slot still has such an id |
| `ConnectionTable.WrapsToZero` | engine/net/include/mmo/net/connection.h:172-192 | where the slot has no such id the generation becomes zero exactly: the id is the number of the slot |
| `ConnectionTable.NextIsCounted` | engine/net/include/mmo/net/connection.h:172-192 | with n ids handed out no generation is above n, and the next one is at most n + 1: no slot runs out before 2^32 - 1 ids |
| `ConnectionTable.GivenGrows` | engine/net/include/mmo/net/connection.h:172-192 | one id more: the first 2^32 - 1 ids rise, and the first 2^32 are all different |
| `ConnectionTable.NextInSteps` | engine/net/include/mmo/net/connection.h:180-187 | the sum that wraps around in 64 and 32 bits raises the generation by the missing steps, rounded up |
| `ConnectionTable.OneSlotIdIs` | engine/net/include/mmo/net/connection.h:172-192 | the ids that one slot alone gets, one by one |
| `ConnectionTable.IdsComeAgain` | engine/net/include/mmo/net/connection.h:172-192 | the bound is exact: one slot alone gets its largest id, then zero, and after 2^32 ids its ids come again |
| `ConnectionTable.OneSlotGrows` | engine/net/include/mmo/net/connection.h:172-192 | with one slot the allocator hands out exactly these ids, one after the other |
| `ConnectionTable.OneSlotRepeatsIff` | engine/net/include/mmo/net/connection.h:172-192 | with one slot all ids handed out are different if and only if they are at most 2^32 |
| `ConnectionTable.IdAllocator.constructor` | engine/net/include/mmo/net/connection.h:164-170 | all slots free, each on the stack once |
| `ConnectionTable.IdAllocator.Allocate` | engine/net/include/mmo/net/connection.h:172-192 | takes a free slot, refuses exactly if none is free; while all ids so far rise the new one is new, and it rises too exactly if the serial is at most the largest id of its slot |
| `ConnectionTable.IdAllocator.Release` | engine/net/include/mmo/net/connection.h:194-211 | gives back exactly the slot of a current id and ignores any other |
| `ConnectionTable.Poller.Upsert` | engine/net/src/poller.h:62-94 | the registration of the handle is set, all others stay |
| `ConnectionTable.Poller.Remove` | engine/net/src/poller.h:96-106 | the registration is gone, all others stay, although the last entry moves |
| `ConnectionTable.RemovedOk` | engine/net/src/poller.h:96-106 | swapping in the last entry and dropping the end removes exactly one registration |
| `ConnectionTable.PhaseMeans` | engine/net/src/tcp_transport.cpp:246-335 | the phase of an id is sound and complete for the shape of its event stream |
| `ConnectionTable.TcpTransport.constructor` | engine/net/src/tcp_transport.cpp:125-137 | empty tables |
| `ConnectionTable.TcpTransport.Get` | engine/net/src/tcp_transport.cpp:606-619 | answers exactly the ids in the table, with their slot, and for the first 2^32 connections never a released id |
| `ConnectionTable.TcpTransport.Listen` | engine/net/src/tcp_transport.cpp:225-232 | a second call and a handle that the system does not give are refused and change nothing; otherwise the handle is registered beside the connections |
| `ConnectionTable.TcpTransport.ProcessAccept` | engine/net/src/tcp_transport.cpp:337-382 | accepts up to the limit and refuses the rest; all tables stay in step |
| `ConnectionTable.TcpTransport.AcceptOne` | engine/net/src/tcp_transport.cpp:354-380 | one connection: a new id, all four tables and one Connected event; the allocator has a slot whenever the count is below the limit |
| `ConnectionTable.TcpTransport.RemoveConnection` | engine/net/src/tcp_transport.cpp:545-581 | one Disconnected event and out of all tables |
| `ConnectionTable.TcpTransport.Forget` | engine/net/src/tcp_transport.cpp:572-580 | out of all four tables at once; the id is released for good |
| `ConnectionTable.TcpTransport.ProcessRecv` | engine/net/src/tcp_transport.cpp:384-428 | the tables: for the packets and the end that the byte level found, the Received events in order, then the end; the connection was active now exactly if bytes came; other connections stay |
| `ConnectionTable.TcpTransport.ProcessSend` | engine/net/src/tcp_transport.cpp:430-444 | the tables: the end if a close was asked for, else a drained notice exactly if drained; other connections stay |
| `ConnectionTable.TcpTransport.CheckIdleTimeouts` | engine/net/src/tcp_transport.cpp:528-543 | ends exactly the connections that were idle for longer than allowed |
| `ConnectionTable.TcpTransport.CloseAll` | engine/net/src/tcp_transport.cpp:583-600 | empties all tables and emits nothing |
| `ConnectionTable.TcpTransport.Stop` | engine/net/src/tcp_transport.cpp:234-244 | afterwards nothing is registered |
| `ConnectionTable.TcpTransport.SyncWants` | engine/net/src/tcp_transport.cpp:251-263 | what every connection waits for is what it needs |
| `ConnectionTable.TcpTransport.Poll` | engine/net/src/tcp_transport.cpp:246-335 | the answer of a round is exactly the events added to the history: the connections let in, up to the limit and only if the listening handle is ready, then the events of every ready handle in order, then the timeouts; nothing on a failed wait; all tables stay in step |
| `ConnectionTable.TcpTransport.HandleReady` | engine/net/src/tcp_transport.cpp:305-332 | a ready handle that is known yields its events and leaves the tables if it ends; any other is passed over |
| `ConnectionTable.TcpTransport.ServeReady` | engine/net/src/tcp_transport.cpp:317-332 | the events and the table change of one ready connection, in every combination of its flags |
| `ConnectionTable.RoundIs` | engine/net/src/tcp_transport.cpp:317-332 | the events of one ready connection one by one: its packets, then at most one event more, which is an end exactly if the connection ends |
| `ConnectionTable.TableAnswers` | engine/net/src/tcp_transport.cpp:606-619 | the id table and the allocator give the same answer about every id |
| `ConnectionTable.CountsAgree` | engine/net/src/tcp_transport.cpp:367-378 | both tables have as many entries as the allocator counts |
| `ConnectionTable.OneCount` | engine/net/src/tcp_transport.cpp:337-382 | in every reachable state the tables, the poll set and the count have one size, within the limit |
| `ConnectionTable.StreamsAreOrderly` | engine/net/src/tcp_transport.cpp:246-335 | for the first 2^32 connections let in: per id Connected, then packets and drained notices, then at most one Disconnected and nothing behind it |
| `ConnectionTable.StreamsInOrderIff` | engine/net/src/tcp_transport.cpp:246-335 | in every reachable state all streams are in order if and only if no id was handed out twice |
| `ConnectionTable.OneConnectionOrderlyIff` | engine/net/src/tcp_transport.cpp:246-335 | with room for one connection at a time all event streams are in order if and only if at most 2^32 were let in |
| `ConnectionTable.RepeatBreaksStream` | engine/net/src/tcp_transport.cpp:246-335 | an id handed out twice has two beginnings in its stream |
| `Serving.ReportedIsParse` | engine/net/src/tcp_transport.cpp:472-526 | between polls the Received payloads of an open connection in the event history are the reference reading of all its bytes, however they were cut into chunks; of an ended one, a front of it |
| `Serving.Accept` | engine/net/src/tcp_transport.cpp:354-380 | a new connection starts in step with its new receive buffer, active now, under its handle and with its event |
| `Serving.ProcessRecv` | engine/net/src/tcp_transport.cpp:384-428 | receiving and tables together: the new payloads are reported in order, the end with its reason behind them exactly if there is one (EndsWith), and nothing of other connections changes |
| `Serving.ProcessSend` | engine/net/src/tcp_transport.cpp:430-444 | sending and tables together: the next piece of the stream goes out; a requested close, a graceful one too, ends the connection in this round, with all bytes out if and only if the kernel takes both stored parts whole, each in one call |
| `Serving.DrainRound` | engine/net/src/tcp_transport.cpp:430-436 | what one round of sending means for the tables, with the exact condition on the calls of send for all bytes to go out |
| `Serving.GracefulCloseLoses` | engine/net/include/mmo/net/transport.h:101-101 | a message sent and then a graceful close: the connection ends as closed gracefully and no byte has gone out |
| `Serving.PacketsReported` | engine/net/src/tcp_transport.cpp:515-525 | reported packets go behind those reported before and belong to one connection |
| `Serving.RoundReported` | engine/net/src/tcp_transport.cpp:384-428 | what one round of receiving adds to what is reported |
| `Rounds.LineChanges` | engine/net/src/tcp_transport.cpp:305-332 | one slot changes: the table changes in its line only |
| `Rounds.LineGoes` | engine/net/src/tcp_transport.cpp:572-580 | a connection is dropped: its line is gone and the others stay |
| `Rounds.LineAdded` | engine/net/src/tcp_transport.cpp:365-369 | a connection comes in: one line more |
| `Rounds.LineRead` | engine/net/src/tcp_transport.cpp:384-428 | what a connection received is what its line of the table shows, and the line is gone exactly if it ended |
| `Rounds.LineWritten` | engine/net/src/tcp_transport.cpp:430-444 | the same for what it sent |
| `Rounds.OneLetIn` | engine/net/src/tcp_transport.cpp:337-382 | one connection more, behind those let in before |
| `Rounds.OneServed` | engine/net/src/tcp_transport.cpp:305-332 | one ready handle more, behind those served before |
| `Rounds.TimeoutsFor` | engine/net/src/tcp_transport.cpp:528-543 | a connection is timed out exactly if it was idle for longer than allowed |
| `Rounds.TimeoutsDiffer` | engine/net/src/tcp_transport.cpp:528-543 | each of them once |
| `Rounds.HandlesSwept` | engine/net/src/tcp_transport.cpp:528-543 | after the check a handle is known exactly if it was and its connection was not late |
| `Rounds.SweptTable` | engine/net/src/tcp_transport.cpp:528-543 | the check drops the connections that were idle for longer than allowed, with one event each, and no others |
| `Servers.Server.constructor` | engine/net/src/tcp_transport.cpp:125-137 | no connections |
| `Servers.Server.AllReportedIsParse` | engine/net/src/tcp_transport.cpp:472-526 | in every reachable state: the Received payloads reported of every open connection are the reference reading of all bytes that came in for it |
| `Servers.Server.Poll` | engine/net/src/tcp_transport.cpp:246-335 | a whole round with the bytes of all connections. The answer is the Connected events of those let in, up to the limit and only if the listening handle is ready; then, handle by handle, the packets that the received bytes complete, the end or the drained notice; then the timeouts. Each step changes the table as Serves, LetIn and TimesOut say, bytes and all; nothing happens on a failed wait. Afterwards all connections are in step with the event history again and share no buffer |
| `Servers.Server.Serve` | engine/net/src/tcp_transport.cpp:305-332 | one ready handle: passed over if it is the listening one or unknown, gone with its event if it failed, and otherwise it receives and, if it is still there, sends, as its flags say; the events are exactly those of these steps |
| `Servers.Server.Receive` | engine/net/src/tcp_transport.cpp:384-428 | one connection receives: its bytes are the next ones, its new payloads are the events, it is gone with its reason exactly if the calls or the bytes say so, and the lines of the others stay |
| `Servers.Server.Send` | engine/net/src/tcp_transport.cpp:430-444 | one connection sends: its bytes advance by what the two calls take; it is gone exactly if a close was asked for, and otherwise announces that all is sent exactly if it is |
| `Servers.Server.Fail` | engine/net/src/tcp_transport.cpp:318-321 | a failed connection is gone with its event, and the lines of the others stay |
| `Servers.Server.Accept` | engine/net/src/tcp_transport.cpp:354-380 | one line more: a new id, active now, nothing received or queued, with buffers of its own |
| `Servers.Server.AcceptAll` | engine/net/src/tcp_transport.cpp:337-382 | the first of the incoming handles, as many as the limit admits, each with its event, in order |
| `Servers.Server.DropIdle` | engine/net/src/tcp_transport.cpp:528-543 | exactly the connections that were idle for longer than allowed are gone, each with one event |
| `Servers.Server.StartRound` | engine/net/src/tcp_transport.cpp:246-263 | the answer of the round before is dropped, what every connection waits for is brought up to date, and the table stays |
| `Servers.Server.WantsWrite` | engine/net/src/tcp_transport.cpp:257-258 | a connection waits for writing exactly if it has bytes queued or a close was asked for |
| `Servers.Server.SendTo` | engine/net/src/tcp_transport.cpp:606-619 | an id that is not in the table is refused; otherwise the message is queued whole for that connection alone, or refused for its exact reason without a trace |
| `Servers.Server.RequestClose` | engine/net/src/tcp_transport.cpp:606-619 | only the connection with the id is asked to close, the first reason stays, and it is there until the next round of sending |
| `Servers.Server.Rejoin` | engine/net/src/tcp_transport.cpp:305-332 | a connection that was served goes back among the others, which are as they were, or is dropped |
| `Servers.ReceiveOne` | engine/net/src/tcp_transport.cpp:384-428 | one connection receives, as its line of the table shows it |
| `Servers.SendOne` | engine/net/src/tcp_transport.cpp:430-444 | one connection sends, as its line of the table shows it |
| `Servers.SendBy` | engine/net/src/connection.cpp:88-120 | a message is queued, or refused for its exact reason |
| `Servers.Beside` | engine/net/src/tcp_transport.cpp:246-335 | the other connections do not depend on the objects of one of them |
| `Servers.Join` | engine/net/src/tcp_transport.cpp:246-335 | a connection put back beside others that share no object with it |
| `Servers.OthersLinked` | engine/net/src/tcp_transport.cpp:472-526 | events of one connection leave what is reported of the others alone |
| `ResourceCache.EvictionIsUnique` | client/resource/src/resource_manager.cpp:194-224 | the result of an eviction is determined by the entries and the budget: the shortest run of the oldest evictable entries that suffices |
| `ResourceCache.Nested` | client/resource/src/resource_manager.cpp:194-212 | runs of oldest entries are nested |
| `ResourceCache.NoExtraVictim` | client/resource/src/resource_manager.cpp:194-224 | no eviction result contains a victim another one kept |
| `ResourceCache.EvictMore` | client/resource/src/resource_manager.cpp:194-212 | evicting the oldest once more keeps the run a run of oldest, and needed |
| `ResourceCache.BooksEvict` | client/resource/src/resource_manager.cpp:107-113 | the bytes and the count taken off were there: no underflow |
| `ResourceCache.BooksCommit` | client/resource/src/resource_manager.cpp:310-323 | a commit is the first one of its id and moves the totals by its size |
| `ResourceCache.BooksInsert` | client/resource/src/resource_manager.cpp:154-169 | a new entry, its index and its job, together |
| `ResourceCache.BudgetStays` | client/resource/src/resource_manager.cpp:134-192 | referenced or unfinished entries add nothing to evict |
| `ResourceCache.SumChange` | client/resource/src/resource_manager.cpp:99-113 | changing one entry changes a category total by the difference |
| `ResourceCache.SumAddsUp` | client/resource/src/resource_manager.cpp:99-113 | the totals of a category count every loaded entry of it once, with its size |
| `ResourceCache.InUseStays` | client/resource/src/resource_manager.cpp:194-224 | an entry that is referenced or still loading is never evicted, and what stays is as it was |
| `ResourceCache.ResourceManager.constructor` | client/resource/src/resource_manager.cpp:35-41 | an empty cache with idle workers |
| `ResourceCache.ResourceManager.Init` | client/resource/src/resource_manager.cpp:66-72 | sets the budgets, texture and mesh as the preset says and 64 MiB for audio; the first call leaves every category within budget |
| `ResourceCache.ResourceManager.Touch` | client/resource/src/resource_manager.cpp:148-149 | one entry gets a fresh tick and a new count |
| `ResourceCache.ResourceManager.Insert` | client/resource/src/resource_manager.cpp:154-169 | next id, index entry and queued job |
| `ResourceCache.ResourceManager.Find` | client/resource/src/resource_manager.cpp:143-146 | the index and the entries agree, so a known uri always has its entry |
| `ResourceCache.ResourceManager.LoadAsync` | client/resource/src/resource_manager.cpp:134-171 | a known uri gains a reference, a new one gets the next id and a queued load; requests and hits are counted; nothing else changes |
| `ResourceCache.ResourceManager.EvictOne` | client/resource/src/resource_manager.cpp:194-212 | removes exactly the least recently used committed unreferenced entry of the category, and says no exactly if there is none |
| `ResourceCache.ResourceManager.FindVictim` | client/resource/src/resource_manager.cpp:195-203 | the oldest evictable entry whatever the order of the table |
| `ResourceCache.ResourceManager.EvictCategory` | client/resource/src/resource_manager.cpp:214-217 | the shortest prefix in order of use that brings the category within budget, or all; other categories stay |
| `ResourceCache.ResourceManager.EvictToBudget` | client/resource/src/resource_manager.cpp:214-224 | texture, mesh and audio in turn; then every category is within budget or has nothing evictable |
| `ResourceCache.ResourceManager.Unload` | client/resource/src/resource_manager.cpp:173-192 | the three results, the returned reference and the eviction that follows |
| `ResourceCache.ResourceManager.SetQuality` | client/resource/src/resource_manager.cpp:226-236 | the budgets of the preset hold at once: a category is within its own or all its loaded entries are in use |
| `ResourceCache.ResourceManager.WorkerPop` | client/resource/src/resource_manager.cpp:268-276 | the front job goes to the worker |
| `ResourceCache.ResourceManager.WorkerRead` | client/resource/src/resource_manager.cpp:283-294 | the entry is there and its size is taken under the current preset |
| `ResourceCache.ResourceManager.HeldIsLoading` | client/resource/src/resource_manager.cpp:283-295 | the entry of a job in hand exists and is not committed, so it is never skipped |
| `ResourceCache.ResourceManager.WorkerCommit` | client/resource/src/resource_manager.cpp:310-323 | each id is committed once; then the budgets are enforced |
| `SceneStreaming.KeyIsInjective` | client/resource/src/scene_streamer.cpp:19-24 | no two chunks of 32-bit coordinates share a key |
| `SceneStreaming.SquareIsBall` | client/resource/src/scene_streamer.cpp:77-80 | the two loops visit exactly the chunks within the radius |
| `SceneStreaming.CellsVisited` | client/resource/src/scene_streamer.cpp:77-108 | requests as many unknown cells as the limit admits and rescues the leaving ones |
| `SceneStreaming.FrameChunkByChunk` | client/resource/src/scene_streamer.cpp:26-112 | a frame, chunk by chunk, for every order of the table |
| `SceneStreaming.LoadedIsNear` | client/resource/src/scene_streamer.cpp:26-112 | after every frame loaded chunks lie within the radius and none of the square is leaving |
| `SceneStreaming.NoLoadStorm` | client/resource/src/scene_streamer.cpp:77-108 | chunks are never forgotten and a frame requests at most the limit |
| `SceneStreaming.MissingShrinks` | client/resource/src/scene_streamer.cpp:77-108 | unknown cells of the square fall by exactly the limit or all |
| `SceneStreaming.WorkShrinks` | client/resource/src/scene_streamer.cpp:37-62 | loads and unknown cells together fall by exactly the completions |
| `SceneStreaming.PendingProgress` | client/resource/src/scene_streamer.cpp:40-41 | a load in progress advances by the frame time |
| `SceneStreaming.NoneLostStays` | client/resource/src/scene_streamer.cpp:64-108 | inside the square nothing loaded is lost |
| `SceneStreaming.Requesting` | client/resource/src/scene_streamer.cpp:77-97 | the whole square is requested, the limit of it per frame |
| `SceneStreaming.Aging` | client/resource/src/scene_streamer.cpp:37-52 | then every pending load ages with every frame |
| `SceneStreaming.Draining` | client/resource/src/scene_streamer.cpp:42-51 | then the limit completes per frame |
| `SceneStreaming.SquareGetsLoaded` | client/resource/src/scene_streamer.cpp:26-112 | with a fixed player chunk the whole square is loaded after a computed number of frames, if no chunk of it is unloaded after the first |
| `SceneStreaming.UnloadedForGood` | client/resource/src/scene_streamer.cpp:84-106 | an unloaded chunk keeps its entry and is never requested again |
| `SceneStreaming.SquareLoadedIff` | client/resource/src/scene_streamer.cpp:26-112 | after that many frames the square is loaded if and only if, at the first of them, no chunk of it is unloaded or leaving with less time left than the frame lasts |
| `SceneStreaming.UnloadedAfterIff` | client/resource/src/scene_streamer.cpp:37-62 | in the square a frame leaves exactly those chunks unloaded that were, or that leave with less time left than the frame lasts |
| `SceneStreaming.DroppedSquare` | client/resource/src/scene_streamer.cpp:114-125 | for every configuration and place, dropping all chunks after one frame leaves the square never to be loaded |
| `SceneStreaming.BallSize` | client/resource/src/scene_streamer.cpp:77-80 | the square has its width squared cells, so the number of frames is known from the configuration |
| `SceneStreaming.LeftBehindIff` | client/resource/src/scene_streamer.cpp:52-75 | a loaded chunk that the player leaves is unloaded exactly when the frames behind the one that notices last for the delay |
| `SceneStreaming.SceneStreamer.Update` | client/resource/src/scene_streamer.cpp:26-112 | by the position of the player: the new table is the old one after a frame around the chunk the player is in, what completes, is requested, starts to leave, is rescued or unloaded stated chunk by chunk; the running counter gains one too many for exactly the leaving chunks that are near again |
| `SceneStreaming.SceneStreamer.CenterOf` | client/resource/src/scene_streamer.cpp:28-31 | the chunk that the position lies in: its edges, in chunk sizes of 128 if none is set, hold the position |
| `SceneStreaming.FrameIsAround` | client/resource/src/scene_streamer.cpp:26-112 | a frame chunk by chunk, by distance, time and limits: no load completes before its time, as many complete and are requested as the limits admit, exactly the far ones leave and exactly the near ones stay |
| `SceneStreaming.NearIs` | client/resource/src/scene_streamer.cpp:64-80 | the square of chunks is those within the radius in both directions |
| `SceneStreaming.RowsInOrder` | client/resource/src/scene_streamer.cpp:77-80 | the chunks are visited row by row |
| `SceneStreaming.SceneStreamer.StepA` | client/resource/src/scene_streamer.cpp:37-62 | advances everything; as many ready loads complete as the limit admits |
| `SceneStreaming.SceneStreamer.StepB` | client/resource/src/scene_streamer.cpp:64-75 | exactly the loaded chunks outside the radius start to leave |
| `SceneStreaming.SceneStreamer.StepC` | client/resource/src/scene_streamer.cpp:77-108 | the row by row visit |
| `SceneStreaming.SceneStreamer.VisitRow` | client/resource/src/scene_streamer.cpp:79-107 | one row of the visit |
| `SceneStreaming.SceneStreamer.Visit` | client/resource/src/scene_streamer.cpp:80-106 | one cell: requested, rescued or left alone |
| `SceneStreaming.SceneStreamer.Replace` | client/resource/src/scene_streamer.cpp:43-61 | the running counter follows loads and unloads |
| `SceneStreaming.SceneStreamer.ForceUnloadAll` | client/resource/src/scene_streamer.cpp:114-125 | every chunk becomes unloaded and keeps its entry |
| `SceneStreaming.SceneStreamer.Stats` | client/resource/src/scene_streamer.cpp:127-139 | the recounted numbers are the sizes of the loaded and pending sets |
| `SceneStreaming.SceneStreamer.CounterDrift` | client/resource/src/scene_streamer.cpp:100-103 | the running counter exceeds the loaded chunks by the leaving ones and every cancelled unload |
| `SceneStreaming.DriftedCounter` | client/resource/src/scene_streamer.cpp:100-103 | a run of four frames after which it does |
| `Scripting.LiveReferences` | scripting/lua/src/script_context.cpp:229-243 | between operations the live references are exactly those of loaded scripts, queued loads and subscribers |
| `Scripting.ScriptsOwnMeans` | scripting/lua/src/script_context.cpp:692-760 | counting owners is having an owning slot |
| `Scripting.QueueOwnsMeans` | scripting/lua/src/script_context.cpp:621-640 | counting owners is having an owning queued load |
| `Scripting.NothingReleased` | scripting/lua/src/script_context.cpp:102-139 | while queue and subscribers only grow, no live reference is given back |
| `Scripting.AppliedIsLater` | scripting/lua/src/script_context.cpp:1054-1096 | applying a queue renames and drops no slot, and an unloaded one stays unloaded |
| `Scripting.UnloadedForGood` | scripting/lua/src/script_context.cpp:609-760 | over any run of operations an unloaded id is never loaded again and ids keep their names |
| `Scripting.PromisedIdsCollide` | scripting/lua/src/script_context.cpp:621-640 | two new names queued in one run are promised the same id, and the second promise is wrong |
| `Scripting.UnloadingBreaksPromise` | scripting/lua/src/script_context.cpp:621-640 | a load queued behind the unloading of its own name takes effect under a new id |
| `Scripting.LoadedWhile` | scripting/lua/src/script_context.cpp:744-760 | a loaded slot stays loaded through a queue exactly if its unloading is not in it |
| `Scripting.FirstAdded` | scripting/lua/src/script_context.cpp:713-722 | the first queued load that adds a slot gets the next id for its name |
| `Scripting.PromiseKeptIff` | scripting/lua/src/script_context.cpp:621-640 | for every queue: the promised id is right if and only if the changes before leave the slot of a loaded name, or give the next slot to a new name first and keep it |
| `Scripting.QueuedPromiseKeptIff` | scripting/lua/src/script_context.cpp:1072-1093 | the same for the load at position k of a queue |
| `Scripting.QueuedIdsArePromised` | scripting/lua/src/script_context.cpp:621-640 | every load a run leaves in the queue carries the id its name has on the table |
| `Scripting.ScriptContext.PromisesAtSafePoint` | scripting/lua/src/script_context.cpp:1054-1096 | which ids of the queue as it stands the next safe point keeps |
| `Scripting.CaughtLimit` | scripting/lua/src/lua_vm.cpp:116-135 | a chunk that catches the error of a limit is activated while all it queued is lost |
| `Scripting.LimitCaughtOnHost` | scripting/lua/src/lua_vm.cpp:116-135 | the same on a host: the chunk is loaded and nothing is queued, although it asked for a load |
| `Scripting.TargetOf` | scripting/lua/src/script_context.cpp:692-723 | the name index finds what a scan of the table would |
| `Scripting.TableAppend` | scripting/lua/src/script_context.cpp:713-722 | a new slot keeps the name index the inverse of the loaded slots |
| `Scripting.TableVacate` | scripting/lua/src/script_context.cpp:744-760 | an emptied slot keeps the name index the inverse of the loaded slots |
| `Scripting.ScriptContext.constructor` | scripting/lua/src/script_context.cpp:159-159 | nothing loaded, queued or referenced |
| `Scripting.ScriptContext.NewRef` | scripting/lua/src/script_context.cpp:419-442 | a reference that was not live |
| `Scripting.ScriptContext.Unref` | scripting/lua/src/script_context.cpp:229-243 | only live references are released: no double free |
| `Scripting.ScriptContext.Run` | scripting/lua/src/script_context.cpp:102-139 | whatever the script calls, at any depth: the tables are untouched and references balance; the queue gains exactly what was asked for if and only if no limit was hit or nothing was asked for, and nothing otherwise, however the run ends |
| `Scripting.ScriptContext.Rollback` | scripting/lua/src/script_context.cpp:229-243 | the queue is cut back and the chunks of the dropped loads are released |
| `Scripting.ScriptContext.Perform` | scripting/lua/src/script_context.cpp:217-243 | one call back from a running script changes no table |
| `Scripting.ScriptContext.RunCompiledChunk` | scripting/lua/src/script_context.cpp:444-574 | two references that were not live before, exactly if the chunk ended normally, whether or not a limit was hit |
| `Scripting.ScriptContext.RunChunkFromSource` | scripting/lua/src/script_context.cpp:576-603 | the compiled chunk is released on every path |
| `Scripting.ScriptContext.ActivateScript` | scripting/lua/src/script_context.cpp:692-723 | the slot with that name holds the new references, or a new slot does, under the id a scan gives; no other slot changes |
| `Scripting.ScriptContext.Overwrite` | scripting/lua/src/script_context.cpp:695-711 | the slot holds the new references and the old ones are released |
| `Scripting.ScriptContext.Install` | scripting/lua/src/script_context.cpp:695-711 | a slot takes over references |
| `Scripting.ScriptContext.Append` | scripting/lua/src/script_context.cpp:713-722 | a slot is added |
| `Scripting.ScriptContext.UnloadImmediate` | scripting/lua/src/script_context.cpp:744-760 | empties exactly a loaded slot, releases its references and changes no other |
| `Scripting.ScriptContext.Vacate` | scripting/lua/src/script_context.cpp:744-760 | the slot keeps its id for ever |
| `Scripting.ScriptContext.Enqueue` | scripting/lua/src/script_context.cpp:621-640 | a queued load owns its chunk |
| `Scripting.ScriptContext.Load` | scripting/lua/src/script_context.cpp:609-649 | result, table and queue in every case; while running it only queues, with the promised id; at a safe point the chunk is activated exactly if it ended normally, with references of its own, and no other slot changes |
| `Scripting.ScriptContext.LoadNow` | scripting/lua/src/script_context.cpp:643-648 | at a safe point: the chunk is run and activated exactly if it ended normally |
| `Scripting.ScriptContext.ReloadInPlace` | scripting/lua/src/script_context.cpp:651-690 | the result in every case; on success the slot of that name, and no other, holds the references of this run; any failure leaves the old version; the queue gains exactly what the chunk asked for |
| `Scripting.ScriptContext.Unload` | scripting/lua/src/script_context.cpp:725-742 | immediate at a safe point, queued while running |
| `Scripting.ScriptContext.Call` | scripting/lua/src/script_context.cpp:762-828 | not found exactly if the script is not loaded or lacks the function; calling changes no table; ok exactly if it ended normally; the queue gains exactly what it asked for, unless a limit was hit |
| `Scripting.ScriptContext.Subscribe` | scripting/lua/src/script_context.cpp:983-990 | exactly one subscriber more, who owns a new reference |
| `Scripting.ScriptContext.ApplyPendingChanges` | scripting/lua/src/script_context.cpp:1054-1096 | refused while running; at a safe point the whole queue takes effect in order, and what its chunks ask for is queued for the next one |
| `Scripting.ScriptContext.TakeQueue` | scripting/lua/src/script_context.cpp:1068-1069 | the queue is emptied before anything runs |
| `Scripting.ScriptContext.ApplyOne` | scripting/lua/src/script_context.cpp:1072-1094 | the effect of one queued change on table and queue |
| `Scripting.ScriptContext.ActivateQueued` | scripting/lua/src/script_context.cpp:1077-1093 | the references of the run go to the slot, those of the chunk are released |
| `Scripting.ScriptContext.ApplyLoad` | scripting/lua/src/script_context.cpp:1077-1093 | a queued chunk is run, released, and activated exactly if it ended normally, with references of its own; the queue gains what it asked for if and only if no limit was hit or nothing was asked for |
| `Json.NumberIsLocal` | scripting/gameplay/src/gameplay_manifest.cpp:245-277 | a number is decided by its own characters |
| `Json.ParsedIffSpelled` | scripting/gameplay/src/gameplay_manifest.cpp:58-68 | the parser accepts exactly the texts whose tokens spell a value, and answers that value |
| `Json.SpellingIsRead` | scripting/gameplay/src/gameplay_manifest.cpp:89-177 | the tokens of a value are read back as the value, whatever follows |
| `Json.ReadingIsSpelled` | scripting/gameplay/src/gameplay_manifest.cpp:89-177 | a value is read only off its own tokens |
| `Json.ElementsAreRead` | scripting/gameplay/src/gameplay_manifest.cpp:150-177 | the same for the elements of an array |
| `Json.MembersAreRead` | scripting/gameplay/src/gameplay_manifest.cpp:108-148 | the same for the members of an object |
| `Json.ScanIsLocal` | scripting/gameplay/src/gameplay_manifest.cpp:73-106 | a token does not depend on the text behind it |
| `Json.BodyIsLocal` | scripting/gameplay/src/gameplay_manifest.cpp:179-243 | a string literal does not depend on the text behind it |
| `Json.EscapesAre` | scripting/gameplay/src/gameplay_manifest.cpp:198-206 | the eight one-letter escapes and the characters they stand for, by their codes |
| `Json.HexIs` | scripting/gameplay/src/gameplay_manifest.cpp:207-225 | the hex digits of either case and their values |
| `Json.Hex4Weighs` | scripting/gameplay/src/gameplay_manifest.cpp:207-225 | the number of four hex digits, digit by digit |
| `Json.Utf8IsRead` | scripting/gameplay/src/gameplay_manifest.cpp:226-243 | the bytes written for a code give the code back, as section 3 of RFC 3629 lays them out |
| `Json.BlanksKeepTokens` | scripting/gameplay/src/gameplay_manifest.cpp:73-82 | white space between tokens leaves the tokens alone, for every text, valid or not |
| `Json.PlacesStay` | scripting/gameplay/src/gameplay_manifest.cpp:73-82 | putting white space at one place keeps the places before it between tokens, so that more can be put in |
| `Json.BlanksKeepMeaning` | scripting/gameplay/src/gameplay_manifest.cpp:73-82 | white space at any set of places between tokens changes neither acceptance nor value, for every text |
| `Json.JsonParser.constructor` | scripting/gameplay/src/gameplay_manifest.cpp:56-56 | reading starts at the front |
| `Json.JsonParser.SkipWs` | scripting/gameplay/src/gameplay_manifest.cpp:73-82 | only spaces, tabs, line feeds and carriage returns are skipped, and all of them |
| `Json.JsonParser.ParseString` | scripting/gameplay/src/gameplay_manifest.cpp:179-243 | the text of a literal with its escapes decoded, and where it ends, or failure exactly if it is malformed |
| `Json.JsonParser.ParseHex4` | scripting/gameplay/src/gameplay_manifest.cpp:207-225 | the four hex digits of an escape |
| `Json.JsonParser.SkipDigits` | scripting/gameplay/src/gameplay_manifest.cpp:251-254 | a run of digits |
| `Json.JsonParser.SkipExponent` | scripting/gameplay/src/gameplay_manifest.cpp:262-270 | the optional exponent |
| `Json.JsonParser.SkipNumber` | scripting/gameplay/src/gameplay_manifest.cpp:245-270 | the extent of a number |
| `Json.JsonParser.ParseNumber` | scripting/gameplay/src/gameplay_manifest.cpp:245-277 | the number at the front as an exact decimal, or failure exactly if it has no digits |
| `Json.JsonParser.ParseValue` | scripting/gameplay/src/gameplay_manifest.cpp:89-106 | reads what the token grammar reads, stays in bounds, terminates |
| `Json.JsonParser.ParseBool` | scripting/gameplay/src/gameplay_manifest.cpp:279-293 | true or false |
| `Json.JsonParser.ParseNull` | scripting/gameplay/src/gameplay_manifest.cpp:295-301 | null |
| `Json.JsonParser.ParseObject` | scripting/gameplay/src/gameplay_manifest.cpp:108-148 | an object as the token grammar reads it |
| `Json.JsonParser.ParseMember` | scripting/gameplay/src/gameplay_manifest.cpp:117-135 | a key, a colon and a value |
| `Json.JsonParser.ParseArray` | scripting/gameplay/src/gameplay_manifest.cpp:150-177 | an array as the token grammar reads it |
| `Json.JsonParser.ParseElement` | scripting/gameplay/src/gameplay_manifest.cpp:159-165 | a value with the white space around it |
| `Json.JsonParser.Parse` | scripting/gameplay/src/gameplay_manifest.cpp:58-68 | succeeds exactly on the texts of the grammar, with nothing behind the value |
| `WrittenNumbers.NumberIsRead` | scripting/gameplay/src/gameplay_manifest.cpp:245-277 | however a number is written, with or without sign, whole part, point, fraction and exponent, it is read as what it denotes |
| `WrittenNumbers.EveryNumberIsWritten` | scripting/gameplay/src/gameplay_manifest.cpp:245-277 | nothing else is read as a number: what is read is written in one of these ways |
| `WrittenNumbers.PartsStand` | scripting/gameplay/src/gameplay_manifest.cpp:245-270 | where the reader finds the parts |
| `WrittenNumbers.ReadAs` | scripting/gameplay/src/gameplay_manifest.cpp:275-275 | the value by the parts: the digits before and behind the point, times or through a power of ten |
| `Decimals.DecimalRoundTrip` | server/control/src/control_io.cpp:59-86 | reading a printed number gives it back |
| `Decimals.DigitIs` | server/control/src/control_io.cpp:39-47 | the ten digits and their values, by their codes |
| `Decimals.NoLeadingZero` | server/control/src/control_io.cpp:59-86 | a printed number has no zero in front, except zero itself |
| `Numbers.Leading` | scripting/gameplay/src/gameplay_manifest.cpp:874-874 | the decimal exponent: the power of ten that starts the decade of the number |
| `Numbers.SixDigits` | scripting/gameplay/src/gameplay_manifest.cpp:874-874 | six digits, the first of them not zero |
| `Numbers.RoundedIsNearest` | scripting/gameplay/src/gameplay_manifest.cpp:874-874 | what is left of a number when it is written is the nearest number of at most six significant digits: no other such number is nearer |
| `Numbers.RoundedIffShort` | scripting/gameplay/src/gameplay_manifest.cpp:874-874 | nothing is lost if and only if the number has at most six significant digits |
| `Numbers.PointedIs` | scripting/gameplay/src/gameplay_manifest.cpp:874-874 | the digits with their point, without trailing zeros, denote the same number |
| `Numbers.PartsAreRounded` | scripting/gameplay/src/gameplay_manifest.cpp:874-874 | what is written, in fixed notation or with an exponent, with either sign, denotes the number rounded to six digits |
| `Numbers.FractionValue` | scripting/gameplay/src/gameplay_manifest.cpp:874-874 | a fraction keeps its value without its trailing zeros |
| `Numbers.DigitsWeigh` | scripting/gameplay/src/gameplay_manifest.cpp:874-874 | digits in front weigh ten times as much for every digit behind them |
| `Numbers.RoundedUp` | scripting/gameplay/src/gameplay_manifest.cpp:874-874 | a number that loses its seventh digit |
| `Manifests.NamesRoundTrip` | scripting/gameplay/src/gameplay_manifest.cpp:468-522 | names and enumeration values determine each other |
| `Manifests.Find` | scripting/gameplay/src/gameplay_manifest.cpp:44-51 | the first field with the key, as in the source; later ones are ignored |
| `Manifests.FieldStringArray` | scripting/gameplay/src/gameplay_manifest.cpp:377-407 | an array of nothing but strings; missing and null only if not required |
| `Manifests.ParseOneBinding` | scripting/gameplay/src/gameplay_manifest.cpp:409-460 | a binding is read exactly if the fields of the object describe it: name, path, category and hooks required and known, keys and requires empty, tick_hz 0 and enabled true where they are missing |
| `Manifests.ParseManifest` | scripting/gameplay/src/gameplay_manifest.cpp:748-789 | for every text: a manifest is read exactly if the text is a JSON object that describes it, with a number or nothing as its first version and an array of describing objects as its first scripts |
| `Manifests.ParseScripts` | scripting/gameplay/src/gameplay_manifest.cpp:771-787 | the loop over the scripts: all of them, or none if one is not described |
| `Manifests.BindingIff` | scripting/gameplay/src/gameplay_manifest.cpp:409-460 | for every object and binding: the binding is read from the object if and only if its fields describe it |
| `Manifests.ManifestIff` | scripting/gameplay/src/gameplay_manifest.cpp:748-789 | for every value and manifest: the manifest is read from the value if and only if the value describes it |
| `Manifests.ReadIff` | scripting/gameplay/src/gameplay_manifest.cpp:748-789 | for every text and manifest: the manifest is read if and only if the text is that of a value that describes it |
| `Manifests.CategoryIff` | scripting/gameplay/src/gameplay_manifest.cpp:479-494 | the five names of categories, and no others |
| `Manifests.HookIff` | scripting/gameplay/src/gameplay_manifest.cpp:507-522 | the five names of hooks, and no others |
| `Manifests.VersionIsCutOff` | scripting/gameplay/src/gameplay_manifest.cpp:763-767 | a version that fits is cut off to a whole number |
| `Manifests.OtherMember` | scripting/gameplay/src/gameplay_manifest.cpp:44-51 | a member of the root with another key changes nothing, wherever it stands |
| `Manifests.OtherScriptMember` | scripting/gameplay/src/gameplay_manifest.cpp:44-51 | a member of a script with another key changes nothing, wherever it stands |
| `Manifests.OtherMemberInList` | scripting/gameplay/src/gameplay_manifest.cpp:771-787 | the same within the list of scripts |
| `Manifests.NotesAreIgnored` | config/gameplay/scripts.json:2-6 | a root of the shape that ships, with two notes between version and scripts, is read as without them |
| `Manifests.BindingsAt` | scripting/gameplay/src/gameplay_manifest.cpp:771-787 | each script of the list is what its own object says |
| `Manifests.PlainBody` | scripting/gameplay/src/gameplay_manifest.cpp:179-243 | a string without quote and backslash is read as it stands |
| `Manifests.SpoiltBody` | scripting/gameplay/src/gameplay_manifest.cpp:179-243 | a string printed with a quote or backslash in it is never read back as it was, whatever is printed behind it |
| `Manifests.QuotedIsRead` | scripting/gameplay/src/gameplay_manifest.cpp:862-874 | one printed string is read back exactly if it is plain |
| `Manifests.DecimalIsRead` | scripting/gameplay/src/gameplay_manifest.cpp:858-872 | a printed whole number is read back |
| `Manifests.AmountIsRead` | scripting/gameplay/src/gameplay_manifest.cpp:245-277 | a number as the stream writes it is read as its six-digit rounding, for every real number |
| `Manifests.PartsAreRead` | scripting/gameplay/src/gameplay_manifest.cpp:245-277 | a printed number is read as what its parts denote |
| `Manifests.ListIsRead` | scripting/gameplay/src/gameplay_manifest.cpp:863-871 | a printed list of strings is read back exactly if all are plain |
| `Manifests.ItemIsRead` | scripting/gameplay/src/gameplay_manifest.cpp:860-873 | the same for every kind of printed item |
| `Manifests.FieldsAreRead` | scripting/gameplay/src/gameplay_manifest.cpp:860-874 | printed fields are read back exactly if their strings are plain |
| `Manifests.LookupPrinted` | scripting/gameplay/src/gameplay_manifest.cpp:44-51 | every printed field is found under its key |
| `Manifests.LookupMisread` | scripting/gameplay/src/gameplay_manifest.cpp:44-51 | where reading went wrong, the wrong value is the one found |
| `Manifests.BindingSays` | scripting/gameplay/src/gameplay_manifest.cpp:409-460 | what an object must hold for a binding to be read from it |
| `Manifests.BindingOfPrinted` | scripting/gameplay/src/gameplay_manifest.cpp:409-460 | a binding is read back from its printed fields, up to the rounding of its tick_hz |
| `Manifests.BindingMisread` | scripting/gameplay/src/gameplay_manifest.cpp:409-460 | a binding with a misread string is not read back |
| `Manifests.ScriptsAreRead` | scripting/gameplay/src/gameplay_manifest.cpp:859-875 | printed scripts are read back exactly if all strings are plain |
| `Manifests.RootIsRead` | scripting/gameplay/src/gameplay_manifest.cpp:748-789 | how the printed manifest as a whole is read |
| `Manifests.RoundTripIff` | scripting/gameplay/src/gameplay_manifest.cpp:856-879 | for every manifest: reading it printed gives it back if and only if no string of it contains a quote or a backslash and every tick_hz has at most six significant digits |
| `Manifests.PrintedIsRead` | scripting/gameplay/src/gameplay_manifest.cpp:856-879 | for every manifest: printed and read it is the manifest with every tick_hz rounded to six digits if all strings are plain, and not itself otherwise |
| `Manifests.BackslashIsLost` | scripting/gameplay/src/gameplay_manifest.cpp:856-879 | a manifest that is not read back |
| `Manifests.SeventhDigitIsLost` | scripting/gameplay/src/gameplay_manifest.cpp:874-874 | a manifest whose tick_hz is read back rounded |
| `Manifests.BlanksKeepManifest` | scripting/gameplay/src/gameplay_manifest.cpp:748-789 | blanks at any set of places between tokens do not change the manifest that is read, or that none is |
| `Manifests.AppendQuoted` | scripting/gameplay/src/gameplay_manifest.cpp:860-871 | writes one string between quotes |
| `Manifests.AppendList` | scripting/gameplay/src/gameplay_manifest.cpp:863-871 | writes a list with separators between its strings |
| `Manifests.AppendItem` | scripting/gameplay/src/gameplay_manifest.cpp:860-873 | writes one item |
| `Manifests.AppendFields` | scripting/gameplay/src/gameplay_manifest.cpp:860-873 | writes the fields in order with separators |
| `Manifests.AppendScript` | scripting/gameplay/src/gameplay_manifest.cpp:859-875 | writes one script, with a comma unless it is the last |
| `Manifests.ToJson` | scripting/gameplay/src/gameplay_manifest.cpp:856-879 | the printed text, character for character |
| `ControlIo.PiecesJoin` | server/control/src/control_io.cpp:24-37 | pieces are free of the separator and join to the text again |
| `ControlIo.JoinedPieces` | server/control/src/control_io.cpp:24-37 | joining pieces that are free of the separator and splitting gives them back |
| `ControlIo.Split` | server/control/src/control_io.cpp:24-37 | the loop computes the pieces |
| `ControlIo.NumbersRoundTrip` | server/control/src/control_io.cpp:39-55 | integers, negative ones included, are read back in the range of their field |
| `ControlIo.NodeRoundTrip` | server/control/src/control_io.cpp:59-86 | one record is read back unless its address holds the field separator |
| `ControlIo.ReadIsClean` | server/control/src/control_io.cpp:88-125 | whatever is read, its addresses hold neither separator |
| `ControlIo.NodesRoundTripIffClean` | server/control/src/control_io.cpp:59-125 | a node list is read back as it was written if and only if no address holds a field separator or a line break |
| `ControlIo.LineBreakIsLost` | server/control/src/control_io.cpp:59-125 | a node list that is not read back |
| `ControlIo.SerializeNodes` | server/control/src/control_io.cpp:59-86 | the lines with line breaks between them |
| `ControlIo.AppendNode` | server/control/src/control_io.cpp:63-83 | the nine fields of a record |
| `ControlIo.DeserializeNodes` | server/control/src/control_io.cpp:88-125 | nodes are read exactly if the lines that are not empty spell them, one by one and field by field |
| `ControlIo.ReadRecord` | server/control/src/control_io.cpp:99-122 | a node is read exactly if the nine fields spell it in their order, each in its range |
| `ControlIo.ParseUint8` | server/control/src/control_io.cpp:49-55 | a 32-bit field that must fit in eight bits |
| `ControlIo.ConfigRoundTrip` | server/control/src/control_io.cpp:127-153 | version and snapshot are read back for every snapshot, separators included |
| `ControlIo.ConfigIsExact` | server/control/src/control_io.cpp:136-153 | only version, length and a snapshot of that length are read |
| `ControlIo.ConfigIff` | server/control/src/control_io.cpp:136-153 | a configuration is read if and only if the text spells it |
| `ControlIo.RecordIff` | server/control/src/control_io.cpp:99-122 | a record is read as a node if and only if its fields spell the node |
| `ControlIo.LinesIff` | server/control/src/control_io.cpp:88-125 | lines are read as nodes if and only if those that are not empty spell the nodes |
| `ControlIo.LineIs` | server/control/src/control_io.cpp:63-83 | the text of a record: its fields in their order |
| `ControlIo.WrappedSumIff` | server/control/src/control_io.cpp:146-150 | a sum that wraps around cannot be the length of the text |
| `ControlIo.SerializeConfig` | server/control/src/control_io.cpp:127-134 | the written form |
| `ControlIo.DeserializeConfig` | server/control/src/control_io.cpp:136-153 | a configuration is read exactly from the texts that spell it: version, length and a snapshot of that length; the wrapping 64-bit sum of the length check admits nothing else |
| `TickHistograms.Insert` | benchmark/common/src/metrics.cpp:17-31 | insertion into an ordered list keeps order and elements |
| `TickHistograms.Sort` | benchmark/common/src/metrics.cpp:33-49 | the reference: all samples in order |
| `TickHistograms.BucketOfRank` | benchmark/common/src/metrics.cpp:43-47 | the bucket where the cumulative count reaches k holds the k-th smallest sample |
| `TickHistograms.BelowSorted` | benchmark/common/src/metrics.cpp:43-47 | cumulative counts depend only on which samples there are |
| `TickHistograms.BelowAscending` | benchmark/common/src/metrics.cpp:43-47 | in order, the samples below a bucket come first |
| `TickHistograms.Target` | benchmark/common/src/metrics.cpp:39-41 | the rank is between 1 and the number of samples |
| `TickHistograms.TargetIsCeilingIff` | benchmark/common/src/metrics.cpp:38-41 | the rank is the promised ceiling if and only if p*n does not exceed a positive whole number by less than a millionth, and one less otherwise |
| `TickHistograms.TargetFallsShort` | benchmark/common/src/metrics.cpp:38-41 | a rank that is one less than the promised ceiling |
| `TickHistograms.QuantilesGrow` | benchmark/common/src/metrics.cpp:33-49 | inside (0,1) quantiles grow with p, never overestimate the sample asked for and never exceed the largest |
| `TickHistograms.ZeroQuantileFitsIff` | benchmark/common/src/metrics.cpp:35-36 | the quantile at 0 is below the others if and only if the smallest sample is within the buckets |
| `TickHistograms.ExtremesAre` | benchmark/common/src/metrics.cpp:17-31 | smallest and largest are samples with all others between them |
| `TickHistograms.ZeroAboveMedian` | benchmark/common/src/metrics.cpp:35-36 | samples for which it is above the median |
| `TickHistograms.TickHistogram.constructor` | benchmark/common/src/metrics.cpp:7-7 | no samples |
| `TickHistograms.TickHistogram.Reset` | benchmark/common/src/metrics.cpp:9-15 | no samples |
| `TickHistograms.TickHistogram.Record` | benchmark/common/src/metrics.cpp:17-31 | one more sample in buckets, sum, minimum and maximum |
| `TickHistograms.TickHistogram.Quantile` | benchmark/common/src/metrics.cpp:33-49 | nothing for no samples, the smallest and the largest sample at the ends, and in between the target-th smallest sample clamped to the last bucket, as by sorting; the last return is never reached |
| `EconomyAudit.Reconcile` | tools/audit/economy_audit.py:135-269 | no finding if and only if keys are distinct, every currency row is explained by the rows before it without debt, and the snapshot is the net map up to zero extras; each kind of finding exactly where its condition holds |
| `EconomyAudit.FindDuplicates` | tools/audit/economy_audit.py:157-170 | each row that repeats a key is reported, with the first row of that key, no finding comes twice, and there are no others |
| `EconomyAudit.Replay` | tools/audit/economy_audit.py:173-211 | mismatches and debts exactly where the replay says; the replay map is the net map |
| `EconomyAudit.NetAmounts` | tools/audit/economy_audit.py:214-222 | the net map, whose sum is what rows without a counterparty issued |
| `EconomyAudit.CompareBalances` | tools/audit/economy_audit.py:226-255 | differences, missing balances and missing ledgers, each exactly where it is |
| `EconomyAudit.Differences` | tools/audit/economy_audit.py:226-236 | the accounts of the snapshot whose balance is not the net amount |
| `EconomyAudit.MissingBalances` | tools/audit/economy_audit.py:238-245 | the accounts of the ledger that the snapshot does not have |
| `EconomyAudit.MissingLedgers` | tools/audit/economy_audit.py:246-255 | the accounts of the snapshot with a balance and without a ledger row |
| `EconomyAudit.SumOf` | tools/audit/economy_audit.py:258-259 | the sum of a map in any order |
| `EconomyAudit.AppliedIsNet` | tools/audit/economy_audit.py:214-222 | one row moves player and counterparty, a transfer to oneself included |
| `EconomyAudit.RowMoves` | tools/audit/economy_audit.py:214-222 | what one row more moves: a transfer takes from the peer what the player gets, and to oneself it moves nothing |
| `EconomyAudit.TotalLess` | tools/audit/economy_audit.py:258-259 | a sum does not depend on the order |
| `EconomyAudit.ConservationFollows` | tools/audit/economy_audit.py:257-267 | the check of the sums finds nothing that the account checks do not find |
| `EconomyAudit.ChangedAmountIsNoticed` | tools/audit/economy_audit.py:173-211 | changing the amount of one currency row of a clean ledger is always noticed |
| `EconomyAudit.LostRowIsNoticedIff` | tools/audit/economy_audit.py:173-255 | leaving out a row of a clean ledger is noticed if and only if the row moves something |
| `DataServices.FlushKeeps` | server/dataservice/src/data_service.cpp:46-74 | a flush keeps every accepted key queued or stored; if all saves succeed the store holds the last accepted save of a key if and only if that save was not superseded |
| `DataServices.LastWordStays` | server/dataservice/src/data_service.cpp:46-74 | the last word on a key moves from the queue to the store or stays |
| `DataServices.SaveKeeps` | server/dataservice/src/data_service.cpp:31-44 | a save keeps the books: superseded exactly if another record of the key is queued |
| `DataServices.RemainingIs` | server/dataservice/src/data_service.cpp:55-63 | what remains is what was not stored, keys distinct |
| `DataServices.StoredIs` | server/dataservice/src/data_service.cpp:56-63 | stored records are in the store and no other key changes |
| `DataServices.QueueIsStored` | server/dataservice/src/data_service.cpp:56-63 | the store after a flush, key by key: stored, refused and not queued |
| `DataServices.ConflictsAre` | server/dataservice/src/data_service.cpp:57-61 | the conflicts counted are those among the outcomes |
| `DataServices.OlderSaveSticks` | server/dataservice/src/data_service.cpp:40-42 | two different saves of one key between flushes: the store gets the first |
| `DataServices.DataService.constructor` | server/dataservice/include/mmo/data/data_service.h:39-40 | nothing cached, queued or lost; the store is the one given |
| `DataServices.DataService.Load` | server/dataservice/src/data_service.cpp:14-29 | cache hit, store hit, miss and failing store, each exactly: result, cache and both counters |
| `DataServices.DataService.Save` | server/dataservice/src/data_service.cpp:31-44 | the three results exactly; the cache has the record at once, the queue keeps the one it has |
| `DataServices.DataService.Flush` | server/dataservice/src/data_service.cpp:46-74 | the queue afterwards is what failed, in order; the store has the rest and is unchanged for every other key, a refused one too; the conflicts among the outcomes are counted |
| `DataServices.DataService.SaveBatch` | server/dataservice/src/data_service.cpp:55-63 | the saving loop |
| `DataServices.DataService.Requeue` | server/dataservice/src/data_service.cpp:67-71 | the requeueing loop |
| `RateLimiting.AfterCall` | engine/rpc/src/grpc_server.cpp:24-35 | the tokens are the room of the tightest window, and a call is granted if and only if every window can take one more |
| `RateLimiting.WithinAfter` | engine/rpc/src/grpc_server.cpp:24-35 | a call keeps every window of the past within its bound |
| `RateLimiting.WindowBound` | engine/rpc/src/grpc_server.cpp:24-35 | in every window of calls at most the capacity plus the income of the window are granted; for a negative rate in every window that ends with a granted call |
| `RateLimiting.WindowBoundIff` | engine/rpc/src/grpc_server.cpp:24-35 | for every rate and every call: all windows that end with it are within their bound if and only if it was granted or the tokens it found were not negative |
| `RateLimiting.EndsWithinIff` | engine/rpc/src/grpc_server.cpp:24-35 | the windows that end with the last call are within their bound if and only if the tokens are not negative |
| `RateLimiting.TightestAt` | engine/rpc/src/grpc_server.cpp:24-35 | the tokens at every call of a record are those of the bucket filled and emptied call by call, and the room of the tightest window |
| `RateLimiting.NegativeRate` | engine/rpc/src/grpc_server.cpp:24-35 | with rate -1 a refused call after half a second keeps its window and one after one and a half seconds does not |
| `RateLimiting.RateLimiter.constructor` | engine/rpc/src/grpc_server.cpp:20-22 | a full bucket |
| `RateLimiting.RateLimiter.TryAcquire` | engine/rpc/src/grpc_server.cpp:24-35 | granted if and only if every window that ends now can take one more; afterwards these windows are within capacity and income if and only if the call was granted or found tokens that are not negative |
| `RouteTable.TableIsScanIff` | scripting/gameplay/src/gameplay_script_host.cpp:592-616 | for every key the table gives what a scan gives if and only if every serving script that lists the wildcard as its own key lists the key too; for the wildcard itself, if and only if no serving keyless script stands before one that lists it |
| `RouteTable.CollectedOnce` | scripting/gameplay/src/gameplay_script_host.cpp:592-616 | no script is collected twice, whatever the keys |
| `RouteTable.CollectedInOrder` | scripting/gameplay/src/gameplay_script_host.cpp:592-616 | what is collected: those that list the key before those for all keys, both in manifest order |
| `RouteTable.WildcardAsKey` | scripting/gameplay/src/gameplay_script_host.cpp:592-616 | a manifest for which the table answers more than the scan |
| `RouteTable.WildcardBehindKeyless` | scripting/gameplay/src/gameplay_script_host.cpp:592-616 | a manifest for which the table answers in another order than the scan |
| `RouteTable.SelectionsJoinIff` | scripting/gameplay/src/gameplay_script_host.cpp:592-616 | two separate selections one behind the other are the selection of both exactly if the second never comes first |
| `RouteTable.SameSelectionIff` | scripting/gameplay/src/gameplay_script_host.cpp:592-616 | two selections are the same list exactly if they select the same scripts |
| `RouteTable.ChosenFromSelect` | scripting/gameplay/src/gameplay_script_host.cpp:599-610 | choosing from a selection is selecting by both conditions |
| `RouteTable.GameplayScriptHost.constructor` | scripting/gameplay/src/gameplay_script_host.cpp:548-567 | the table over the loaded scripts |
| `RouteTable.GameplayScriptHost.BuildRoutes` | scripting/gameplay/src/gameplay_script_host.cpp:548-567 | the list of every key is the scripts that list it, in manifest order, once |
| `RouteTable.GameplayScriptHost.AddKeys` | scripting/gameplay/src/gameplay_script_host.cpp:560-565 | a script is added to each of its keys once, repeated keys included |
| `RouteTable.GameplayScriptHost.CollectRoutes` | scripting/gameplay/src/gameplay_script_host.cpp:592-616 | the scripts with the hook that list the key, in manifest order, then those without keys, in manifest order, each once |
| `RouteTable.GameplayScriptHost.Collect` | scripting/gameplay/src/gameplay_script_host.cpp:594-611 | the serving scripts of one list that are not there yet |
| `RouteTable.GameplayScriptHost.CollectList` | scripting/gameplay/src/gameplay_script_host.cpp:599-610 | the collecting loop |

## Left out

Weaker than the source, or with a condition the source does not state:

- Manifests.ToJson: numbers are real numbers instead of doubles, so there is no negative zero, infinity or NaN.
- Manifests.ParseManifest: error texts and error codes are not modelled, only whether a manifest is read; the conversion of a version outside 32 bits, which C++ leaves undefined, keeps the low bits.
- Json.JsonParser.ParseNumber: the exact decimal value, without rounding to a double or overflow to infinity; the depth of the stack is not bounded.
- ControlIo.DeserializeNodes: the error is not told apart from other errors.
- ConnectionTable.TcpTransport.ProcessAccept: the system is taken to hand out only handles that are not open, and the error counter is left out.
- ConnectionTable.TcpTransport.Poll: what a ready connection receives and sends is given by its outcome here; `Servers.Server.Poll` puts all connections together with their bytes.
- ConnectionTable.TcpTransport.ProcessRecv: the packets and the end are given; `Serving.ProcessRecv` and `Servers.Server.Receive` compute them from the bytes.
- ConnectionTable.TcpTransport.ProcessSend: whether the queue is drained is given; `Serving.ProcessSend` and `Servers.Server.Send` compute it from the calls of send.
- ConnectionTable.TcpTransport.HandleReady: the outcome is given; `Servers.Server.Serve` is the same with the bytes.
- ConnectionTable.TcpTransport.ServeReady: the outcome is given; `Servers.Server.Serve` is the same with the bytes.
- Connections.Receiver.RemoveConnection: the flag and the reason of the receiving half only; the event and the tables are in `TcpTransport.RemoveConnection`.
- Servers.Server.Poll: for the first 2^32 connections, since after them an id can come again; the timeouts of a round are stated as a set with one event each, their order by slot for `TcpTransport.CheckIdleTimeouts`.
- ConnectionTable.StreamsAreOrderly: for the first 2^32 connections; `IdsComeAgain` shows that no larger bound holds for every use, `StreamsInOrderIff` says when the streams are in order beyond it.
- ConnectionTable.IdAllocator.Allocate: fewer than 2^32 slots; the constructor of the source does not end with more.
- ResourceCache.ResourceManager.Init: a second call does not evict, in the source neither, so only the first leaves the cache within budget.
- ResourceCache.ResourceManager.WorkerRead: the decoded size is a parameter instead of the hash of the uri; video memory, decoded bytes and load time samples are left out.
- ResourceCache.ResourceManager.EvictOne: the clock of uses does not wrap around.
- SceneStreaming.SceneStreamer.Update: times and positions are real numbers; chunk coordinates and the load time hash do not overflow.
- SceneStreaming.SceneStreamer.Stats: last load time, largest number ever loaded and unload counters are left out.
- Scripting.ScriptContext.Load: error texts, the version counter and the check of the owning thread are left out.
- Scripting.ScriptContext.Run: a script is what it calls back and how it ends; its Lua values are not modelled.
- Scripting.ScriptContext.ReloadInPlace: what of the old environment the new version keeps is not modelled.
- TickHistograms.TickHistogram.Quantile: p and its product are real numbers, and counters do not wrap around.
- EconomyAudit.Reconcile: rows are read already; the statistics, the texts and the order in which accounts are reported are left out.
- RateLimiting.RateLimiter.TryAcquire: time and tokens are real numbers, the clock does not run backwards.
- DataServices.DataService.Flush: the outcome of each save is given; the version check is off in the source too, and times are left out.
- DataServices.DataService.Load: whether cache and store work is given.
- DependencyCheck.Check: dependencies are given as ids, not as the text they are found in; the other checks of the task list and the recursion limit of Python are left out.
- Connections.Receiver.ProcessRecv: whole frames still buffered when the peer ends the stream are dropped, as in the source, so the stream statements are for open connections.

Not modelled at all:

- Sockets, threads, files, logging and wall-clock measurement.
- The Lua C API, protobuf and FlatBuffers codecs, gRPC channels and interceptors.
- The event dispatch of the script context and the tick accumulator of the script host.
- The manifest validation and the enabled count: single conditions.
- The other two JSON readers of the client, which have no printer.
- Reconnecting in the client, daemons, benchmark drivers and report generators.
