/**
 * The connection tables of the server transport (engine/net/src/tcp_transport.cpp),
 * the poll set (engine/net/src/poller.h) and the allocator of connection ids
 * (engine/net/include/mmo/net/connection.h): how the tables stay in step over every
 * run, what the event stream of a connection looks like, and when a new id is new.
 */
module ConnectionTable {
  import opened Basics
  import opened Options
  import opened Framing
  import Connections

  type Handle = nat

  // ----- connection ids -----

  const WORD: nat := 0x1_0000_0000
  const LONG: nat := 0x1_0000_0000_0000_0000

  type Generation = g: nat | g < WORD
  type Id = nat

  /** Generation in the high word, slot in the low word. */
  function IdOf(g: Generation, slot: nat): (id: Id)
    requires slot < WORD
    ensures id < LONG && SlotOf(id) == slot && GenerationOf(id) == g
  {
    g * WORD + slot
  }

  function SlotOf(id: Id): (slot: nat)
    ensures slot < WORD
  {
    id % WORD
  }

  function GenerationOf(id: Id): Generation
    requires id < LONG
  {
    id / WORD
  }

  lemma IdParts(id: Id)
    requires id < LONG
    ensures IdOf(GenerationOf(id), SlotOf(id)) == id
  {
  }

  datatype IdSlot = IdSlot(generation: Generation, inUse: bool)

  /** The free slots are on the stack, each once. */
  predicate FreeOk(slots: seq<IdSlot>, free: seq<nat>, inUse: nat) {
    && |slots| < WORD
    && |free| + inUse == |slots|
    && (forall k :: 0 <= k < |free| ==> free[k] < |slots| && !slots[free[k]].inUse)
    && Distinct(free)
    && (forall i :: 0 <= i < |slots| && !slots[i].inUse ==> i in free)
  }

  /** The id a slot gave out last, if it ever did, is below the bound. */
  predicate Below(slots: seq<IdSlot>, bound: nat) {
    |slots| < WORD && forall i :: 0 <= i < |slots| ==> slots[i].generation == 0 || IdOf(slots[i].generation, i) < bound
  }

  /** The largest id a slot can have. */
  function TopId(slot: nat): Id
    requires slot < WORD
  {
    IdOf(WORD - 1, slot)
  }

  /** The generation that Allocate arrives at, in the arithmetic of the machine. */
  function NextGeneration(g: Generation, slot: nat, serial: nat): Generation
    requires slot < WORD && serial < LONG
  {
    var bumped: Generation := (g + 1) % WORD;
    if IdOf(bumped, slot) < serial
    then (bumped + ((serial - IdOf(bumped, slot) + (WORD - 1)) % LONG / WORD) % WORD) % WORD
    else bumped
  }

  /** The generations to go up from `id` until the serial is reached, rounded up. */
  function Steps(id: Id, serial: nat): (k: nat)
    requires id < serial < LONG
    ensures 1 <= k <= WORD && id + (k - 1) * WORD < serial <= id + k * WORD
  {
    (serial - id + (WORD - 1)) / WORD
  }

  /** Rounding up in the machine wraps around only where a whole round of generations is missing. */
  lemma StepsInMachine(id: Id, serial: nat)
    requires id < serial < LONG
    ensures (serial - id + (WORD - 1)) % LONG / WORD % WORD == Steps(id, serial) % WORD
  {
    var sum := serial - id + (WORD - 1);
    if sum >= LONG {
      assert sum % LONG == sum - LONG < WORD;
    } else {
      assert sum % LONG == sum;
    }
  }

  lemma NextInSteps(g: Generation, slot: nat, serial: nat)
    requires slot < WORD && serial < LONG
    ensures var bumped: Generation := (g + 1) % WORD;
            var id := IdOf(bumped, slot);
            NextGeneration(g, slot, serial)
            == if id >= serial then bumped
               else if bumped + Steps(id, serial) < WORD then bumped + Steps(id, serial)
               else bumped + Steps(id, serial) - WORD
  {
    var bumped: Generation := (g + 1) % WORD;
    var id := IdOf(bumped, slot);
    if id < serial {
      StepsInMachine(id, serial);
      Wraps(bumped, Steps(id, serial));
    }
  }

  lemma Wraps(a: nat, k: nat)
    requires a < WORD && k <= WORD
    ensures (a + k % WORD) % WORD == if a + k < WORD then a + k else a + k - WORD
  {
  }

  /**
   * The new id is at least the serial exactly if the slot has such an id at all; otherwise the generation
   * wraps around.
   */
  lemma NewIdIffRoom(g: Generation, slot: nat, serial: nat)
    requires slot < WORD && serial < LONG
    requires g == 0 || IdOf(g, slot) < serial
    ensures IdOf(NextGeneration(g, slot, serial), slot) >= serial <==> serial <= TopId(slot)
    ensures serial <= TopId(slot) ==> NextGeneration(g, slot, serial) > g
  {
    hide NextGeneration, Steps;
    NextInSteps(g, slot, serial);
  }

  // One slot alone, used over and over.

  lemma FirstOfOneSlot()
    ensures NextGeneration(0, 0, 1) == 1
  {
  }

  lemma NextOfOneSlot(g: Generation)
    ensures IdOf(g, 0) + 1 < LONG && NextGeneration(g, 0, IdOf(g, 0) + 1) == (g + 1) % WORD
  {
  }

  /** The k-th id that one slot alone gets, used over and over. */
  function OneSlotId(k: nat): (id: Id)
    ensures id < LONG - 1
  {
    hide NextGeneration;
    if k == 0 then IdOf(NextGeneration(0, 0, 1), 0) else
    var last := OneSlotId(k - 1);
    IdOf(NextGeneration(GenerationOf(last), 0, last + 1), 0)
  }

  lemma {:induction false} OneSlotIdIs(k: nat)
    ensures OneSlotId(k) == IdOf((k + 1) % WORD, 0)
  {
    hide NextGeneration, IdOf, GenerationOf;
    if k == 0 {
      FirstOfOneSlot();
    } else {
      OneSlotIdIs(k - 1);
      NextOfOneSlot(k % WORD);
      OneMore(k);
    }
  }

  lemma OneMore(k: nat)
    ensures (k % WORD + 1) % WORD == (k + 1) % WORD
  {
  }

  /** The bound is exact: one slot alone gets its largest id, then zero, and then its first id again. */
  lemma IdsComeAgain(k: nat)
    ensures OneSlotId(k + WORD) == OneSlotId(k)
    ensures k > 0 && (k + 1) % WORD == 0 ==> OneSlotId(k) == 0 && OneSlotId(k - 1) == TopId(0)
  {
    hide OneSlotId, NextGeneration, GenerationOf;
    OneSlotIdIs(k + WORD);
    OneSlotIdIs(k);
    Period(k + 1);
    if k > 0 {
      OneSlotIdIs(k - 1);
      Period(k);
    }
  }

  lemma Period(n: nat)
    ensures (n + WORD) % WORD == n % WORD
    ensures (n + 1) % WORD == 0 ==> n % WORD == WORD - 1
  {
  }

  /** With one slot the ids are these, and the allocator stands where the last of them left it. */
  predicate OneSlotOk(slots: seq<IdSlot>, serial: nat, given: seq<Id>) {
    |slots| == 1 ==>
      && (forall k :: 0 <= k < |given| ==> given[k] == OneSlotId(k))
      && (if |given| == 0 then slots[0].generation == 0 && serial == 1
          else slots[0].generation == GenerationOf(OneSlotId(|given| - 1)) && serial == OneSlotId(|given| - 1) + 1)
  }

  lemma OneSlotGrows(slots: seq<IdSlot>, serial: nat, given: seq<Id>, i: nat)
    requires OneSlotOk(slots, serial, given) && i < |slots| < WORD && serial < LONG
    ensures var g := NextGeneration(slots[i].generation, i, serial);
            OneSlotOk(slots[i := IdSlot(g, true)], IdOf(g, i) + 1, given + [IdOf(g, i)])
  {
    hide NextGeneration, IdOf, GenerationOf;
    if |slots| == 1 {
      var g := NextGeneration(slots[i].generation, i, serial);
      assert OneSlotId(|given|) == IdOf(g, 0);
    }
  }

  lemma TakenOk(slots: seq<IdSlot>, free: seq<nat>, inUse: nat)
    requires FreeOk(slots, free, inUse) && |free| > 0
    ensures var i := free[|free| - 1];
            i < |slots| && !slots[i].inUse
            && forall g :: FreeOk(slots[i := IdSlot(g, true)], free[..|free| - 1], inUse + 1)
  {
    var i := free[|free| - 1];
    var rest := free[..|free| - 1];
    forall k | 0 <= k < |slots| && k != i && !slots[k].inUse ensures k in rest {
      var j :| 0 <= j < |free| && free[j] == k;
      assert rest[j] == k;
    }
  }

  lemma BelowKept(slots: seq<IdSlot>, i: nat, g: Generation, serial: nat)
    requires Below(slots, serial) && i < |slots|
    ensures IdOf(g, i) >= serial ==> Below(slots[i := IdSlot(g, true)], IdOf(g, i) + 1)
  {
    hide IdOf;
  }

  /** With fewer than 2^32 slots the serial does not wrap around. */
  lemma SerialFits(slots: seq<IdSlot>, i: nat, g: Generation)
    requires i < |slots| < WORD
    ensures IdOf(g, i) + 1 < LONG
  {
  }

  // The ids handed out so far, in order: how long they rise, and how long none comes twice.

  predicate Rising(given: seq<Id>) {
    forall j, k :: 0 <= j < k < |given| ==> given[j] < given[k]
  }

  /** While ids rise, all of them are below the serial and none has generation zero. */
  predicate InRange(given: seq<Id>, serial: nat) {
    forall k :: 0 <= k < |given| ==> WORD <= given[k] < serial
  }

  /** No generation, nor that of the serial, is above the number of ids handed out. */
  predicate Counted(slots: seq<IdSlot>, serial: nat, n: nat) {
    serial < LONG && GenerationOf(serial) <= n && forall i :: 0 <= i < |slots| ==> slots[i].generation <= n
  }

  predicate GivenOk(slots: seq<IdSlot>, serial: nat, given: seq<Id>) {
    && (Rising(given) ==> Below(slots, serial) && InRange(given, serial))
    && (|given| < WORD ==> Rising(given) && Counted(slots, serial, |given|))
    && (|given| <= WORD ==> Distinct(given))
  }

  /** One id more raises the generation by at most one over the number of ids so far. */
  lemma NextIsCounted(g: Generation, slot: nat, serial: nat, n: nat)
    requires slot < WORD - 1 && serial < LONG && g <= n && GenerationOf(serial) <= n < WORD - 1
    ensures serial <= TopId(slot) && NextGeneration(g, slot, serial) <= n + 1
    ensures GenerationOf(IdOf(NextGeneration(g, slot, serial), slot) + 1) <= n + 1
  {
    hide NextGeneration, Steps;
    NextInSteps(g, slot, serial);
  }

  /** Where there is no room the generation wraps around to zero exactly: the id is the number of the slot. */
  lemma WrapsToZero(g: Generation, slot: nat, serial: nat)
    requires slot < WORD && serial < LONG && TopId(slot) < serial
    requires g == 0 || IdOf(g, slot) < serial
    ensures NextGeneration(g, slot, serial) == 0 && IdOf(0, slot) == slot < WORD
  {
    hide NextGeneration, Steps;
    NextInSteps(g, slot, serial);
  }

  lemma GivenGrows(slots: seq<IdSlot>, serial: nat, given: seq<Id>, i: nat)
    requires GivenOk(slots, serial, given) && serial < LONG && i < |slots| < WORD
    ensures var g := NextGeneration(slots[i].generation, i, serial);
            var id := IdOf(g, i);
            GivenOk(slots[i := IdSlot(g, true)], id + 1, given + [id])
            && (Rising(given) ==> id !in given && (Rising(given + [id]) <==> serial <= TopId(i)))
  {
    hide IdOf, NextGeneration, GenerationOf;
    var g := NextGeneration(slots[i].generation, i, serial);
    var id := IdOf(g, i);
    if |given| < WORD - 1 {
      NextIsCounted(slots[i].generation, i, serial, |given|);
    }
    if Rising(given) {
      GivenRises(slots, serial, given, i);
    } else {
      assert forall k :: 0 <= k < |given| ==> (given + [id])[k] == given[k];
    }
  }

  /** While ids rise, the next one is new, and it rises too exactly if its slot has room. */
  lemma GivenRises(slots: seq<IdSlot>, serial: nat, given: seq<Id>, i: nat)
    requires Rising(given) && Below(slots, serial) && InRange(given, serial) && serial < LONG && i < |slots|
    requires |given| == 0 ==> serial <= TopId(i)
    ensures var g := NextGeneration(slots[i].generation, i, serial);
            var id := IdOf(g, i);
            id !in given && (Rising(given + [id]) <==> serial <= TopId(i)) && Distinct(given + [id])
            && (serial <= TopId(i) ==> Below(slots[i := IdSlot(g, true)], id + 1) && InRange(given + [id], id + 1))
  {
    hide NextGeneration;
    var g := NextGeneration(slots[i].generation, i, serial);
    NewIdIffRoom(slots[i].generation, i, serial);
    if serial <= TopId(i) {
      BelowKept(slots, i, g, serial);
    } else {
      WrapsToZero(slots[i].generation, i, serial);
      assert (given + [i])[0] > (given + [i])[|given|];
    }
  }

  class IdAllocator {
    var slots: seq<IdSlot>
    var free: seq<nat>
    var inUse: nat
    var nextSerial: nat
    /** The ids handed out so far. */
    ghost var given: seq<Id>

    ghost predicate Valid()
      reads this
    {
      && FreeOk(slots, free, inUse) && nextSerial < LONG
      && GivenOk(slots, nextSerial, given) && OneSlotOk(slots, nextSerial, given)
    }

    constructor (capacity: nat)
      requires capacity < WORD
      ensures Valid() && |slots| == capacity && inUse == 0 && nextSerial == 1 && |given| == 0
      ensures forall i :: 0 <= i < capacity ==> !slots[i].inUse
    {
      slots := seq(capacity, _ => IdSlot(0, false));
      free := seq(capacity, i => i);
      inUse := 0;
      nextSerial := 1;
      given := [];
      new;
      forall i | 0 <= i < |slots| ensures i in free {
        assert free[i] == i;
      }
    }

    /** Takes a free slot and gives it a new id; None if there is no free slot. */
    method Allocate() returns (id: Option<Id>)
      requires Valid()
      modifies this
      ensures Valid()
      ensures id == None <==> old(inUse) == |slots|
      ensures id == None ==> unchanged(this)
      ensures id.Some? ==> id.value < LONG && SlotOf(id.value) < |old(slots)| && !old(slots)[SlotOf(id.value)].inUse
      ensures id.Some? ==> slots == old(slots)[SlotOf(id.value) := IdSlot(GenerationOf(id.value), true)]
      ensures id.Some? ==> inUse == old(inUse) + 1
      ensures id.Some? ==> given == old(given) + [id.value] && nextSerial == id.value + 1
      ensures id.Some? ==>
                GenerationOf(id.value)
                == NextGeneration(old(slots)[SlotOf(id.value)].generation, SlotOf(id.value), old(nextSerial))
      ensures id.Some? && old(Rising(given)) ==>
                id.value !in old(given) && (Rising(given) <==> old(nextSerial) <= TopId(SlotOf(id.value)))
    {
      hide IdOf, SlotOf, GenerationOf;
      if |free| == 0 {
        return None;
      }
      var idx := free[|free| - 1];
      TakenOk(slots, free, inUse);
      free := free[..|free| - 1];
      var g := slots[idx].generation;
      var bumped := (g + 1) % WORD;
      var cand := IdOf(bumped, idx);
      if cand < nextSerial {
        var delta := nextSerial - cand;
        bumped := (bumped + ((delta + (WORD - 1)) % LONG / WORD) % WORD) % WORD;
        cand := IdOf(bumped, idx);
      }
      assert bumped == NextGeneration(g, idx, nextSerial);
      hide NextGeneration, GivenOk, OneSlotOk, Rising, TopId;
      GivenGrows(slots, nextSerial, given, idx);
      OneSlotGrows(slots, nextSerial, given, idx);
      SerialFits(slots, idx, bumped);
      given := given + [cand];
      slots := slots[idx := IdSlot(bumped, true)];
      nextSerial := cand + 1;
      inUse := inUse + 1;
      return Some(cand);
    }

    /** Gives a slot back if the id is the one in use there; any other id is ignored. */
    method Release(id: Id)
      requires Valid() && id < LONG
      modifies this
      ensures Valid() && nextSerial == old(nextSerial) && given == old(given)
      ensures !old(IsValid(id)) ==> unchanged(this)
      ensures old(IsValid(id)) ==> inUse == old(inUse) - 1
      ensures old(IsValid(id)) ==> slots == old(slots)[SlotOf(id) := IdSlot(GenerationOf(id), false)]
    {
      hide IdOf, SlotOf, GenerationOf, Rising, Distinct, InRange, FreeOk;
      var idx := SlotOf(id);
      if idx >= |slots| {
        return;
      }
      if !slots[idx].inUse {
        return;
      }
      var gen := GenerationOf(id);
      if gen != slots[idx].generation {
        return;
      }
      GivenBack(slots, free, inUse, idx);
      slots := slots[idx := IdSlot(gen, false)];
      inUse := inUse - 1;
      free := free + [idx];
    }

    predicate IsValid(id: Id)
      requires id < LONG
      reads this
    {
      var idx := SlotOf(id);
      idx < |slots| && slots[idx].inUse && GenerationOf(id) == slots[idx].generation
    }
  }

  /** While a slot is in use the count is not zero: the free stack cannot hold all slots. */
  lemma SomeoneUses(slots: seq<IdSlot>, free: seq<nat>, inUse: nat, i: nat)
    requires FreeOk(slots, free, inUse) && i < |slots| && slots[i].inUse
    ensures inUse > 0
  {
    DistinctFit(free, UpTo(|slots|) - {i});
  }

  /** A slot given back goes on the stack. */
  lemma GivenBack(slots: seq<IdSlot>, free: seq<nat>, inUse: nat, i: nat)
    requires FreeOk(slots, free, inUse) && i < |slots| && slots[i].inUse
    ensures inUse > 0 && FreeOk(slots[i := IdSlot(slots[i].generation, false)], free + [i], inUse - 1)
  {
    SomeoneUses(slots, free, inUse, i);
    var more := free + [i];
    assert more[|free|] == i;
    assert forall k :: 0 <= k < |free| ==> more[k] == free[k];
  }

  /** The slot numbers below n. */
  ghost function UpTo(n: nat): (s: set<nat>)
    ensures |s| == n && forall k: nat :: k in s <==> k < n
  {
    if n == 0 then {} else UpTo(n - 1) + {n - 1}
  }

  lemma {:induction false} DistinctFit(s: seq<nat>, all: set<nat>)
    requires forall k :: 0 <= k < |s| ==> s[k] in all
    requires Distinct(s)
    ensures |s| <= |all|
  {
    if |s| == 0 {
    } else {
      DistinctFit(s[..|s| - 1], all - {s[|s| - 1]});
    }
  }

  // ----- the poll set -----

  datatype Wants = Wants(read: bool, write: bool)

  datatype Entry = Entry(fd: Handle, wants: Wants)

  predicate EntriesOk(fds: seq<Entry>, watched: map<Handle, Wants>) {
    && (forall i :: 0 <= i < |fds| ==> fds[i].fd in watched && watched[fds[i].fd] == fds[i].wants)
    && (forall i, j :: 0 <= i < j < |fds| ==> fds[i].fd != fds[j].fd)
    && (forall fd :: fd in watched ==> exists i :: 0 <= i < |fds| && fds[i].fd == fd)
  }

  class Poller {
    var fds: seq<Entry>
    /** What is registered for each handle. */
    ghost var watched: map<Handle, Wants>

    ghost predicate Valid()
      reads this
    {
      EntriesOk(fds, watched)
    }

    constructor ()
      ensures Valid() && watched == map[]
    {
      fds := [];
      watched := map[];
    }

    method Upsert(fd: Handle, read: bool, write: bool)
      requires Valid()
      modifies this
      ensures Valid() && watched == old(watched)[fd := Wants(read, write)]
    {
      watched := watched[fd := Wants(read, write)];
      for i := 0 to |fds|
        invariant fds == old(fds) && forall j :: 0 <= j < i ==> fds[j].fd != fd
      {
        if fds[i].fd == fd {
          fds := fds[i := Entry(fd, Wants(read, write))];
          assert fds[i].fd == fd;
          assert forall k :: 0 <= k < |fds| ==> fds[k].fd == old(fds)[k].fd;
          return;
        }
      }
      fds := fds + [Entry(fd, Wants(read, write))];
      assert fds[|fds| - 1].fd == fd;
      assert forall k :: 0 <= k < |fds| - 1 ==> fds[k] == old(fds)[k];
    }

    /** The last entry takes the place of the one removed. */
    method Remove(fd: Handle)
      requires Valid()
      modifies this
      ensures Valid() && watched == old(watched) - {fd}
    {
      for i := 0 to |fds|
        invariant fds == old(fds) && watched == old(watched) && forall j :: 0 <= j < i ==> fds[j].fd != fd
      {
        if fds[i].fd == fd {
          ghost var before := fds;
          fds := fds[i := fds[|fds| - 1]];
          fds := fds[..|fds| - 1];
          watched := watched - {fd};
          RemovedOk(before, old(watched), i, fds);
          return;
        }
      }
      assert watched - {fd} == watched;
    }
  }

  lemma RemovedOk(before: seq<Entry>, watched: map<Handle, Wants>, i: nat, after: seq<Entry>)
    requires EntriesOk(before, watched) && i < |before|
    requires after == before[i := before[|before| - 1]][..|before| - 1]
    ensures EntriesOk(after, watched - {before[i].fd})
  {
    var n := |before| - 1;
    assert forall k :: 0 <= k < n ==> after[k] == if k == i then before[n] else before[k];
    forall fd | fd in watched && fd != before[i].fd ensures exists k :: 0 <= k < |after| && after[k].fd == fd {
      var k :| 0 <= k < |before| && before[k].fd == fd;
      assert after[if k == n then i else k].fd == fd;
    }
  }

  // ----- the event stream of one connection -----

  type Reason = Connections.CloseReason

  datatype Event =
    | Connected(id: Id)
    | Received(id: Id, payload: Bytes)
    | SendDrained(id: Id)
    | Disconnected(id: Id, reason: Reason)

  datatype Phase = Fresh | Begun | Gone | Broken

  /** Connected first, then packets and drained notices, then at most one Disconnected. */
  function Step(phase: Phase, e: Event): Phase {
    match phase
    case Fresh => if e.Connected? then Begun else Broken
    case Begun => if e.Disconnected? then Gone else if e.Connected? then Broken else Begun
    case _ => Broken
  }

  function PhaseOf(trace: seq<Event>, id: Id): Phase {
    if |trace| == 0 then Fresh else
    var before := PhaseOf(trace[..|trace| - 1], id);
    var e := trace[|trace| - 1];
    if e.id == id then Step(before, e) else before
  }

  lemma PhaseAfter(trace: seq<Event>, e: Event, id: Id)
    ensures PhaseOf(trace + [e], id) == if e.id == id then Step(PhaseOf(trace, id), e) else PhaseOf(trace, id)
  {
    assert (trace + [e])[..|trace|] == trace;
  }

  /** The events of one connection. */
  function Stream(trace: seq<Event>, id: Id): seq<Event> {
    if |trace| == 0 then [] else
    var before := Stream(trace[..|trace| - 1], id);
    var e := trace[|trace| - 1];
    if e.id == id then before + [e] else before
  }

  predicate Orderly(es: seq<Event>) {
    && (|es| > 0 ==> es[0].Connected?)
    && (forall k :: 0 < k < |es| ==> !es[k].Connected?)
    && (forall k :: 0 <= k < |es| - 1 ==> !es[k].Disconnected?)
  }

  /** What the phases mean for the stream as a whole. */
  lemma {:induction false} PhaseMeans(trace: seq<Event>, id: Id)
    ensures PhaseOf(trace, id) != Broken <==> Orderly(Stream(trace, id))
    ensures PhaseOf(trace, id) == Fresh <==> |Stream(trace, id)| == 0
    ensures PhaseOf(trace, id) == Gone ==> Stream(trace, id)[|Stream(trace, id)| - 1].Disconnected?
    ensures PhaseOf(trace, id) == Begun ==> !Stream(trace, id)[|Stream(trace, id)| - 1].Disconnected?
  {
    if |trace| == 0 {
    } else {
      var n := |trace| - 1;
      PhaseMeans(trace[..n], id);
      var before, es := Stream(trace[..n], id), Stream(trace, id);
      if trace[n].id == id {
        assert es[..|before|] == before;
        assert forall k :: 0 <= k < |before| ==> es[k] == before[k];
        assert es[|before|] == trace[n];
        if PhaseOf(trace[..n], id) == Gone {
          assert es[|es| - 2].Disconnected?;
        }
        assert Orderly(es) ==> Orderly(before);
      }
    }
  }

  /** An open connection has started and not ended, and an id not yet given out has no events. */
  predicate StreamAt(trace: seq<Event>, id: Id, live: bool, known: bool) {
    PhaseOf(trace, id) != Broken && (live ==> PhaseOf(trace, id) == Begun) && (!known ==> PhaseOf(trace, id) == Fresh)
  }

  ghost predicate StreamsOk(trace: seq<Event>, slotOf: map<Id, nat>, given: seq<Id>) {
    forall id: Id :: StreamAt(trace, id, id in slotOf, id in given)
  }

  lemma FrontsDiffer(given: seq<Id>, id: Id)
    requires Distinct(given + [id])
    ensures Distinct(given) && id !in given
  {
    var all := given + [id];
    assert forall k :: 0 <= k < |given| ==> all[k] == given[k];
    assert all[|given|] == id;
  }

  lemma StreamStarts(trace: seq<Event>, slotOf: map<Id, nat>, given: seq<Id>, id: Id, slot: nat)
    requires StreamsOk(trace, slotOf, given) && id !in given
    ensures StreamsOk(trace + [Connected(id)], slotOf[id := slot], given + [id])
  {
    var trace', slotOf' := trace + [Connected(id)], slotOf[id := slot];
    forall x: Id ensures StreamAt(trace', x, x in slotOf', x in given + [id]) {
      assert StreamAt(trace, x, x in slotOf, x in given);
      PhaseAfter(trace, Connected(id), x);
    }
  }

  lemma StreamGoesOn(trace: seq<Event>, slotOf: map<Id, nat>, given: seq<Id>, e: Event)
    requires StreamsOk(trace, slotOf, given) && e.id in slotOf && (e.Received? || e.SendDrained?)
    ensures StreamsOk(trace + [e], slotOf, given)
  {
    var trace' := trace + [e];
    forall x: Id ensures StreamAt(trace', x, x in slotOf, x in given) {
      assert StreamAt(trace, x, x in slotOf, x in given);
      PhaseAfter(trace, e, x);
    }
  }

  lemma StreamEnds(trace: seq<Event>, slotOf: map<Id, nat>, given: seq<Id>, id: Id, reason: Reason)
    requires StreamsOk(trace, slotOf, given) && id in slotOf
    ensures StreamsOk(trace + [Disconnected(id, reason)], slotOf - {id}, given)
    ensures StreamsOk(trace, slotOf - {id}, given)
    ensures id in given
  {
    assert StreamAt(trace, id, true, id in given);
    var trace', slotOf' := trace + [Disconnected(id, reason)], slotOf - {id};
    forall x: Id
      ensures StreamAt(trace', x, x in slotOf', x in given) && StreamAt(trace, x, x in slotOf', x in given)
    {
      assert StreamAt(trace, x, x in slotOf, x in given);
      PhaseAfter(trace, Disconnected(id, reason), x);
    }
  }

  /** The ids of the connections let in, in order. */
  function Connects(trace: seq<Event>): seq<Id> {
    if |trace| == 0 then [] else
    var n := |trace| - 1;
    Connects(trace[..n]) + if trace[n].Connected? then [trace[n].id] else []
  }

  lemma ConnectsAfter(trace: seq<Event>, e: Event)
    ensures Connects(trace + [e]) == Connects(trace) + if e.Connected? then [e.id] else []
  {
    assert (trace + [e])[..|trace|] == trace;
  }

  /** A connection that was let in has events. */
  lemma {:induction false} ConnectIsInStream(trace: seq<Event>, id: Id)
    requires id in Connects(trace)
    ensures |Stream(trace, id)| > 0
  {
    var n := |trace| - 1;
    if trace[n].id != id {
      ConnectIsInStream(trace[..n], id);
    }
  }

  ghost predicate AllOrderly(trace: seq<Event>) {
    forall id: Id :: Orderly(Stream(trace, id))
  }

  /** An id that is given out twice has two beginnings in its stream, which is out of order. */
  lemma {:induction false} RepeatBreaksStream(trace: seq<Event>)
    requires AllOrderly(trace)
    ensures Distinct(Connects(trace))
  {
    if |trace| == 0 {
    } else {
      var n := |trace| - 1;
      var e := trace[n];
      forall id: Id ensures Orderly(Stream(trace[..n], id)) {
        OrderlyFront(trace, id);
      }
      RepeatBreaksStream(trace[..n]);
      if e.Connected? {
        OrderlyFront(trace, e.id);
        if e.id in Connects(trace[..n]) {
          ConnectIsInStream(trace[..n], e.id);
        }
      }
    }
  }

  lemma OrderlyFront(trace: seq<Event>, id: Id)
    requires |trace| > 0 && Orderly(Stream(trace, id))
    ensures Orderly(Stream(trace[..|trace| - 1], id))
    ensures trace[|trace| - 1] == Connected(id) ==> |Stream(trace[..|trace| - 1], id)| == 0
  {
    var before, es := Stream(trace[..|trace| - 1], id), Stream(trace, id);
    assert forall k :: 0 <= k < |before| ==> es[k] == before[k];
    if trace[|trace| - 1] == Connected(id) {
      assert es[|before|] == Connected(id);
    }
  }

  // ----- the tables -----

  datatype Host = Host(inUse: bool, id: Id, fd: Handle, wantWrite: bool, lastActive: int)

  /** Each table holds exactly the connections in use, under their id and under their handle. */
  ghost predicate TablesOk(hosts: seq<Host>, slotOf: map<Id, nat>, fdToSlot: map<Handle, nat>) {
    && (forall i :: 0 <= i < |hosts| && hosts[i].inUse ==>
              Maps(slotOf, hosts[i].id, i) && Maps(fdToSlot, hosts[i].fd, i))
    && (forall id :: id in slotOf ==> slotOf[id] < |hosts| && hosts[slotOf[id]].inUse && hosts[slotOf[id]].id == id)
    && (forall fd :: fd in fdToSlot ==>
          fdToSlot[fd] < |hosts| && hosts[fdToSlot[fd]].inUse && hosts[fdToSlot[fd]].fd == fd)
  }

  /** The allocator has the same slots in use, and each connection has the id of its slot. */
  predicate IdsOk(hosts: seq<Host>, slots: seq<IdSlot>) {
    && |hosts| == |slots| < WORD
    && (forall i :: 0 <= i < |hosts| ==> hosts[i].inUse == slots[i].inUse)
    && (forall i :: 0 <= i < |hosts| && hosts[i].inUse ==> hosts[i].id == IdOf(slots[i].generation, i))
  }

  /** The poll set holds the listening handle and the handles of the connections, with what each waits for. */
  ghost predicate WatchOk(hosts: seq<Host>, watched: map<Handle, Wants>, fdToSlot: map<Handle, nat>,
                          listenFd: Option<Handle>)
  {
    && (forall fd :: fd in watched <==> fd in fdToSlot || Some(fd) == listenFd)
    && (forall i :: 0 <= i < |hosts| && hosts[i].inUse ==>
          hosts[i].fd in watched && watched[hosts[i].fd] == Wants(true, hosts[i].wantWrite))
    && (listenFd.Some? ==> listenFd.value !in fdToSlot && watched[listenFd.value] == Wants(true, false))
  }

  predicate ReleasedOk(released: set<Id>, slotOf: map<Id, nat>, given: seq<Id>) {
    forall id :: id in released ==> id in given && id !in slotOf
  }

  lemma TableAdds(hosts: seq<Host>, slotOf: map<Id, nat>, fdToSlot: map<Handle, nat>, i: nat, h: Host)
    requires TablesOk(hosts, slotOf, fdToSlot) && i < |hosts| && !hosts[i].inUse
    requires h.inUse && h.id !in slotOf && h.fd !in fdToSlot
    ensures TablesOk(hosts[i := h], slotOf[h.id := i], fdToSlot[h.fd := i])
  {
  }

  lemma InTables(hosts: seq<Host>, slotOf: map<Id, nat>, fdToSlot: map<Handle, nat>, i: nat)
    requires TablesOk(hosts, slotOf, fdToSlot) && i < |hosts| && hosts[i].inUse
    ensures Maps(slotOf, hosts[i].id, i) && Maps(fdToSlot, hosts[i].fd, i)
  {
  }

  lemma NoneLeft(hosts: seq<Host>, slotOf: map<Id, nat>, fdToSlot: map<Handle, nat>)
    requires TablesOk(hosts, slotOf, fdToSlot) && forall i :: 0 <= i < |hosts| ==> !hosts[i].inUse
    ensures slotOf.Keys == {} && fdToSlot.Keys == {}
  {
  }

  /** The connections by their handle. */
  ghost function Conns(hosts: seq<Host>, fdToSlot: map<Handle, nat>): map<Handle, Id> {
    map fd | fd in fdToSlot && fdToSlot[fd] < |hosts| :: hosts[fdToSlot[fd]].id
  }

  /** Ids and handles of the slots, in use or not, are as before. */
  predicate SameConns(before: seq<Host>, after: seq<Host>) {
    |after| == |before| && forall k :: 0 <= k < |after| ==> after[k].id == before[k].id && after[k].fd == before[k].fd
  }

  /** Was the connection idle for longer than allowed? */
  predicate Late(h: Host, now: int, idle: nat) {
    h.inUse && idle != 0 && now - h.lastActive > idle
  }

  function Timeouts(hosts: seq<Host>, now: int, idle: nat): seq<Event> {
    if |hosts| == 0 then []
    else
      var n := |hosts| - 1;
      Timeouts(hosts[..n], now, idle)
      + if Late(hosts[n], now, idle) then [Disconnected(hosts[n].id, Connections.Timeout)] else []
  }

  lemma {:induction false} TimeoutsAre(a: seq<Host>, b: seq<Host>, now: int, idle: nat)
    requires |a| == |b|
    requires forall k :: 0 <= k < |a| ==> a[k].inUse == b[k].inUse && a[k].id == b[k].id
    requires forall k :: 0 <= k < |a| ==> a[k].lastActive == b[k].lastActive
    ensures Timeouts(a, now, idle) == Timeouts(b, now, idle)
  {
    if |a| == 0 {
    } else {
      TimeoutsAre(a[..|a| - 1], b[..|b| - 1], now, idle);
    }
  }

  lemma {:induction false} QuietTimeouts(hosts: seq<Host>, now: int)
    ensures Timeouts(hosts, now, 0) == []
  {
    if |hosts| == 0 {
    } else {
      QuietTimeouts(hosts[..|hosts| - 1], now);
    }
  }

  /** A connection after the check for idle ones. */
  function Swept(h: Host, now: int, idle: nat): Host {
    if Late(h, now, idle) then h.(inUse := false) else h
  }

  /** Putting a connection into a free slot puts it beside the others. */
  lemma ConnsAdd(hosts: seq<Host>, slotOf: map<Id, nat>, fdToSlot: map<Handle, nat>, i: nat, h: Host)
    requires TablesOk(hosts, slotOf, fdToSlot) && i < |hosts| && !hosts[i].inUse
    ensures Conns(hosts[i := h], fdToSlot[h.fd := i]) == Conns(hosts, fdToSlot)[h.fd := h.id]
  {
  }

  /** All connections of before are there, and the new ones came in under the given handles. */
  ghost predicate KeepsConns(before: map<Handle, Id>, after: map<Handle, Id>, incoming: seq<Handle>) {
    (forall fd :: fd in before && fd !in incoming ==> fd in after && after[fd] == before[fd])
    && forall fd :: fd in after ==> fd in before || fd in incoming
  }

  lemma NothingCameIn(conns: map<Handle, Id>, incoming: seq<Handle>)
    ensures KeepsConns(conns, conns, incoming)
  {
  }

  lemma OneCameIn(before: map<Handle, Id>, now: map<Handle, Id>, incoming: seq<Handle>, fd: Handle, id: Id)
    requires KeepsConns(before, now, incoming) && fd in incoming
    ensures KeepsConns(before, now[fd := id], incoming)
  {
  }

  lemma TableDrops(hosts: seq<Host>, slotOf: map<Id, nat>, fdToSlot: map<Handle, nat>, i: nat)
    requires TablesOk(hosts, slotOf, fdToSlot) && i < |hosts| && hosts[i].inUse
    ensures TablesOk(hosts[i := hosts[i].(inUse := false)], slotOf - {hosts[i].id}, fdToSlot - {hosts[i].fd})
  {
  }

  lemma WatchDrops(hosts: seq<Host>, slotOf: map<Id, nat>, fdToSlot: map<Handle, nat>, watched: map<Handle, Wants>,
                   listenFd: Option<Handle>, i: nat)
    requires TablesOk(hosts, slotOf, fdToSlot) && WatchOk(hosts, watched, fdToSlot, listenFd)
    requires i < |hosts| && hosts[i].inUse
    ensures WatchOk(hosts[i := hosts[i].(inUse := false)], watched - {hosts[i].fd}, fdToSlot - {hosts[i].fd}, listenFd)
  {
    assert Maps(fdToSlot, hosts[i].fd, i);
    forall k | 0 <= k < |hosts| && hosts[k].inUse && k != i ensures hosts[k].fd != hosts[i].fd {
      assert Maps(fdToSlot, hosts[k].fd, k);
    }
  }

  lemma SameCount(hosts: seq<Host>, slots: seq<IdSlot>)
    requires IdsOk(hosts, slots)
    ensures |hosts| == |slots| < WORD && forall i :: 0 <= i < |hosts| ==> hosts[i].inUse == slots[i].inUse
  {
  }

  lemma IdsAdd(hosts: seq<Host>, slots: seq<IdSlot>, h: Host)
    requires IdsOk(hosts, slots) && h.inUse && h.id < LONG && SlotOf(h.id) < |slots|
    ensures IdsOk(hosts[SlotOf(h.id) := h], slots[SlotOf(h.id) := IdSlot(GenerationOf(h.id), true)])
  {
    hide SlotOf, GenerationOf, IdOf;
    IdParts(h.id);
  }

  lemma WatchAdds(hosts: seq<Host>, watched: map<Handle, Wants>, fdToSlot: map<Handle, nat>, listenFd: Option<Handle>,
                  i: nat, h: Host)
    requires WatchOk(hosts, watched, fdToSlot, listenFd) && i < |hosts| && !hosts[i].inUse
    requires h.inUse && !h.wantWrite && h.fd !in fdToSlot && Some(h.fd) != listenFd
    ensures WatchOk(hosts[i := h], watched[h.fd := Wants(true, false)], fdToSlot[h.fd := i], listenFd)
  {
  }

  lemma WatchListens(hosts: seq<Host>, watched: map<Handle, Wants>, fdToSlot: map<Handle, nat>, fd: Handle)
    requires WatchOk(hosts, watched, fdToSlot, None) && fd !in fdToSlot
    ensures WatchOk(hosts, watched[fd := Wants(true, false)], fdToSlot, Some(fd))
  {
  }

  /** Without connections only the listening handle is watched. */
  lemma WatchStops(hosts: seq<Host>, slotOf: map<Id, nat>, fdToSlot: map<Handle, nat>, watched: map<Handle, Wants>,
                   listenFd: Option<Handle>)
    requires TablesOk(hosts, slotOf, fdToSlot) && WatchOk(hosts, watched, fdToSlot, listenFd) && |fdToSlot| == 0
    ensures var rest := if listenFd.Some? then watched - {listenFd.value} else watched;
            |rest| == 0 && WatchOk(hosts, rest, fdToSlot, None)
  {
    assert fdToSlot == map[];
    assert (if listenFd.Some? then watched - {listenFd.value} else watched).Keys == {};
  }

  /** A new id cannot be one in the table, since the slot that goes with it was free. */
  lemma NewIdIsAbsent(hosts: seq<Host>, slotOf: map<Id, nat>, fdToSlot: map<Handle, nat>, slots: seq<IdSlot>, id: Id)
    requires TablesOk(hosts, slotOf, fdToSlot) && IdsOk(hosts, slots) && id < LONG
    requires SlotOf(id) < |slots| && !slots[SlotOf(id)].inUse
    ensures id !in slotOf
  {
    hide IdOf;
  }

  /** The table and the allocator give the same answer about an id. */
  lemma TableAnswers(hosts: seq<Host>, slotOf: map<Id, nat>, fdToSlot: map<Handle, nat>, slots: seq<IdSlot>, id: Id)
    requires TablesOk(hosts, slotOf, fdToSlot) && IdsOk(hosts, slots) && id < LONG
    ensures id in slotOf ==> slotOf[id] == SlotOf(id)
    ensures id in slotOf <==>
              SlotOf(id) < |slots| && slots[SlotOf(id)].inUse && GenerationOf(id) == slots[SlotOf(id)].generation
  {
    hide IdOf, SlotOf, GenerationOf;
    IdParts(id);
    var i := SlotOf(id);
    if i < |slots| && slots[i].inUse && GenerationOf(id) == slots[i].generation {
      assert Maps(slotOf, hosts[i].id, i);
    }
  }

  // What the operating system answers.

  /** One round of receiving: did bytes come, which packets were completed, and did the connection end? */
  datatype RecvRound = RecvRound(bytes: bool, packets: seq<Bytes>, close: Option<Reason>)

  /** One round of sending: was everything written, and has a close been asked for? */
  datatype SendRound = SendRound(drained: bool, close: Option<Reason>)

  datatype Ready = Ready(fd: Handle, failed: bool, readable: bool, writable: bool, recv: RecvRound, send: SendRound)

  datatype WaitResult = WaitFailed | TimedOut | Happened(ready: seq<Ready>)

  class TcpTransport {
    const max: nat
    /** Zero if connections may be idle for ever. */
    const idle: nat
    const ids: IdAllocator
    const poller: Poller
    var hosts: seq<Host>
    var slotOf: map<Id, nat>
    var fdToSlot: map<Handle, nat>
    var connCount: nat
    var listenFd: Option<Handle>
    /** The events of the current call of Poll. */
    var out: seq<Event>
    /** The events of the calls before, and of all calls. */
    ghost var past: seq<Event>
    ghost var trace: seq<Event>
    /** The ids of the connections that are no more. */
    ghost var released: set<Id>

    ghost predicate Tables()
      reads this, ids, poller
    {
      && TablesOk(hosts, slotOf, fdToSlot)
      && IdsOk(hosts, ids.slots)
      && WatchOk(hosts, poller.watched, fdToSlot, listenFd)
      && |hosts| == max && connCount == ids.inUse
    }

    ghost predicate History()
      reads this, ids
    {
      && Connects(trace) == ids.given
      && (Distinct(ids.given) ==> StreamsOk(trace, slotOf, ids.given) && ReleasedOk(released, slotOf, ids.given))
    }

    ghost predicate Valid()
      reads this, ids, poller
    {
      ids.Valid() && poller.Valid() && Tables() && History() && trace == past + out
    }

    constructor (max: nat, idle: nat)
      requires max < WORD
      ensures Valid() && fresh(ids) && fresh(poller) && this.max == max && this.idle == idle
      ensures listenFd == None && |trace| == 0 && connCount == 0 && |ids.given| == 0
    {
      this.max := max;
      this.idle := idle;
      ids := new IdAllocator(max);
      poller := new Poller();
      hosts := seq(max, _ => Host(false, 0, 0, false, 0));
      slotOf := map[];
      fdToSlot := map[];
      connCount := 0;
      listenFd := None;
      out := [];
      past := [];
      trace := [];
      released := {};
    }

    /** The connection with this id, as its slot. */
    function Get(id: Id): (slot: Option<nat>)
      requires Valid() && id < LONG
      reads this, ids, poller
      ensures slot.Some? <==> id in slotOf
      ensures slot.Some? ==> slot.value == slotOf[id] && hosts[slot.value].inUse && hosts[slot.value].id == id
      ensures |ids.given| <= WORD && id in released ==> slot == None
    {
      TableAnswers(hosts, slotOf, fdToSlot, ids.slots, id);
      if ids.IsValid(id) && SlotOf(id) < |hosts| && hosts[SlotOf(id)].inUse && hosts[SlotOf(id)].id == id
      then Some(SlotOf(id)) else None
    }

    /** Starts listening, once; the handle comes from the system, or none does. */
    method Listen(handle: Option<Handle>) returns (ok: bool)
      requires Valid()
      requires handle.Some? && listenFd == None ==> handle.value !in fdToSlot
      modifies this`listenFd, poller
      ensures Valid() && (ok <==> old(listenFd) == None && handle.Some?)
      ensures listenFd == if ok then handle else old(listenFd)
      ensures !ok ==> unchanged(poller)
    {
      if listenFd.Some? {
        return false;
      }
      if handle == None {
        return false;
      }
      hide IdOf, FreeOk, GivenOk, StreamsOk, EntriesOk, IdsOk, TablesOk, WatchOk, ReleasedOk, Distinct, Connects;
      WatchListens(hosts, poller.watched, fdToSlot, handle.value);
      listenFd := handle;
      poller.Upsert(handle.value, true, false);
      return true;
    }

    /** Appends an event to the answer of this call of Poll. */
    method Emit(e: Event)
      requires trace == past + out
      modifies this`out, this`trace
      ensures out == old(out) + [e] && trace == old(trace) + [e] && trace == past + out
    {
      out := out + [e];
      trace := trace + [e];
    }

    /** Lets connections in; the system hands out handles that are not open. */
    method ProcessAccept(incoming: seq<Handle>, now: int) returns (ghost accepted: seq<Event>)
      requires Valid()
      requires forall k :: 0 <= k < |incoming| ==> incoming[k] !in fdToSlot && Some(incoming[k]) != listenFd
      requires forall j, k :: 0 <= j < k < |incoming| && j < max - connCount ==> incoming[j] != incoming[k]
      modifies this, ids, poller
      ensures Valid() && listenFd == old(listenFd) && past == old(past) && released == old(released)
      ensures connCount == if old(connCount) + |incoming| <= max then old(connCount) + |incoming| else max
      ensures out == old(out) + accepted && |accepted| == connCount - old(connCount)
      ensures forall e :: e in accepted ==> e.Connected?
      ensures KeepsConns(old(Conns(hosts, fdToSlot)), Conns(hosts, fdToSlot), incoming)
    {
      hide IdOf, FreeOk, GivenOk, StreamsOk, EntriesOk, WatchOk, IdsOk, TablesOk, ReleasedOk, Conns, KeepsConns;
      accepted := [];
      assert out + accepted == out;
      CountFits(ids.slots, ids.free, ids.inUse);
      SameCount(hosts, ids.slots);
      NothingCameIn(Conns(hosts, fdToSlot), incoming);
      for k := 0 to |incoming|
        invariant Valid() && listenFd == old(listenFd) && past == old(past) && released == old(released)
        invariant connCount == if old(connCount) + k <= max then old(connCount) + k else max
        invariant forall m :: k <= m < |incoming| ==> incoming[m] !in fdToSlot
        invariant out == old(out) + accepted && |accepted| == connCount - old(connCount)
        invariant forall e :: e in accepted ==> e.Connected?
        invariant KeepsConns(old(Conns(hosts, fdToSlot)), Conns(hosts, fdToSlot), incoming)
      {
        if connCount >= max {
          continue;
        }
        ghost var before := Conns(hosts, fdToSlot);
        ghost var id := AcceptOne(incoming[k], now);
        OneCameIn(old(Conns(hosts, fdToSlot)), before, incoming, incoming[k], id);
        accepted := accepted + [Connected(id)];
      }
    }

    /**
     * One connection below the limit; inline in the source's ProcessAccept. The allocator
     * has a free slot whenever the count is below the limit, so the branch for a
     * refused id is not taken.
     */
    method AcceptOne(cfd: Handle, now: int) returns (ghost id: Id)
      requires Valid() && connCount < max && cfd !in fdToSlot && Some(cfd) != listenFd
      modifies this, ids, poller
      ensures Valid() && listenFd == old(listenFd) && past == old(past) && old(out) <= out
      ensures connCount == old(connCount) + 1 && fdToSlot == old(fdToSlot)[cfd := SlotOf(id)]
      ensures id !in old(slotOf) && slotOf.Keys == old(slotOf).Keys + {id} && out == old(out) + [Connected(id)]
      ensures ids.given == old(ids.given) + [id]
      ensures released == old(released)
      ensures SlotOf(id) < |hosts| && !old(hosts)[SlotOf(id)].inUse
      ensures hosts == old(hosts)[SlotOf(id) := Host(true, id, cfd, false, now)]
      ensures Conns(hosts, fdToSlot) == old(Conns(hosts, fdToSlot))[cfd := id]
    {
      hide IdOf, SlotOf, GenerationOf, FreeOk, GivenOk, StreamsOk, EntriesOk, TablesOk, TopId, IdsOk, WatchOk, Conns;
      hide NextGeneration, Distinct, Rising, Connects;
      SameCount(hosts, ids.slots);
      var got := ids.Allocate();
      assert got.Some?;
      id := got.value;
      var slot := SlotOf(got.value);
      NewIdIsAbsent(hosts, slotOf, fdToSlot, old(ids.slots), id);
      var host := Host(true, got.value, cfd, false, now);
      TableAdds(hosts, slotOf, fdToSlot, slot, host);
      ConnsAdd(hosts, slotOf, fdToSlot, slot, host);
      IdsAdd(hosts, old(ids.slots), host);
      WatchAdds(hosts, poller.watched, fdToSlot, listenFd, slot, host);
      if Distinct(ids.given) {
        FrontsDiffer(old(ids.given), id);
        StreamStarts(trace, slotOf, old(ids.given), id, slot);
      }
      ConnectsAfter(trace, Connected(id));
      hosts := hosts[slot := host];
      slotOf := slotOf[got.value := slot];
      fdToSlot := fdToSlot[cfd := slot];
      poller.Upsert(cfd, true, false);
      connCount := connCount + 1;
      Emit(Connected(got.value));
    }

    /** Ends a connection: its event, then out of all tables. */
    method RemoveConnection(i: nat, reason: Reason)
      requires Valid() && i < |hosts| && hosts[i].inUse
      modifies this, ids, poller
      ensures Valid() && listenFd == old(listenFd) && past == old(past)
      ensures hosts == old(hosts)[i := old(hosts)[i].(inUse := false)]
      ensures slotOf == old(slotOf) - {old(hosts)[i].id} && fdToSlot == old(fdToSlot) - {old(hosts)[i].fd}
      ensures released == old(released) + {old(hosts)[i].id} && connCount == old(connCount) - 1
      ensures out == old(out) + [Disconnected(old(hosts)[i].id, reason)]
      ensures ids.given == old(ids.given)
    {
      hide FreeOk, GivenOk, StreamsOk, EntriesOk, IdsOk, WatchOk, StreamAt;
      assert Maps(slotOf, hosts[i].id, i);
      if Distinct(ids.given) {
        StreamEnds(trace, slotOf, ids.given, hosts[i].id, reason);
      }
      ConnectsAfter(trace, Disconnected(hosts[i].id, reason));
      hide TablesOk;
      Emit(Disconnected(hosts[i].id, reason));
      Forget(i);
    }

    /** Takes a connection out of all tables; the last part of RemoveConnection, and all that CloseAll does. */
    method Forget(i: nat)
      requires ids.Valid() && poller.Valid() && Tables() && i < |hosts| && hosts[i].inUse
      requires Connects(trace) == ids.given
      requires Distinct(ids.given) ==> StreamsOk(trace, slotOf - {hosts[i].id}, ids.given)
      requires Distinct(ids.given) ==> hosts[i].id in ids.given && ReleasedOk(released, slotOf, ids.given)
      modifies this`hosts, this`slotOf, this`fdToSlot, this`connCount, this`released, ids, poller
      ensures ids.Valid() && poller.Valid() && Tables() && History()
      ensures hosts == old(hosts)[i := old(hosts)[i].(inUse := false)]
      ensures slotOf == old(slotOf) - {old(hosts)[i].id} && fdToSlot == old(fdToSlot) - {old(hosts)[i].fd}
      ensures released == old(released) + {old(hosts)[i].id} && connCount == old(connCount) - 1
      ensures ids.given == old(ids.given)
    {
      hide IdOf, SlotOf, GenerationOf, FreeOk, GivenOk, StreamsOk, EntriesOk, TablesOk, WatchOk, StreamAt;
      var id, fd := hosts[i].id, hosts[i].fd;
      TableDrops(hosts, slotOf, fdToSlot, i);
      WatchDrops(hosts, slotOf, fdToSlot, poller.watched, listenFd, i);
      IdOfHost(hosts, ids.slots, i);
      poller.Remove(fd);
      fdToSlot := fdToSlot - {fd};
      slotOf := slotOf - {id};
      ids.Release(id);
      hosts := hosts[i := hosts[i].(inUse := false)];
      connCount := connCount - 1;
      released := released + {id};
    }

    /** Notes what a connection waits for, or when it was last heard of. */
    method Update(i: nat, wantWrite: bool, lastActive: int)
      requires Valid() && i < |hosts| && hosts[i].inUse
      modifies this`hosts, poller
      ensures Valid()
      ensures hosts == old(hosts)[i := old(hosts)[i].(wantWrite := wantWrite, lastActive := lastActive)]
    {
      hide IdOf, FreeOk, GivenOk, StreamsOk, EntriesOk, TablesOk, WatchOk, IdsOk;
      UpdateKeeps(hosts, slotOf, fdToSlot, ids.slots, poller.watched, listenFd, i, wantWrite, lastActive);
      if wantWrite != hosts[i].wantWrite {
        poller.Upsert(hosts[i].fd, true, wantWrite);
      }
      hosts := hosts[i := hosts[i].(wantWrite := wantWrite, lastActive := lastActive)];
    }

    method ProcessRecv(i: nat, got: RecvRound, now: int)
      requires Valid() && i < |hosts| && hosts[i].inUse
      modifies this, ids, poller
      ensures Valid() && ids.given == old(ids.given) && listenFd == old(listenFd) && past == old(past)
      ensures SameConns(old(hosts), hosts) && (hosts[i].inUse <==> got.close == None)
      ensures forall k :: 0 <= k < |hosts| && k != i ==> hosts[k] == old(hosts)[k]
      ensures fdToSlot == if got.close == None then old(fdToSlot) else old(fdToSlot) - {old(hosts)[i].fd}
      ensures hosts[i].lastActive == if got.bytes then now else old(hosts)[i].lastActive
      ensures out == old(out) + RecvEvents(old(hosts)[i].id, got)
    {
      hide IdOf, FreeOk, GivenOk, StreamsOk, EntriesOk, WatchOk, IdsOk, TablesOk;
      hide ReleasedOk, Distinct, Connects, Packets;
      NoPackets(hosts[i].id, got.packets);
      if got.bytes {
        Update(i, hosts[i].wantWrite, now);
      }
      var id := hosts[i].id;
      for k := 0 to |got.packets|
        invariant Valid() && ids.given == old(ids.given) && listenFd == old(listenFd) && past == old(past)
        invariant SameConns(old(hosts), hosts) && hosts[i].inUse && fdToSlot == old(fdToSlot)
        invariant hosts[i].lastActive == if got.bytes then now else old(hosts)[i].lastActive
        invariant forall k :: 0 <= k < |hosts| && k != i ==> hosts[k] == old(hosts)[k]
        invariant out == old(out) + Packets(id, got.packets[..k])
      {
        NextPacket(id, got.packets, k);
        Report(i, Received(id, got.packets[k]));
      }
      if got.close.Some? {
        RemoveConnection(i, got.close.value);
      }
    }

    /** An event of a connection that stays. */
    method Report(i: nat, e: Event)
      requires Valid() && i < |hosts| && hosts[i].inUse && e.id == hosts[i].id && (e.Received? || e.SendDrained?)
      modifies this`out, this`trace
      ensures Valid() && out == old(out) + [e]
    {
      hide IdOf, FreeOk, GivenOk, StreamsOk, EntriesOk, WatchOk, IdsOk, TablesOk, ReleasedOk, Distinct, Connects;
      InTables(hosts, slotOf, fdToSlot, i);
      if Distinct(ids.given) {
        StreamGoesOn(trace, slotOf, ids.given, e);
      }
      ConnectsAfter(trace, e);
      Emit(e);
    }

    method ProcessSend(i: nat, sent: SendRound)
      requires Valid() && i < |hosts| && hosts[i].inUse
      modifies this, ids, poller
      ensures Valid() && ids.given == old(ids.given) && listenFd == old(listenFd) && past == old(past)
      ensures SameConns(old(hosts), hosts)
      ensures out == old(out) + SendEvents(old(hosts)[i].id, sent)
      ensures hosts[i].inUse <==> sent.close == None
      ensures hosts[i].lastActive == old(hosts)[i].lastActive
      ensures forall k :: 0 <= k < |hosts| && k != i ==> hosts[k] == old(hosts)[k]
      ensures fdToSlot == if sent.close == None then old(fdToSlot) else old(fdToSlot) - {old(hosts)[i].fd}
    {
      hide IdOf, FreeOk, GivenOk, StreamsOk, EntriesOk, WatchOk, IdsOk, TablesOk, ReleasedOk, Distinct, Connects;
      if sent.close.Some? {
        RemoveConnection(i, sent.close.value);
        return;
      }
      if sent.drained {
        Report(i, SendDrained(hosts[i].id));
      }
    }

    /** Ends exactly the connections that were idle for too long. */
    method CheckIdleTimeouts(now: int)
      requires Valid()
      modifies this, ids, poller
      ensures Valid() && listenFd == old(listenFd) && past == old(past) && |hosts| == |old(hosts)|
      ensures ids.given == old(ids.given)
      ensures forall i :: 0 <= i < |hosts| ==> hosts[i] == Swept(old(hosts)[i], now, idle)
      ensures out == old(out) + Timeouts(old(hosts), now, idle)
    {
      hide IdOf, FreeOk, GivenOk, StreamsOk, EntriesOk, WatchOk, IdsOk, TablesOk, ReleasedOk;
      if idle == 0 {
        QuietTimeouts(hosts, now);
        return;
      }
      for i := 0 to |hosts|
        invariant Valid() && listenFd == old(listenFd) && past == old(past) && |hosts| == |old(hosts)|
        invariant ids.given == old(ids.given)
        invariant forall k :: i <= k < |hosts| ==> hosts[k] == old(hosts)[k]
        invariant forall k :: 0 <= k < i ==> hosts[k] == Swept(old(hosts)[k], now, idle)
        invariant out == old(out) + Timeouts(old(hosts)[..i], now, idle)
      {
        assert old(hosts)[..i + 1][..i] == old(hosts)[..i];
        if hosts[i].inUse {
          if now - hosts[i].lastActive > idle {
            RemoveConnection(i, Connections.Timeout);
          }
        }
      }
      assert old(hosts)[..|hosts|] == old(hosts);
    }

    /** Forgets every connection without telling anyone. */
    method CloseAll()
      requires Valid()
      modifies this, ids, poller
      ensures Valid() && |slotOf| == 0 && |fdToSlot| == 0 && connCount == 0
      ensures out == old(out) && trace == old(trace) && listenFd == old(listenFd)
      ensures released == old(released) + old(slotOf).Keys
    {
      hide IdOf, FreeOk, GivenOk, StreamsOk, EntriesOk, WatchOk, IdsOk, TablesOk, ReleasedOk;
      for i := 0 to |hosts|
        invariant Valid() && out == old(out) && trace == old(trace) && listenFd == old(listenFd)
        invariant forall k :: 0 <= k < i ==> !hosts[k].inUse
        invariant released + slotOf.Keys == old(released) + old(slotOf).Keys && |hosts| == |old(hosts)|
      {
        if hosts[i].inUse {
          InTables(hosts, slotOf, fdToSlot, i);
          if Distinct(ids.given) {
            StreamEnds(trace, slotOf, ids.given, hosts[i].id, Connections.Graceful);
          }
          Forget(i);
        }
      }
      NoneLeft(hosts, slotOf, fdToSlot);
      CountsAgree(hosts, slotOf, fdToSlot, ids.slots, ids.free, ids.inUse);
      connCount := 0;
    }

    method Stop()
      requires Valid()
      modifies this, ids, poller
      ensures Valid() && connCount == 0 && listenFd == None && |poller.watched| == 0
      ensures out == old(out) && trace == old(trace)
    {
      hide IdOf, FreeOk, GivenOk, StreamsOk, EntriesOk, IdsOk, TablesOk, WatchOk, ReleasedOk, Distinct, Connects;
      CloseAll();
      WatchStops(hosts, slotOf, fdToSlot, poller.watched, listenFd);
      if listenFd.Some? {
        poller.Remove(listenFd.value);
        listenFd := None;
      }
    }

    /** What every connection waits for is brought up to date before waiting. */
    method SyncWants(needWrite: seq<bool>)
      requires Valid() && |needWrite| == |hosts|
      modifies this`hosts, poller
      ensures Valid() && |hosts| == |old(hosts)|
      ensures forall i :: 0 <= i < |hosts| && hosts[i].inUse ==> hosts[i].wantWrite == needWrite[i]
      ensures SameConns(old(hosts), hosts)
      ensures forall i :: 0 <= i < |hosts| ==>
                hosts[i].inUse == old(hosts)[i].inUse && hosts[i].lastActive == old(hosts)[i].lastActive
    {
      hide IdOf, FreeOk, GivenOk, StreamsOk, EntriesOk, WatchOk, IdsOk, TablesOk, ReleasedOk;
      for i := 0 to |hosts|
        invariant Valid() && |hosts| == |old(hosts)|
        invariant forall k :: 0 <= k < i && hosts[k].inUse ==> hosts[k].wantWrite == needWrite[k]
        invariant SameConns(old(hosts), hosts)
        invariant forall k :: 0 <= k < |hosts| ==>
                    hosts[k].inUse == old(hosts)[k].inUse && hosts[k].lastActive == old(hosts)[k].lastActive
      {
        if hosts[i].inUse {
          if needWrite[i] != hosts[i].wantWrite {
            Update(i, needWrite[i], hosts[i].lastActive);
          }
        }
      }
    }

    /**
     * One round: the answer holds the events of this round and nothing else. These are the
     * connections let in, then the events of every ready handle in order, then the timeouts;
     * the ghost results name the connections and slots in between.
     */
    method Poll(needWrite: seq<bool>, wait: WaitResult, incoming: seq<Handle>, now: int)
      returns (ghost accepted: seq<Event>, ghost conns: map<Handle, Id>, ghost last: seq<Host>)
      requires Valid() && |needWrite| == |hosts|
      requires forall k :: 0 <= k < |incoming| ==> incoming[k] !in fdToSlot && Some(incoming[k]) != listenFd
      requires forall j, k :: 0 <= j < k < |incoming| && j < max - connCount ==> incoming[j] != incoming[k]
      modifies this, ids, poller
      ensures Valid() && listenFd == old(listenFd)
      ensures trace == old(trace) + out
      ensures wait.WaitFailed? ==> out == []
      ensures wait.TimedOut? ==> out == Timeouts(old(hosts), now, idle)
      ensures wait.Happened? ==> out == accepted + AllRounds(wait.ready, conns) + Timeouts(last, now, idle)
      ensures wait.Happened? ==>
                |hosts| == |last| && forall i :: 0 <= i < |hosts| ==> hosts[i] == Swept(last[i], now, idle)
      ensures wait.Happened? ==> KeepsConns(old(Conns(hosts, fdToSlot)), conns, incoming)
      ensures forall e :: e in accepted ==> e.Connected?
      ensures wait.Happened? && ListenReady(wait.ready, listenFd) ==>
                |accepted| == Admitted(old(connCount), |incoming|, max)
      ensures wait.Happened? && !ListenReady(wait.ready, listenFd) ==> accepted == []
    {
      hide IdOf, FreeOk, GivenOk, StreamsOk, EntriesOk, WatchOk, IdsOk, TablesOk;
      hide ReleasedOk, Conns, ReadyEvents, AfterReady;
      hide Timeouts, KeepsConns;
      NothingCameIn(Conns(hosts, fdToSlot), incoming);
      accepted, last := [], hosts;
      out := [];
      past := trace;
      SyncWants(needWrite);
      TimeoutsAre(last, hosts, now, idle);
      SameConnsMeans(last, hosts, fdToSlot);
      conns := Conns(hosts, fdToSlot);
      match wait {
        case WaitFailed => return;
        case TimedOut =>
          CheckIdleTimeouts(now);
        case Happened(ready) => {
          var listenReady := false;
          for k := 0 to |ready|
            invariant !listenReady && forall m :: 0 <= m < k ==> Some(ready[m].fd) != listenFd
          {
            if Some(ready[k].fd) == listenFd {
              listenReady := true;
              break;
            }
          }
          if listenReady {
            accepted := ProcessAccept(incoming, now);
            conns := Conns(hosts, fdToSlot);
          }
          assert ready[0..] == ready;
          for k := 0 to |ready|
            invariant Valid() && listenFd == old(listenFd) && past == old(trace)
            invariant accepted + AllRounds(ready, conns) == out + AllRounds(ready[k..], Conns(hosts, fdToSlot))
          {
            NextRound(out, ready, k, Conns(hosts, fdToSlot));
            HandleReady(ready[k], now);
          }
          last := hosts;
          CheckIdleTimeouts(now);
        }
      }
    }

    /** One ready handle; inline in the source's Poll. */
    method HandleReady(r: Ready, now: int)
      requires Valid()
      modifies this, ids, poller
      ensures Valid() && listenFd == old(listenFd) && past == old(past)
      ensures var conns := old(Conns(hosts, fdToSlot));
              out == old(out) + ReadyEvents(conns, r) && Conns(hosts, fdToSlot) == AfterReady(conns, r)
    {
      KnownConn(hosts, slotOf, fdToSlot, r.fd);
      ConnsDrop(hosts, fdToSlot, r.fd);
      ListenIsNoConn(hosts, poller.watched, fdToSlot, listenFd);
      hide IdOf, FreeOk, GivenOk, StreamsOk, EntriesOk, IdsOk, TablesOk, WatchOk, ReleasedOk, Conns, RoundEvents, Ends;
      if Some(r.fd) == listenFd || r.fd !in fdToSlot || !hosts[fdToSlot[r.fd]].inUse {
        return;
      }
      ghost var wasHosts := hosts;
      ServeReady(fdToSlot[r.fd], r, now);
      SameConnsMeans(wasHosts, hosts, fdToSlot);
    }

    /** The connection of one ready handle. */
    method ServeReady(i: nat, r: Ready, now: int)
      requires Valid() && i < |hosts| && hosts[i].inUse
      modifies this, ids, poller
      ensures Valid() && listenFd == old(listenFd) && past == old(past) && SameConns(old(hosts), hosts)
      ensures out == old(out) + RoundEvents(old(hosts)[i].id, r)
      ensures fdToSlot == if Ends(r) then old(fdToSlot) - {old(hosts)[i].fd} else old(fdToSlot)
    {
      hide IdOf, FreeOk, GivenOk, StreamsOk, EntriesOk, IdsOk, TablesOk, WatchOk;
      hide ReleasedOk, Conns, RecvEvents, SendEvents;
      if r.failed {
        RemoveConnection(i, Connections.Error);
        return;
      }
      if r.readable {
        ProcessRecv(i, r.recv, now);
        if !hosts[i].inUse {
          return;
        }
      }
      if r.writable {
        ProcessSend(i, r.send);
      }
    }
  }

  lemma IdOfHost(hosts: seq<Host>, slots: seq<IdSlot>, i: nat)
    requires IdsOk(hosts, slots) && i < |hosts| && hosts[i].inUse
    ensures hosts[i].id < LONG && SlotOf(hosts[i].id) == i && GenerationOf(hosts[i].id) == slots[i].generation
  {
  }

  function RecvEvents(id: Id, got: RecvRound): seq<Event> {
    Packets(id, got.packets) + if got.close == None then [] else [Disconnected(id, got.close.value)]
  }

  function SendEvents(id: Id, sent: SendRound): seq<Event> {
    if sent.close.Some? then [Disconnected(id, sent.close.value)] else if sent.drained then [SendDrained(id)] else []
  }

  /** Does the connection end in this round? A failure ends it at once, and what was received but not read is lost. */
  predicate Ends(r: Ready) {
    r.failed || (r.readable && r.recv.close.Some?) || (r.writable && r.send.close.Some?)
  }

  /** The events of one ready connection: the received packets before the answer to sending, nothing behind an end. */
  function RoundEvents(id: Id, r: Ready): seq<Event> {
    if r.failed then [Disconnected(id, Connections.Error)]
    else (if r.readable then RecvEvents(id, r.recv) else [])
         + (if r.writable && !(r.readable && r.recv.close.Some?) then SendEvents(id, r.send) else [])
  }

  /** The events of a round one by one: its packets, then at most one more, which is the last one if it is an end. */
  lemma RoundIs(id: Id, r: Ready)
    ensures var es := RoundEvents(id, r);
            var n := if !r.failed && r.readable then |r.recv.packets| else 0;
            var stays := !r.failed && !(r.readable && r.recv.close.Some?);
            && n <= |es| <= n + 1 && (forall k :: 0 <= k < n ==> es[k] == Received(id, r.recv.packets[k]))
            && (Ends(r) <==> |es| > 0 && es[|es| - 1].Disconnected?)
            && (r.failed ==> |es| == 1 && es[0] == Disconnected(id, Connections.Error))
            && (!r.failed && !stays ==> |es| == n + 1 && es[n] == Disconnected(id, r.recv.close.value))
            && (stays && r.writable && r.send.close.Some? ==>
                  |es| == n + 1 && es[n] == Disconnected(id, r.send.close.value))
            && (stays && r.writable && r.send.close == None ==>
                  if r.send.drained then |es| == n + 1 && es[n] == SendDrained(id) else |es| == n)
            && (stays && !r.writable ==> |es| == n)
  {
  }

  function ReadyEvents(conns: map<Handle, Id>, r: Ready): seq<Event> {
    if r.fd in conns then RoundEvents(conns[r.fd], r) else []
  }

  function AfterReady(conns: map<Handle, Id>, r: Ready): map<Handle, Id> {
    if r.fd in conns && Ends(r) then conns - {r.fd} else conns
  }

  /** The events of all ready handles in their order; handles that are gone by then are passed over. */
  function AllRounds(ready: seq<Ready>, conns: map<Handle, Id>): seq<Event> {
    if |ready| == 0 then [] else ReadyEvents(conns, ready[0]) + AllRounds(ready[1..], AfterReady(conns, ready[0]))
  }

  predicate ListenReady(ready: seq<Ready>, listenFd: Option<Handle>) {
    exists k :: 0 <= k < |ready| && Some(ready[k].fd) == listenFd
  }

  /** How many of the connections that come in are let in. */
  function Admitted(count: nat, incoming: nat, max: nat): int {
    if count + incoming <= max then incoming else max - count
  }

  lemma SameConnsMeans(before: seq<Host>, after: seq<Host>, fdToSlot: map<Handle, nat>)
    requires SameConns(before, after)
    ensures Conns(after, fdToSlot) == Conns(before, fdToSlot)
  {
  }

  lemma CountFits(slots: seq<IdSlot>, free: seq<nat>, inUse: nat)
    requires FreeOk(slots, free, inUse)
    ensures inUse <= |slots|
  {
  }

  lemma ConnsDrop(hosts: seq<Host>, fdToSlot: map<Handle, nat>, fd: Handle)
    ensures Conns(hosts, fdToSlot - {fd}) == Conns(hosts, fdToSlot) - {fd}
  {
  }

  lemma ListenIsNoConn(hosts: seq<Host>, watched: map<Handle, Wants>, fdToSlot: map<Handle, nat>,
                       listenFd: Option<Handle>)
    requires WatchOk(hosts, watched, fdToSlot, listenFd)
    ensures listenFd.Some? ==> listenFd.value !in fdToSlot
  {
  }

  lemma KnownConn(hosts: seq<Host>, slotOf: map<Id, nat>, fdToSlot: map<Handle, nat>, fd: Handle)
    requires TablesOk(hosts, slotOf, fdToSlot)
    ensures fd in Conns(hosts, fdToSlot) <==> fd in fdToSlot
    ensures fd in fdToSlot ==> fdToSlot[fd] < |hosts| && hosts[fdToSlot[fd]].inUse && hosts[fdToSlot[fd]].fd == fd
    ensures fd in fdToSlot ==> Conns(hosts, fdToSlot)[fd] == hosts[fdToSlot[fd]].id
  {
  }

  lemma NextRound(out: seq<Event>, ready: seq<Ready>, k: nat, conns: map<Handle, Id>)
    requires k < |ready|
    ensures out + AllRounds(ready[k..], conns)
            == (out + ReadyEvents(conns, ready[k])) + AllRounds(ready[k + 1..], AfterReady(conns, ready[k]))
  {
    assert ready[k..][0] == ready[k] && ready[k..][1..] == ready[k + 1..];
  }

  lemma NoPackets(id: Id, ps: seq<Bytes>)
    ensures Packets(id, ps[..0]) == [] && ps[..|ps|] == ps
  {
  }

  lemma NextPacket(id: Id, ps: seq<Bytes>, k: nat)
    requires k < |ps|
    ensures Packets(id, ps[..k + 1]) == Packets(id, ps[..k]) + [Received(id, ps[k])]
  {
    assert ps[..k + 1][..k] == ps[..k];
  }

  function Packets(id: Id, ps: seq<Bytes>): (es: seq<Event>)
    ensures |es| == |ps| && forall k :: 0 <= k < |ps| ==> es[k] == Received(id, ps[k])
  {
    if |ps| == 0 then [] else Packets(id, ps[..|ps| - 1]) + [Received(id, ps[|ps| - 1])]
  }

  /** Connections in use have different handles. */
  lemma OtherHandles(hosts: seq<Host>, slotOf: map<Id, nat>, fdToSlot: map<Handle, nat>, i: nat)
    requires TablesOk(hosts, slotOf, fdToSlot) && i < |hosts| && hosts[i].inUse
    ensures hosts[i].fd in fdToSlot
    ensures forall k :: 0 <= k < |hosts| && hosts[k].inUse && k != i ==> hosts[k].fd != hosts[i].fd
  {
    assert Maps(fdToSlot, hosts[i].fd, i);
    forall k | 0 <= k < |hosts| && hosts[k].inUse && k != i ensures hosts[k].fd != hosts[i].fd {
      assert Maps(fdToSlot, hosts[k].fd, k);
    }
  }

  lemma WatchUpdates(hosts: seq<Host>, watched: map<Handle, Wants>, fdToSlot: map<Handle, nat>,
                     listenFd: Option<Handle>, i: nat, wantWrite: bool, lastActive: int)
    requires WatchOk(hosts, watched, fdToSlot, listenFd)
    requires i < |hosts| && hosts[i].inUse && hosts[i].fd in fdToSlot
    requires forall k :: 0 <= k < |hosts| && hosts[k].inUse && k != i ==> hosts[k].fd != hosts[i].fd
    ensures var hosts' := hosts[i := hosts[i].(wantWrite := wantWrite, lastActive := lastActive)];
            WatchOk(hosts', watched[hosts[i].fd := Wants(true, wantWrite)], fdToSlot, listenFd)
            && (wantWrite == hosts[i].wantWrite ==> WatchOk(hosts', watched, fdToSlot, listenFd))
  {
  }

  lemma UpdateKeeps(hosts: seq<Host>, slotOf: map<Id, nat>, fdToSlot: map<Handle, nat>, slots: seq<IdSlot>,
                    watched: map<Handle, Wants>, listenFd: Option<Handle>, i: nat, wantWrite: bool, lastActive: int)
    requires TablesOk(hosts, slotOf, fdToSlot) && IdsOk(hosts, slots) && WatchOk(hosts, watched, fdToSlot, listenFd)
    requires i < |hosts| && hosts[i].inUse
    ensures var hosts' := hosts[i := hosts[i].(wantWrite := wantWrite, lastActive := lastActive)];
            TablesOk(hosts', slotOf, fdToSlot) && IdsOk(hosts', slots)
            && WatchOk(hosts', watched[hosts[i].fd := Wants(true, wantWrite)], fdToSlot, listenFd)
            && (wantWrite == hosts[i].wantWrite ==> WatchOk(hosts', watched, fdToSlot, listenFd))
  {
    hide WatchOk;
    OtherHandles(hosts, slotOf, fdToSlot, i);
    WatchUpdates(hosts, watched, fdToSlot, listenFd, i, wantWrite, lastActive);
  }

  // ----- the sizes of the tables -----

  lemma {:induction false} SameSize(table: map<nat, nat>, slots: set<nat>)
    requires forall k :: k in table ==> table[k] in slots
    requires forall j, k :: j in table && k in table && table[j] == table[k] ==> j == k
    requires forall i :: i in slots ==> exists k :: Maps(table, k, i)
    ensures |table| == |slots|
    decreases |slots|
  {
    if slots == {} {
      assert table.Keys == {};
    } else {
      var i :| i in slots;
      var k :| Maps(table, k, i);
      var less := table - {k};
      forall x | x in slots - {i} ensures exists y :: Maps(less, y, x) {
        var y :| Maps(table, y, x);
        assert Maps(less, y, x);
      }
      SameSize(less, slots - {i});
      assert table.Keys == less.Keys + {k};
    }
  }

  lemma UsedSlots(hosts: seq<Host>, slots: seq<IdSlot>, free: seq<nat>, inUse: nat, used: set<nat>)
    requires IdsOk(hosts, slots) && FreeOk(slots, free, inUse) && used == UpTo(|hosts|) - Elements(free)
    ensures forall i: nat :: i in used <==> i < |hosts| && hosts[i].inUse
  {
    hide IdOf;
  }

  /** Both tables have as many entries as the allocator counts connections. */
  lemma CountsAgree(hosts: seq<Host>, slotOf: map<Id, nat>, fdToSlot: map<Handle, nat>, slots: seq<IdSlot>,
                    free: seq<nat>, inUse: nat)
    requires TablesOk(hosts, slotOf, fdToSlot) && IdsOk(hosts, slots) && FreeOk(slots, free, inUse)
    ensures |slotOf| == inUse && |fdToSlot| == inUse
  {
    hide IdOf, TopId;
    DistinctSize(free);
    var unused := Elements(free);
    var used := UpTo(|hosts|) - unused;
    assert unused <= UpTo(|hosts|);
    UsedSlots(hosts, slots, free, inUse, used);
    forall i | i in used ensures Maps(slotOf, hosts[i].id, i) && Maps(fdToSlot, hosts[i].fd, i) {
    }
    SameSize(slotOf, used);
    SameSize(fdToSlot, used);
  }

  lemma WatchedSize(hosts: seq<Host>, watched: map<Handle, Wants>, fdToSlot: map<Handle, nat>, listenFd: Option<Handle>)
    requires WatchOk(hosts, watched, fdToSlot, listenFd)
    ensures |watched| == |fdToSlot| + if listenFd.Some? then 1 else 0
  {
    assert watched.Keys == fdToSlot.Keys + if listenFd.Some? then {listenFd.value} else {};
  }

  /** In every reachable state the tables, the poll set and the count have the same size, within the limit. */
  lemma OneCount(t: TcpTransport)
    requires t.Valid()
    ensures |t.slotOf| == |t.fdToSlot| == t.connCount <= t.max
    ensures |t.poller.watched| == t.connCount + if t.listenFd.Some? then 1 else 0
  {
    hide TablesOk, IdsOk, WatchOk, StreamsOk, EntriesOk, GivenOk, ReleasedOk, IdOf;
    CountsAgree(t.hosts, t.slotOf, t.fdToSlot, t.ids.slots, t.ids.free, t.ids.inUse);
    WatchedSize(t.hosts, t.poller.watched, t.fdToSlot, t.listenFd);
    SameCount(t.hosts, t.ids.slots);
  }

  /** While no id comes twice every stream is in order, and a connection in the table has an open one. */
  lemma StreamInOrder(t: TcpTransport, id: Id)
    requires t.Valid() && Distinct(t.ids.given)
    ensures Orderly(Stream(t.trace, id))
    ensures id in t.slotOf ==>
              var es := Stream(t.trace, id); |es| > 0 && !es[|es| - 1].Disconnected?
    ensures id in t.released ==> id !in t.slotOf
  {
    assert StreamAt(t.trace, id, id in t.slotOf, id in t.ids.given);
    PhaseMeans(t.trace, id);
  }

  /** In every reachable state all streams are in order exactly if no id was handed out twice. */
  lemma StreamsInOrderIff(t: TcpTransport)
    requires t.Valid()
    ensures AllOrderly(t.trace) <==> Distinct(t.ids.given)
  {
    if Distinct(t.ids.given) {
      forall id: Id ensures Orderly(Stream(t.trace, id)) {
        StreamInOrder(t, id);
      }
    }
    if AllOrderly(t.trace) {
      RepeatBreaksStream(t.trace);
    }
  }

  /** For the first 2^32 connections let in, of whatever slots, every stream is in order. */
  lemma StreamsAreOrderly(t: TcpTransport, id: Id)
    requires t.Valid() && |Connects(t.trace)| <= WORD
    ensures Orderly(Stream(t.trace, id))
    ensures id in t.slotOf ==>
              var es := Stream(t.trace, id); |es| > 0 && !es[|es| - 1].Disconnected?
    ensures id in t.released ==> id !in t.slotOf
  {
    StreamInOrder(t, id);
  }

  /** The bound is exact: with one slot all ids are different exactly as long as there are at most 2^32. */
  lemma OneSlotRepeatsIff(a: IdAllocator)
    requires a.Valid() && |a.slots| == 1
    ensures Distinct(a.given) <==> |a.given| <= WORD
  {
    hide FreeOk, OneSlotId;
    if |a.given| > WORD {
      IdsComeAgain(0);
      assert a.given[0] == a.given[WORD];
    }
  }

  /** A server for one connection at a time: its event streams are in order exactly for the first 2^32 of them. */
  lemma OneConnectionOrderlyIff(t: TcpTransport)
    requires t.Valid() && t.max == 1
    ensures AllOrderly(t.trace) <==> |Connects(t.trace)| <= WORD
  {
    hide FreeOk, GivenOk, StreamsOk, TablesOk, WatchOk, ReleasedOk, EntriesOk, OneSlotOk;
    StreamsInOrderIff(t);
    SameCount(t.hosts, t.ids.slots);
    OneSlotRepeatsIff(t.ids);
  }
}
