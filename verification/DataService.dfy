/**
 * The write-behind store of the data service (server/dataservice/src/data_service.cpp):
 * cache in front, dirty queue behind, and when the store ends up with the saves the
 * callers made.
 */
module DataServices {

  type Key = string

  datatype Record = Record(key: Key, payload: string, version: nat)

  /** What the store answers to one save. */
  datatype Outcome = Stored | Conflict | Failed

  datatype SaveResult = Accepted | Busy | CacheFailed

  datatype LoadResult = Found(record: Record) | Absent | StoreFailed

  // ----- the queue -----

  predicate DistinctKeys(batch: seq<Record>) {
    forall i, j :: 0 <= i < j < |batch| ==> batch[i].key != batch[j].key
  }

  ghost function KeysOf(batch: seq<Record>): set<Key> {
    set r | r in batch :: r.key
  }

  /** The set beside the queue holds exactly the keys of the queue, and no key is queued twice. */
  ghost predicate QueueOk(dirty: seq<Record>, dirtySet: set<Key>) {
    DistinctKeys(dirty) && dirtySet == KeysOf(dirty)
  }

  /** Every record is kept under its own key. */
  predicate Keyed(table: map<Key, Record>) {
    forall k :: k in table ==> table[k].key == k
  }

  predicate IsQueued(dirty: seq<Record>, k: Key, r: Record) {
    r in dirty && r.key == k
  }

  /** Where the last word on a key is: the queued record, or else what is stored. */
  predicate LastWord(dirty: seq<Record>, dirtySet: set<Key>, store: map<Key, Record>, k: Key, r: Record) {
    if k in dirtySet then IsQueued(dirty, k, r) else k in store && store[k] == r
  }

  /** Does the save of a record find another record for its key in the queue? That is the one that stays. */
  predicate Superseded(dirty: seq<Record>, dirtySet: set<Key>, rec: Record) {
    rec.key in dirtySet && !IsQueued(dirty, rec.key, rec)
  }

  /**
   * Every accepted key is queued or stored, and the last word on it is its last accepted
   * save exactly if that save was not superseded.
   */
  predicate SavesOk(dirty: seq<Record>, dirtySet: set<Key>, store: map<Key, Record>, accepted: map<Key, Record>,
                    lost: set<Key>)
  {
    && (forall k :: k in dirtySet ==> k in accepted)
    && (forall k :: k in accepted ==> accepted[k].key == k && (k in dirtySet || k in store))
    && (forall k :: k in accepted ==> (k in lost <==> !LastWord(dirty, dirtySet, store, k, accepted[k])))
  }

  lemma QueueGrows(dirty: seq<Record>, dirtySet: set<Key>, rec: Record)
    requires QueueOk(dirty, dirtySet) && rec.key !in dirtySet
    ensures QueueOk(dirty + [rec], dirtySet + {rec.key})
    ensures IsQueued(dirty + [rec], rec.key, rec)
    ensures forall k, r :: k in dirtySet ==> (IsQueued(dirty + [rec], k, r) <==> IsQueued(dirty, k, r))
  {
    var more := dirty + [rec];
    assert forall r :: r in more <==> r in dirty || r == rec;
    assert rec in more;
    forall i | 0 <= i < |dirty| ensures dirty[i].key != rec.key {
      assert dirty[i] in dirty;
    }
  }

  // ----- flushing -----

  /** The records whose save failed, in order. */
  function Remaining(batch: seq<Record>, outcomes: seq<Outcome>): seq<Record>
    requires |batch| == |outcomes|
  {
    if |batch| == 0 then [] else
    var n := |batch| - 1;
    Remaining(batch[..n], outcomes[..n]) + if outcomes[n].Stored? then [] else [batch[n]]
  }

  function StoredAfter(store: map<Key, Record>, batch: seq<Record>, outcomes: seq<Outcome>): map<Key, Record>
    requires |batch| == |outcomes|
  {
    if |batch| == 0 then store else
    var n := |batch| - 1;
    var before := StoredAfter(store, batch[..n], outcomes[..n]);
    if outcomes[n].Stored? then before[batch[n].key := batch[n]] else before
  }

  function Conflicts(outcomes: seq<Outcome>): nat {
    if |outcomes| == 0 then 0
    else Conflicts(outcomes[..|outcomes| - 1]) + if outcomes[|outcomes| - 1].Conflict? then 1 else 0
  }

  lemma {:induction false} ConflictsAre(outcomes: seq<Outcome>)
    ensures Conflicts(outcomes) == multiset(outcomes)[Conflict]
  {
    if |outcomes| > 0 {
      var n := |outcomes| - 1;
      ConflictsAre(outcomes[..n]);
      assert outcomes == outcomes[..n] + [outcomes[n]];
    }
  }

  /** Are exactly the records that were not stored left? */
  predicate IsRest(batch: seq<Record>, outcomes: seq<Outcome>, rest: seq<Record>) {
    |batch| == |outcomes| && forall i :: 0 <= i < |batch| ==> (outcomes[i].Stored? <==> batch[i] !in rest)
  }

  /** What remains is what was not stored. */
  lemma {:induction false} RemainingIs(batch: seq<Record>, outcomes: seq<Outcome>)
    requires |batch| == |outcomes| && DistinctKeys(batch)
    ensures DistinctKeys(Remaining(batch, outcomes)) && |Remaining(batch, outcomes)| <= |batch|
    ensures IsRest(batch, outcomes, Remaining(batch, outcomes))
    ensures forall r :: r in Remaining(batch, outcomes) ==> r in batch
  {
    if |batch| == 0 {
    } else {
      var n := |batch| - 1;
      FrontIsDistinct(batch);
      hide DistinctKeys;
      RemainingIs(batch[..n], outcomes[..n]);
      RemainingNext(batch, outcomes, Remaining(batch[..n], outcomes[..n]));
    }
  }

  lemma RemainingNext(batch: seq<Record>, outcomes: seq<Outcome>, rest: seq<Record>)
    requires |batch| == |outcomes| > 0 && DistinctKeys(batch) && DistinctKeys(rest)
    requires IsRest(batch[..|batch| - 1], outcomes[..|batch| - 1], rest)
    requires forall r :: r in rest ==> r in batch[..|batch| - 1]
    ensures var all := rest + if outcomes[|batch| - 1].Stored? then [] else [batch[|batch| - 1]];
            && DistinctKeys(all) && (forall r :: r in all ==> r in batch)
            && IsRest(batch, outcomes, all)
  {
    hide DistinctKeys;
    var n := |batch| - 1;
    OneMoreRemains(batch, rest);
    forall i | 0 <= i < n ensures outcomes[i].Stored? <==> batch[i] !in rest {
      assert batch[i] == batch[..n][i] && outcomes[i] == outcomes[..n][i];
    }
    assert rest + [] == rest && batch[n] in [batch[n]];
  }

  lemma FrontIsDistinct(batch: seq<Record>)
    requires DistinctKeys(batch) && |batch| > 0
    ensures DistinctKeys(batch[..|batch| - 1])
  {
  }

  /** A record of a key not seen before goes behind those that remain. */
  lemma OneMoreRemains(batch: seq<Record>, rest: seq<Record>)
    requires |batch| > 0 && DistinctKeys(batch) && DistinctKeys(rest)
    requires forall r :: r in rest ==> r in batch[..|batch| - 1]
    ensures DistinctKeys(rest + [batch[|batch| - 1]]) && batch[|batch| - 1] !in rest
    ensures forall r :: r in rest ==> r in batch
    ensures forall i :: 0 <= i < |batch| - 1 ==>
              (batch[i] in rest + [batch[|batch| - 1]] <==> batch[i] in rest)
  {
    var n := |batch| - 1;
    forall r | r in rest ensures r in batch && r.key != batch[n].key {
      var i :| 0 <= i < n && batch[..n][i] == r;
      assert batch[i] == r;
    }
  }

  /** Has the store under a key what it had before, or still nothing? */
  predicate SameAt(before: map<Key, Record>, after: map<Key, Record>, k: Key) {
    (k in after <==> k in before) && (k in before ==> after[k] == before[k])
  }

  /** Is this the store after a flush: the stored records are in it, and all other keys are as before? */
  ghost predicate IsStored(store: map<Key, Record>, batch: seq<Record>, outcomes: seq<Outcome>,
                           after: map<Key, Record>)
  {
    && |batch| == |outcomes|
    && (forall i :: 0 <= i < |batch| && outcomes[i].Stored? ==>
          batch[i].key in after && after[batch[i].key] == batch[i])
    && (forall i :: 0 <= i < |batch| && !outcomes[i].Stored? ==> SameAt(store, after, batch[i].key))
    && (forall k :: k !in KeysOf(batch) ==> SameAt(store, after, k))
  }

  /** Stored records are in the store, and under other keys nothing changes. */
  lemma {:induction false} StoredIs(store: map<Key, Record>, batch: seq<Record>, outcomes: seq<Outcome>)
    requires |batch| == |outcomes| && DistinctKeys(batch)
    ensures IsStored(store, batch, outcomes, StoredAfter(store, batch, outcomes))
  {
    if |batch| == 0 {
    } else {
      var n := |batch| - 1;
      FrontIsDistinct(batch);
      hide DistinctKeys, IsStored;
      StoredIs(store, batch[..n], outcomes[..n]);
      StoredNext(store, batch, outcomes, StoredAfter(store, batch[..n], outcomes[..n]));
    }
  }

  lemma QueueIsStored(dirty: seq<Record>, dirtySet: set<Key>, store: map<Key, Record>, outcomes: seq<Outcome>)
    requires QueueOk(dirty, dirtySet) && |outcomes| == |dirty|
    ensures IsStored(store, dirty, outcomes, StoredAfter(store, dirty, outcomes))
  {
    StoredIs(store, dirty, outcomes);
  }

  lemma StoredNext(store: map<Key, Record>, batch: seq<Record>, outcomes: seq<Outcome>, before: map<Key, Record>)
    requires |batch| == |outcomes| > 0 && DistinctKeys(batch)
    requires IsStored(store, batch[..|batch| - 1], outcomes[..|batch| - 1], before)
    ensures var last := batch[|batch| - 1];
            IsStored(store, batch, outcomes,
                     if outcomes[|batch| - 1].Stored? then before[last.key := last] else before)
  {
    var n := |batch| - 1;
    KeysOfNext(batch);
    hide KeysOf;
    var last := batch[n];
    var after := if outcomes[n].Stored? then before[last.key := last] else before;
    forall i | 0 <= i < |batch| && outcomes[i].Stored?
      ensures batch[i].key in after && after[batch[i].key] == batch[i]
    {
      if i < n {
        assert batch[i] == batch[..n][i] && outcomes[i] == outcomes[..n][i];
      }
    }
    forall i | 0 <= i < |batch| && !outcomes[i].Stored? ensures SameAt(store, after, batch[i].key) {
      if i < n {
        assert batch[i] == batch[..n][i] && outcomes[i] == outcomes[..n][i];
      }
    }
  }

  lemma KeysOfNext(batch: seq<Record>)
    requires |batch| > 0
    ensures KeysOf(batch) == KeysOf(batch[..|batch| - 1]) + {batch[|batch| - 1].key}
    ensures forall r :: r in batch ==> r.key in KeysOf(batch)
  {
    var n := |batch| - 1;
    assert batch == batch[..n] + [batch[n]];
  }

  class DataService {
    const maxPending: nat
    var cache: map<Key, Record>
    var store: map<Key, Record>
    var dirty: seq<Record>
    var dirtySet: set<Key>
    var hits: nat
    var misses: nat
    var conflicts: nat
    var flushCount: nat
    /** The last accepted save of each key, and the keys whose last save was superseded by an older queued record. */
    ghost var accepted: map<Key, Record>
    ghost var lost: set<Key>

    ghost predicate Valid()
      reads this
    {
      && QueueOk(dirty, dirtySet)
      && |dirty| <= maxPending
      && SavesOk(dirty, dirtySet, store, accepted, lost)
      && Keyed(cache) && Keyed(store)
    }

    constructor (maxPending: nat, store: map<Key, Record>)
      requires Keyed(store)
      ensures Valid() && this.maxPending == maxPending && this.store == store && accepted == map[] && lost == {}
    {
      this.maxPending := maxPending;
      this.store := store;
      cache := map[];
      dirty := [];
      dirtySet := {};
      hits := 0;
      misses := 0;
      conflicts := 0;
      flushCount := 0;
      accepted := map[];
      lost := {};
    }

    /**
     * The cache first, then the store, which refills the cache. A cache that cannot be read counts
     * as a miss, one that cannot be filled is let be; only a store that fails is told to the caller.
     * `expired` is what the cache has dropped meanwhile.
     */
    method Load(key: Key, expired: set<Key>, cacheReads: bool, storeReads: bool, cacheTakes: bool)
      returns (result: LoadResult)
      requires Valid()
      modifies this`cache, this`hits, this`misses
      ensures Valid()
      ensures var hit := cacheReads && key in old(cache) && key !in expired;
              && result == (if hit then Found(old(cache)[key]) else if !storeReads then StoreFailed
                            else if key in store then Found(store[key]) else Absent)
              && hits == old(hits) + (if hit then 1 else 0) && misses == old(misses) + (if hit then 0 else 1)
              && cache == (if !hit && storeReads && key in store && cacheTakes
                           then (old(cache) - expired)[key := store[key]] else old(cache) - expired)
    {
      cache := cache - expired;
      if cacheReads {
        if key in cache {
          hits := hits + 1;
          return Found(cache[key]);
        }
      }
      misses := misses + 1;
      if !storeReads {
        return StoreFailed;
      }
      if key !in store {
        return Absent;
      }
      if cacheTakes {
        cache := cache[key := store[key]];
      }
      return Found(store[key]);
    }

    /**
     * Accepts a record while the queue has room. The cache has the new record at once;
     * the queue keeps the record it already has for that key.
     */
    method Save(rec: Record, cacheWorks: bool) returns (result: SaveResult)
      requires Valid()
      modifies this
      ensures Valid() && store == old(store)
      ensures result == Busy <==> |old(dirty)| >= maxPending
      ensures result == CacheFailed <==> |old(dirty)| < maxPending && !cacheWorks
      ensures result != Accepted ==> unchanged(this)
      ensures result == Accepted ==> cache == old(cache)[rec.key := rec] && accepted == old(accepted)[rec.key := rec]
      ensures result == Accepted ==> dirty == if rec.key in old(dirtySet) then old(dirty) else old(dirty) + [rec]
      ensures result == Accepted ==>
                lost == if Superseded(old(dirty), old(dirtySet), rec) then old(lost) + {rec.key}
                        else old(lost) - {rec.key}
    {
      hide QueueOk, SavesOk, DistinctKeys, Superseded;
      if |dirty| >= maxPending {
        return Busy;
      }
      if !cacheWorks {
        return CacheFailed;
      }
      SaveKeeps(dirty, dirtySet, store, accepted, lost, rec);
      cache := cache[rec.key := rec];
      lost := if Superseded(dirty, dirtySet, rec) then lost + {rec.key} else lost - {rec.key};
      accepted := accepted[rec.key := rec];
      if rec.key !in dirtySet {
        QueueGrows(dirty, dirtySet, rec);
        dirtySet := dirtySet + {rec.key};
        dirty := dirty + [rec];
      } else {
        assert dirtySet + {rec.key} == dirtySet;
      }
      return Accepted;
    }

    /** Writes the queue to the store; what the store refuses waits again. */
    method Flush(outcomes: seq<Outcome>)
      requires Valid() && |outcomes| == |dirty|
      modifies this
      ensures Valid() && cache == old(cache) && accepted == old(accepted) && lost == old(lost)
      ensures dirty == Remaining(old(dirty), outcomes)
      ensures store == StoredAfter(old(store), old(dirty), outcomes)
      ensures IsStored(old(store), old(dirty), outcomes, store)
      ensures conflicts == old(conflicts) + multiset(outcomes)[Conflict] && flushCount == old(flushCount) + 1
      ensures (forall i :: 0 <= i < |outcomes| ==> outcomes[i] == Stored) ==>
                |dirty| == 0 && forall k :: k in accepted ==>
                  k in store && (store[k] == accepted[k] <==> k !in lost)
    {
      hide IsStored, QueueOk, SavesOk, DistinctKeys, KeysOf, Keyed, Remaining, StoredAfter, Conflicts;
      FlushKeeps(dirty, dirtySet, store, accepted, lost, outcomes);
      QueueIsStored(dirty, dirtySet, store, outcomes);
      StoreKeysStay(store, dirty, outcomes);
      ConflictsAre(outcomes);
      if |dirty| == 0 {
        NothingToFlush(store, outcomes);
        flushCount := flushCount + 1;
        return;
      }
      var batch := dirty;
      dirty := [];
      dirtySet := {};
      var remaining := SaveBatch(batch, outcomes);
      Requeue(remaining);
      flushCount := flushCount + 1;
    }

    /** The first loop of Flush. */
    method SaveBatch(batch: seq<Record>, outcomes: seq<Outcome>) returns (remaining: seq<Record>)
      requires |batch| == |outcomes|
      modifies this`store, this`conflicts
      ensures remaining == Remaining(batch, outcomes) && store == StoredAfter(old(store), batch, outcomes)
      ensures conflicts == old(conflicts) + Conflicts(outcomes)
    {
      remaining := [];
      for i := 0 to |batch|
        invariant remaining == Remaining(batch[..i], outcomes[..i])
        invariant store == StoredAfter(old(store), batch[..i], outcomes[..i])
        invariant conflicts == old(conflicts) + Conflicts(outcomes[..i])
      {
        assert batch[..i + 1][..i] == batch[..i] && outcomes[..i + 1][..i] == outcomes[..i];
        match outcomes[i] {
          case Stored => store := store[batch[i].key := batch[i]];
          case Conflict => {
            conflicts := conflicts + 1;
            remaining := remaining + [batch[i]];
          }
          case Failed => remaining := remaining + [batch[i]];
        }
      }
      assert batch[..|batch|] == batch && outcomes[..|batch|] == outcomes;
    }

    /** The second loop of Flush: what failed waits again, in order. */
    method Requeue(remaining: seq<Record>)
      requires DistinctKeys(remaining) && dirty == [] && dirtySet == {}
      modifies this`dirty, this`dirtySet
      ensures dirty == remaining && dirtySet == KeysOf(remaining)
    {
      hide DistinctKeys;
      assert KeysOf(remaining[..0]) == {};
      hide KeysOf;
      for i := 0 to |remaining|
        invariant dirty == remaining[..i] && dirtySet == KeysOf(remaining[..i])
      {
        KeysGrow(remaining, i);
        if remaining[i].key !in dirtySet {
          dirtySet := dirtySet + {remaining[i].key};
          dirty := dirty + [remaining[i]];
        }
      }
      assert remaining[..|remaining|] == remaining;
    }
  }

  lemma NothingToFlush(store: map<Key, Record>, outcomes: seq<Outcome>)
    requires |outcomes| == 0
    ensures Remaining([], outcomes) == [] && StoredAfter(store, [], outcomes) == store && Conflicts(outcomes) == 0
    ensures KeysOf([]) == {}
  {
  }

  lemma KeysGrow(rest: seq<Record>, i: nat)
    requires i < |rest| && DistinctKeys(rest)
    ensures rest[i].key !in KeysOf(rest[..i]) && KeysOf(rest[..i + 1]) == KeysOf(rest[..i]) + {rest[i].key}
    ensures rest[..i + 1] == rest[..i] + [rest[i]]
  {
    assert rest[..i + 1] == rest[..i] + [rest[i]];
  }

  lemma SaveKeeps(dirty: seq<Record>, dirtySet: set<Key>, store: map<Key, Record>, accepted: map<Key, Record>,
                  lost: set<Key>, rec: Record)
    requires QueueOk(dirty, dirtySet) && SavesOk(dirty, dirtySet, store, accepted, lost)
    ensures var lost' := if Superseded(dirty, dirtySet, rec) then lost + {rec.key} else lost - {rec.key};
            var dirty' := if rec.key in dirtySet then dirty else dirty + [rec];
            SavesOk(dirty', dirtySet + {rec.key}, store, accepted[rec.key := rec], lost')
  {
    if rec.key !in dirtySet {
      QueueGrows(dirty, dirtySet, rec);
    } else {
      assert dirtySet + {rec.key} == dirtySet;
    }
  }

  lemma FlushKeeps(dirty: seq<Record>, dirtySet: set<Key>, store: map<Key, Record>, accepted: map<Key, Record>,
                   lost: set<Key>, outcomes: seq<Outcome>)
    requires QueueOk(dirty, dirtySet) && SavesOk(dirty, dirtySet, store, accepted, lost) && |outcomes| == |dirty|
    ensures var dirty', store' := Remaining(dirty, outcomes), StoredAfter(store, dirty, outcomes);
            QueueOk(dirty', KeysOf(dirty')) && SavesOk(dirty', KeysOf(dirty'), store', accepted, lost)
            && DistinctKeys(dirty') && |dirty'| <= |dirty|
            && ((forall i :: 0 <= i < |outcomes| ==> outcomes[i] == Stored) ==>
                |dirty'| == 0 && forall k :: k in accepted ==>
                  k in store' && (store'[k] == accepted[k] <==> k !in lost))
  {
    hide Remaining, StoredAfter;
    var dirty', store' := Remaining(dirty, outcomes), StoredAfter(store, dirty, outcomes);
    RemainingIs(dirty, outcomes);
    forall k | k in accepted
      ensures LastWord(dirty', KeysOf(dirty'), store', k, accepted[k]) <==>
                LastWord(dirty, dirtySet, store, k, accepted[k])
      ensures (k in KeysOf(dirty') || k in store') && (k in KeysOf(dirty') ==> k in dirtySet)
    {
      LastWordStays(store, dirty, outcomes, k, accepted[k]);
    }
    assert KeysOf(dirty') <= KeysOf(dirty) by {
      assert forall r :: r in dirty' ==> r in dirty;
    }
    if forall i :: 0 <= i < |outcomes| ==> outcomes[i] == Stored {
      NoneRemain(dirty, outcomes);
    }
  }

  lemma {:induction false} NoneRemain(batch: seq<Record>, outcomes: seq<Outcome>)
    requires |batch| == |outcomes| && forall i :: 0 <= i < |outcomes| ==> outcomes[i] == Stored
    ensures Remaining(batch, outcomes) == []
  {
    if |batch| == 0 {
    } else {
      NoneRemain(batch[..|batch| - 1], outcomes[..|batch| - 1]);
    }
  }

  /** A flush moves the last word on a key from the queue to the store, or leaves it where it is. */
  lemma LastWordStays(store: map<Key, Record>, dirty: seq<Record>, outcomes: seq<Outcome>, k: Key, r: Record)
    requires |outcomes| == |dirty| && DistinctKeys(dirty) && r.key == k && (k in KeysOf(dirty) || k in store)
    ensures var dirty', store' := Remaining(dirty, outcomes), StoredAfter(store, dirty, outcomes);
            (LastWord(dirty', KeysOf(dirty'), store', k, r) <==> LastWord(dirty, KeysOf(dirty), store, k, r))
            && (k in KeysOf(dirty') || k in store') && (k in KeysOf(dirty') ==> k in KeysOf(dirty))
  {
    hide Remaining, StoredAfter;
    var dirty', store' := Remaining(dirty, outcomes), StoredAfter(store, dirty, outcomes);
    RemainingIs(dirty, outcomes);
    StoredIs(store, dirty, outcomes);
    if k in KeysOf(dirty) {
      var q :| q in dirty && q.key == k;
      var i :| 0 <= i < |dirty| && dirty[i] == q;
      forall x | x in dirty && x.key == k ensures x == q {
        var j :| 0 <= j < |dirty| && dirty[j] == x;
      }
      if outcomes[i].Stored? {
        assert k !in KeysOf(dirty');
      } else {
        assert q in dirty' && k in KeysOf(dirty');
      }
    } else {
      assert k !in KeysOf(dirty') by {
        assert forall x :: x in dirty' ==> x in dirty;
      }
    }
  }

  lemma {:induction false} StoreKeysStay(store: map<Key, Record>, batch: seq<Record>, outcomes: seq<Outcome>)
    requires |batch| == |outcomes| && Keyed(store)
    ensures Keyed(StoredAfter(store, batch, outcomes))
  {
    if |batch| == 0 {
    } else {
      StoreKeysStay(store, batch[..|batch| - 1], outcomes[..|batch| - 1]);
    }
  }

  /** Two different saves of one key between flushes: the store gets the first. */
  lemma OlderSaveSticks(first: Record, second: Record)
    requires first.key == second.key && first != second
    ensures Superseded([first], {first.key}, second)
    ensures var store := StoredAfter(map[], [first], [Stored]); first.key in store && store[first.key] != second
  {
    assert first in [first];
    assert StoredAfter(map[], [first][..0], [Stored][..0]) == map[];
  }
}
